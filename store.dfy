/**
  The key/value part of the Consul server that `bin/manager/libconsul.py`
  talks to, as a map from key to entry. These functions give the server's
  answers to the wire calls the wrapper makes; the wrapper's own code is in
  module LibConsul. The lock rules (`Acquire`, `Release`) and the rule that a
  plain write keeps a key's lock are Consul's documented server behaviour,
  taken as given here rather than derived from the wrapper.
 */
module Store {
  import opened Wrappers

  /** A key's entry: its Value and the Session field, present while a session holds the lock. */
  datatype Entry = Entry(value: string, session: Option<string>)

  type KV = map<string, Entry>

  /** The outcome of a conditional write: whether it took effect, and the store afterwards. */
  datatype Write = Write(ok: bool, kv: KV)

  /** `Consul.get(key)`: the stored Value, or None for an absent key. */
  function Get(kv: KV, key: string): (r: Option<string>)
    ensures r.Some? <==> key in kv
    ensures r.Some? ==> r.value == kv[key].value
  {
    if key in kv then Some(kv[key].value) else None
  }

  /** An unconditional write; a lock held on the key stays with its session. */
  function Put(kv: KV, key: string, value: string): (r: KV)
    ensures r.Keys == kv.Keys + {key}
  {
    kv[key := Entry(value, if key in kv then kv[key].session else None)]
  }

  /** `Consul.delete(key)`: removes the key, held or not; deleting an absent key changes nothing. */
  function Delete(kv: KV, key: string): (r: KV)
    ensures r.Keys == kv.Keys - {key}
    ensures forall k :: k in r ==> r[k] == kv[k]
  {
    kv - {key}
  }

  /**
    A write with `acquire=session`: it succeeds, storing the value and marking
    the key held by `session`, exactly when the session is live and the key is
    not held by another session.
   */
  function Acquire(kv: KV, key: string, value: string, session: string, live: set<string>): (w: Write)
    ensures w.ok <==> session in live && (key !in kv || kv[key].session.None? || kv[key].session == Some(session))
    ensures w.ok ==> w.kv == kv[key := Entry(value, Some(session))]
    ensures !w.ok ==> w.kv == kv
  {
    if session in live && (key !in kv || kv[key].session.None? || kv[key].session == Some(session)) then
      Write(true, kv[key := Entry(value, Some(session))])
    else Write(false, kv)
  }

  /** A write with `release=session`: only the holding session can release; the value is replaced. */
  function Release(kv: KV, key: string, value: string, session: string): (w: Write)
    ensures w.ok <==> key in kv && kv[key].session == Some(session)
    ensures w.ok ==> w.kv == kv[key := Entry(value, None)]
    ensures !w.ok ==> w.kv == kv
  {
    if key in kv && kv[key].session == Some(session) then Write(true, kv[key := Entry(value, None)])
    else Write(false, kv)
  }

  /** `Consul.read_lock(key)`: (Session, Value) of a held key, (None, None) otherwise. */
  function ReadLock(kv: KV, key: string): (r: (Option<string>, Option<string>))
    ensures r.0.Some? <==> r.1.Some?
    ensures r.0.Some? <==> key in kv && kv[key].session.Some?
    ensures r.0.Some? ==> r == (kv[key].session, Some(kv[key].value))
  {
    if key in kv && kv[key].session.Some? then (kv[key].session, Some(kv[key].value)) else (None, None)
  }

  /**
    `Consul.is_locked(key)`: the holding session, or None standing for the
    `False` returned when the entry has no Session field. For an absent key
    `lock[1]` is None and indexing it raises TypeError, which is not caught.
   */
  function IsLocked(kv: KV, key: string): (r: Result<Option<string>, PyError>)
    ensures r.Err? <==> key !in kv
    ensures r.Ok? ==> r.value == kv[key].session
  {
    if key !in kv then Err(TypeError) else Ok(kv[key].session)
  }

  /** A value written by `Put` is what `Get` returns. */
  lemma GetAfterPut(kv: KV, key: string, value: string)
    ensures Get(Put(kv, key, value), key) == Some(value)
  {
  }

  /** `Put` on one key leaves every other key as it was. */
  lemma PutLeavesOtherKeys(kv: KV, key: string, value: string, other: string)
    requires other != key
    ensures Get(Put(kv, key, value), other) == Get(kv, other)
    ensures other in kv ==> Put(kv, key, value)[other] == kv[other]
  {
  }

  /** Deleting a key that a put has just added gives back the store as it was before the put. */
  lemma DeleteAfterPut(kv: KV, key: string, value: string)
    requires key !in kv
    ensures Delete(Put(kv, key, value), key) == kv
  {
    assert Delete(Put(kv, key, value), key).Keys == kv.Keys;
  }

  /** After `Delete`, `Get` finds nothing. */
  lemma GetAfterDelete(kv: KV, key: string)
    ensures Get(Delete(kv, key), key) == None
  {
  }

  /** Deleting twice leaves the same store as deleting once. */
  lemma DeleteIdempotent(kv: KV, key: string)
    ensures Delete(Delete(kv, key), key) == Delete(kv, key)
  {
  }

  /** Once a session holds a key, a different session cannot acquire it, and the value stays. */
  lemma AcquireExcludesOthers(kv: KV, key: string, v1: string, v2: string, s1: string, s2: string, live: set<string>)
    requires s1 != s2
    requires Acquire(kv, key, v1, s1, live).ok
    ensures var held := Acquire(kv, key, v1, s1, live).kv;
      Acquire(held, key, v2, s2, live) == Write(false, held) && Get(held, key) == Some(v1)
  {
  }

  /** After the holder releases, another live session can acquire. */
  lemma ReleaseThenAcquire(kv: KV, key: string, v1: string, v2: string, s1: string, s2: string, live: set<string>)
    requires Acquire(kv, key, v1, s1, live).ok && s2 in live
    ensures var held := Acquire(kv, key, v1, s1, live).kv;
      var released := Release(held, key, "", s1);
      released.ok && Acquire(released.kv, key, v2, s2, live).ok
  {
  }

  /** A held key reads back as its holder and value. */
  lemma ReadLockAfterAcquire(kv: KV, key: string, value: string, session: string, live: set<string>)
    requires Acquire(kv, key, value, session, live).ok
    ensures ReadLock(Acquire(kv, key, value, session, live).kv, key) == (Some(session), Some(value))
  {
  }

  /** `unlock` leaves the key in place with the empty value and no holder. */
  lemma UnlockKeepsKey(kv: KV, key: string, session: string)
    requires Release(kv, key, "", session).ok
    ensures var after := Release(kv, key, "", session).kv;
      Get(after, key) == Some("") && IsLocked(after, key) == Ok(None) && ReadLock(after, key) == (None, None)
  {
  }
}
