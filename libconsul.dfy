/**
  `bin/manager/libconsul.py`: the `Consul` wrapper. An instance chooses the
  Consul host from the environment, forwards key/value and lock calls to the
  server, and keeps one session id per host in a cache file, because every
  lifecycle hook runs in a fresh process.

  The object holds what the wrapper reads and changes: the server's key/value
  entries (`kv`), the sessions created on the server (`sessions`), the session
  ids it asked the server to renew (`renewed`) and the local files by path
  (`files`, where the session cache lives).
 */
module LibConsul {
  import opened Wrappers
  import opened Utils
  import opened Strings
  import Store

  /** Declared as the largest session TTL; nothing applies it. */
  const MaxSession: int := 3600

  /** The only session behaviour the wrapper requests. */
  const ReleaseBehavior: string := "release"

  /** A session as created on the server: its id and the parameters it was requested with. */
  datatype Session = Session(id: string, name: string, behavior: string, ttl: int)

  const DefaultCacheFile: string := "/tmp/consul-session"
  const DefaultSessionName: string := "consul-session"
  const DefaultTtl: int := 25

  /** The module-level defaults `SESSION_CACHE_FILE`, `SESSION_NAME` and `SESSION_TTL`. */
  datatype SessionDefaults = SessionDefaults(cacheFile: string, name: string, ttl: int)

  /**
    The defaults as read from the process environment at import time.
    `SESSION_TTL` goes through `int`, which raises ValueError for a
    non-numeric setting, and then the import fails.
   */
  function SessionSettings(osEnv: map<string, string>): (r: Result<SessionDefaults, PyError>)
    ensures r.Err? <==> "SESSION_TTL" in osEnv && ParseInt(Clean(osEnv["SESSION_TTL"], osEnv)).None?
  {
    var cacheFile := Env("SESSION_CACHE_FILE", Str(DefaultCacheFile), osEnv, osEnv, None);
    var name := Env("SESSION_NAME", Str(DefaultSessionName), osEnv, osEnv, None);
    match Env("SESSION_TTL", Int(DefaultTtl), osEnv, osEnv, Some(IntValue))
    case Err(e) => Err(e)
    case Ok(ttl) => Ok(SessionDefaults(cacheFile.value.s, name.value.s, ttl.i))
  }

  /** With `SESSION_TTL` unset the TTL is 25 seconds, and reading the other two cannot fail. */
  lemma SessionSettingsDefaultTtl(osEnv: map<string, string>)
    requires "SESSION_TTL" !in osEnv
    ensures SessionSettings(osEnv) == Ok(SessionDefaults(
      Env("SESSION_CACHE_FILE", Str(DefaultCacheFile), osEnv, osEnv, None).value.s,
      Env("SESSION_NAME", Str(DefaultSessionName), osEnv, osEnv, None).value.s,
      DefaultTtl))
  {
    assert Env("SESSION_TTL", Int(DefaultTtl), osEnv, osEnv, Some(IntValue)) == Ok(Int(DefaultTtl)) by {
      EnvAbsentKey("SESSION_TTL", Int(DefaultTtl), osEnv, osEnv);
    }
  }

  /** Both default strings are in clean form: no '#', no '$', no white space at either end. */
  lemma DefaultsUnpadded()
    ensures '#' !in DefaultCacheFile && '$' !in DefaultCacheFile
    ensures !IsSpace(DefaultCacheFile[0]) && !IsSpace(DefaultCacheFile[|DefaultCacheFile| - 1])
    ensures '#' !in DefaultSessionName && '$' !in DefaultSessionName
    ensures !IsSpace(DefaultSessionName[0]) && !IsSpace(DefaultSessionName[|DefaultSessionName| - 1])
  {
  }

  /** An unset `SESSION_CACHE_FILE` reads as its default, which is already in clean form. */
  lemma CacheFileDefault(osEnv: map<string, string>)
    requires "SESSION_CACHE_FILE" !in osEnv
    ensures Env("SESSION_CACHE_FILE", Str(DefaultCacheFile), osEnv, osEnv, None) == Ok(Str(DefaultCacheFile))
  {
    DefaultsUnpadded();
    CleanOfCleanString(DefaultCacheFile, osEnv);
    EnvAbsentKey("SESSION_CACHE_FILE", Str(DefaultCacheFile), osEnv, osEnv);
  }

  /** An unset `SESSION_NAME` reads as its default, which is already in clean form. */
  lemma SessionNameDefault(osEnv: map<string, string>)
    requires "SESSION_NAME" !in osEnv
    ensures Env("SESSION_NAME", Str(DefaultSessionName), osEnv, osEnv, None) == Ok(Str(DefaultSessionName))
  {
    DefaultsUnpadded();
    CleanOfCleanString(DefaultSessionName, osEnv);
    EnvAbsentKey("SESSION_NAME", Str(DefaultSessionName), osEnv, osEnv);
  }

  /** With none of the three variables set, the defaults are the file '/tmp/consul-session', the name 'consul-session' and 25 seconds. */
  lemma SessionSettingsUnset(osEnv: map<string, string>)
    requires "SESSION_CACHE_FILE" !in osEnv && "SESSION_NAME" !in osEnv && "SESSION_TTL" !in osEnv
    ensures SessionSettings(osEnv) == Ok(SessionDefaults(DefaultCacheFile, DefaultSessionName, DefaultTtl))
  {
    CacheFileDefault(osEnv);
    SessionNameDefault(osEnv);
    SessionSettingsDefaultTtl(osEnv);
  }

  /** Whether `CONSUL_AGENT`, cleaned, reads as true under `to_flag`. */
  predicate AgentFlag(envs: map<string, string>, osEnv: map<string, string>) {
    "CONSUL_AGENT" in envs && ToFlag(Str(Clean(envs["CONSUL_AGENT"], osEnv))) == Ok(true)
  }

  /** The host `Consul.__init__` picks: 'localhost' for a local agent, else the `CONSUL` setting or 'consul'. */
  function ConsulHost(envs: map<string, string>, osEnv: map<string, string>): (r: Result<string, PyError>)
    ensures r.Ok?
  {
    match Env("CONSUL_AGENT", Bool(false), envs, osEnv, Some(ToFlagValue))
    case Err(e) => Err(e)
    case Ok(flag) =>
      if flag == Bool(true) then Ok("localhost")
      else Ok(Env("CONSUL", Str("consul"), envs, osEnv, None).value.s)
  }

  /** The host is 'localhost' exactly under a true agent flag; otherwise the cleaned `CONSUL`, or 'consul'. */
  lemma ConsulHostChoice(envs: map<string, string>, osEnv: map<string, string>)
    ensures AgentFlag(envs, osEnv) ==> ConsulHost(envs, osEnv) == Ok("localhost")
    ensures !AgentFlag(envs, osEnv) ==>
      ConsulHost(envs, osEnv) == Ok(if "CONSUL" in envs then Clean(envs["CONSUL"], osEnv) else "consul")
  {
    EnvAppliesFnLast("CONSUL_AGENT", Bool(false), envs, osEnv, ToFlagValue);
    if "CONSUL" !in envs {
      EnvAbsentKey("CONSUL", Str("consul"), envs, osEnv);
    }
  }

  /** `test_parse_with_consul_agent`: CONSUL_AGENT '1' selects 'localhost'. */
  lemma HostWithAgent(envs: map<string, string>, osEnv: map<string, string>)
    requires "CONSUL_AGENT" in envs && envs["CONSUL_AGENT"] == "1"
    ensures ConsulHost(envs, osEnv) == Ok("localhost")
  {
    var agent := envs["CONSUL_AGENT"];
    CleanOfCleanString(agent, osEnv);
    ToFlagDigits(agent, 1);
    ConsulHostChoice(envs, osEnv);
  }

  /** CONSUL_AGENT '0' or '' reads as false. */
  lemma AgentOff(envs: map<string, string>, osEnv: map<string, string>)
    requires "CONSUL_AGENT" in envs && envs["CONSUL_AGENT"] in {"0", ""}
    ensures !AgentFlag(envs, osEnv)
  {
    var agent := envs["CONSUL_AGENT"];
    CleanOfCleanString(agent, osEnv);
    if agent == [] {
      ToFlagEmpty(agent);
    } else {
      ToFlagDigits(agent, 0);
    }
  }

  /**
    `test_parse_without_consul_agent`: with CONSUL_AGENT '0' or '' the host is
    the cleaned `CONSUL` setting ('my.consul.example.com' in the test, see
    `ExampleHostIsClean`).
   */
  lemma HostWithoutAgent(envs: map<string, string>, osEnv: map<string, string>)
    requires "CONSUL_AGENT" in envs && envs["CONSUL_AGENT"] in {"0", ""}
    ensures ConsulHost(envs, osEnv) == Ok(if "CONSUL" in envs then Clean(envs["CONSUL"], osEnv) else "consul")
  {
    AgentOff(envs, osEnv);
    ConsulHostChoice(envs, osEnv);
  }

  /** The test's host name is its own clean form. */
  lemma ExampleHostIsClean(osEnv: map<string, string>)
    ensures Clean("my.consul.example.com", osEnv) == "my.consul.example.com"
  {
    CleanOfCleanString("my.consul.example.com", osEnv);
  }

  function SessionIds(ss: seq<Session>): set<string> {
    set i | 0 <= i < |ss| :: ss[i].id
  }

  function MaxIdLength(ss: seq<Session>): (n: nat)
    ensures forall i :: 0 <= i < |ss| ==> |ss[i].id| <= n
  {
    if ss == [] then 0
    else
      var rest := MaxIdLength(ss[1..]);
      assert forall i :: 1 <= i < |ss| ==> ss[i] == ss[1..][i - 1];
      if |ss[0].id| > rest then |ss[0].id| else rest
  }

  /** An id the server has not handed out before (the server's choice; only freshness is relied on). */
  function FreshId(ss: seq<Session>): (id: string)
    ensures id !in SessionIds(ss)
  {
    seq(MaxIdLength(ss) + 1, _ => 's')
  }

  class Consul {
    const host: string
    const defaults: SessionDefaults
    var kv: Store.KV
    var sessions: seq<Session>
    var renewed: seq<string>
    var files: map<string, string>

    /**
      `Consul(envs)`: picks the host from `envs`; `defaults` are the module-level
      settings, which `SessionSettings` reads from the process environment at
      import; the server's entries, the server's live sessions and the local
      files are whatever exists when the hook starts.
     */
    constructor (envs: map<string, string>, osEnv: map<string, string>, defaults: SessionDefaults,
                 kv: Store.KV, sessions: seq<Session>, files: map<string, string>)
      ensures host == ConsulHost(envs, osEnv).value && this.defaults == defaults
      ensures this.kv == kv && this.sessions == sessions && this.files == files && renewed == []
    {
      host := ConsulHost(envs, osEnv).value;
      this.defaults := defaults;
      this.kv := kv;
      this.files := files;
      this.sessions := sessions;
      renewed := [];
    }

    /** `get(key)`: the stored Value, None for an absent key. */
    method Get(key: string) returns (v: Option<string>)
      ensures v == Store.Get(kv, key)
    {
      v := if key in kv then Some(kv[key].value) else None;
    }

    /** `put(key, value)`. */
    method Put(key: string, value: string) returns (ok: bool)
      modifies this`kv
      ensures ok && kv == Store.Put(old(kv), key, value)
    {
      kv := Store.Put(kv, key, value);
      ok := true;
    }

    /** `delete(key)`. */
    method Delete(key: string) returns (ok: bool)
      modifies this`kv
      ensures ok && kv == Store.Delete(old(kv), key)
    {
      kv := Store.Delete(kv, key);
      ok := true;
    }

    /** `create_session(key, ttl)`: a new 'release' session with exactly the given name and TTL. */
    method CreateSession(key: string, ttl: int) returns (id: string)
      modifies this`sessions
      ensures id !in SessionIds(old(sessions))
      ensures sessions == old(sessions) + [Session(id, key, ReleaseBehavior, ttl)]
    {
      id := FreshId(sessions);
      sessions := sessions + [Session(id, key, ReleaseBehavior, ttl)];
    }

    /**
      `get_session(key, ttl, on_disk, cached)`: without the cache, always a new
      session; with it, the id in the cache file when the file is readable, or
      else a new session whose id is then written to the file.
     */
    method GetSession(key: string, ttl: int, onDisk: string, cached: bool) returns (id: string)
      modifies this`sessions, this`files
      ensures !cached ==> files == old(files)
      ensures !cached || onDisk !in old(files) ==>
        id !in SessionIds(old(sessions)) && sessions == old(sessions) + [Session(id, key, ReleaseBehavior, ttl)]
      ensures cached && onDisk in old(files) ==> id == old(files)[onDisk] && sessions == old(sessions)
      ensures cached ==> files == old(files)[onDisk := id]
    {
      if !cached {
        id := CreateSession(key, ttl);
        return;
      }
      if onDisk in files {
        id := files[onDisk];
      } else {
        id := CreateSession(key, ttl);
      }
      if cached {
        files := files[onDisk := id];
      }
    }

    /** `renew_session(session_id)`: renews the given id, or, for None or '', the id `get_session()` gives. */
    method RenewSession(sessionId: Option<string>)
      modifies this`sessions, this`files, this`renewed
      ensures |renewed| == |old(renewed)| + 1 && renewed[..|old(renewed)|] == old(renewed)
      ensures sessionId.Some? && sessionId.value != [] ==>
        renewed[|old(renewed)|] == sessionId.value && sessions == old(sessions) && files == old(files)
      ensures (sessionId.None? || sessionId.value == []) && defaults.cacheFile in old(files) ==>
        renewed[|old(renewed)|] == old(files)[defaults.cacheFile] && sessions == old(sessions) && files == old(files)
      ensures (sessionId.None? || sessionId.value == []) && defaults.cacheFile !in old(files) ==>
        var id := renewed[|old(renewed)|];
        && sessions == old(sessions) + [Session(id, defaults.name, ReleaseBehavior, defaults.ttl)]
        && files == old(files)[defaults.cacheFile := id]
    {
      var id: string;
      if sessionId.None? || sessionId.value == [] {
        id := GetSession(defaults.name, defaults.ttl, defaults.cacheFile, true);
      } else {
        id := sessionId.value;
      }
      renewed := renewed + [id];
    }

    /** `lock(key, value, session_id)`: a write with `acquire`. */
    method Lock(key: string, value: string, sessionId: string) returns (ok: bool)
      modifies this`kv
      ensures Store.Write(ok, kv) == Store.Acquire(old(kv), key, value, sessionId, SessionIds(sessions))
    {
      var w := Store.Acquire(kv, key, value, sessionId, SessionIds(sessions));
      ok, kv := w.ok, w.kv;
    }

    /** `unlock(key, session_id)`: a write of '' with `release`; the key is not deleted. */
    method Unlock(key: string, sessionId: string) returns (ok: bool)
      modifies this`kv
      ensures Store.Write(ok, kv) == Store.Release(old(kv), key, "", sessionId)
    {
      var w := Store.Release(kv, key, "", sessionId);
      ok, kv := w.ok, w.kv;
    }

    /** `is_locked(key)`: the holding session, None for `False`, TypeError for an absent key. */
    method IsLocked(key: string) returns (r: Result<Option<string>, PyError>)
      ensures r == Store.IsLocked(kv, key)
    {
      if key !in kv {
        r := Err(TypeError);
      } else {
        r := Ok(kv[key].session);
      }
    }

    /** `read_lock(key)`: (Session, Value), or (None, None) for an absent or unheld key. */
    method ReadLock(key: string) returns (session: Option<string>, value: Option<string>)
      ensures (session, value) == Store.ReadLock(kv, key)
    {
      if key !in kv || kv[key].session.None? {
        session, value := None, None;
      } else {
        session, value := kv[key].session, Some(kv[key].value);
      }
    }
  }

  /** Two successive cached `get_session` calls return the same id and create at most one session. */
  method CachedSessionIsStable(c: Consul, key: string, ttl: int, onDisk: string) returns (first: string, second: string)
    modifies c
    ensures first == second
    ensures onDisk in old(c.files) ==> first == old(c.files)[onDisk] && c.sessions == old(c.sessions)
    ensures onDisk !in old(c.files) ==> |c.sessions| == |old(c.sessions)| + 1
    ensures c.files == old(c.files)[onDisk := first]
  {
    first := c.GetSession(key, ttl, onDisk, true);
    second := c.GetSession(key, ttl, onDisk, true);
  }
}
