/**
  The ContainerPilot hooks of `bin/manage.py`: `pre_start` elects the seed
  through the `cassandra_seeds` key and writes the Cassandra configuration,
  `pre_stop` gives the seed role up, `health` and `basic_health` turn the
  node status into an exit status, and `main` picks the hook named on the
  command line. Each hook runs as one sequential call against the store; the
  host name, the node's IP, the answer of `ping` and the output of
  `nodetool status` are parameters.
 */
module Manage {
  import opened Wrappers
  import opened Strings
  import opened Utils
  import Store
  import opened LibConsul
  import opened LibCassandra
  import CassandraConfig

  /** The key under which the seed node records its IP. */
  const SeedRecordKey: string := "cassandra_seeds"

  /** How a hook ends: a process exit status, or an exception that is not caught. */
  datatype Outcome = Exit(code: int) | Raised(error: PyError)

  /** `Node`: the objects a hook works with and the node's own names and address. */
  class Node {
    const kvstore: Consul
    const service: CassandraService
    const hostname: string
    const name: string
    const ip: string

    constructor (kvstore: Consul, service: CassandraService, hostname: string, ip: string)
      ensures this.kvstore == kvstore && this.service == service
      ensures this.hostname == hostname && this.ip == ip && name == "cassandra-" + hostname
    {
      this.kvstore := kvstore;
      this.service := service;
      this.hostname := hostname;
      name := "cassandra-" + hostname;
      this.ip := ip;
    }
  }

  /**
    `pre_start`: with no seed recorded the node becomes the seed (seeds
    `[None]`) and records its IP; otherwise it joins the recorded seed and
    writes nothing. Either way the configuration is rewritten for its IP.
   */
  method PreStart(node: Node) returns (code: int)
    modifies node.kvstore`kv, node.service`seeds, node.service`config
    ensures code == 0
    ensures node.service.seeds == [Store.Get(old(node.kvstore.kv), SeedRecordKey)]
    ensures SeedRecordKey !in old(node.kvstore.kv) ==>
      node.kvstore.kv == Store.Put(old(node.kvstore.kv), SeedRecordKey, node.ip)
    ensures SeedRecordKey in old(node.kvstore.kv) ==> node.kvstore.kv == old(node.kvstore.kv)
    ensures node.service.config ==
      CassandraConfig.UpdatedText(old(node.service.config), node.service.seeds, node.service.clustername, Some(node.ip))
  {
    var seeds := node.kvstore.Get(SeedRecordKey);
    if seeds.None? {
      node.service.SetSeeds(SeedValue(None));
      var _ := node.kvstore.Put(SeedRecordKey, node.ip);
    } else {
      node.service.SetSeeds(SeedValue(seeds));
    }
    node.service.UpdateConfig(Some(node.ip));
    code := 0;
  }

  /** `pre_start` writes only the seed record, never deletes, and keeps every other key as it was. */
  lemma PreStartTouchesOnlyTheRecord(kv: Store.KV, ip: string, key: string)
    requires key != SeedRecordKey
    ensures var after := if SeedRecordKey in kv then kv else Store.Put(kv, SeedRecordKey, ip);
      && kv.Keys <= after.Keys
      && (key in kv ==> after[key] == kv[key])
      && Store.Get(after, key) == Store.Get(kv, key)
      && Store.Get(after, SeedRecordKey) == Some(if SeedRecordKey in kv then kv[SeedRecordKey].value else ip)
  {
    Store.PutLeavesOtherKeys(kv, SeedRecordKey, ip, key);
    Store.GetAfterPut(kv, SeedRecordKey, ip);
  }

  /** The node joins an existing seed, and so gets the bootstrap setting, exactly when a seed was recorded. */
  lemma PreStartJoinsRecordedSeed(kv: Store.KV)
    ensures None !in [Store.Get(kv, SeedRecordKey)] <==> SeedRecordKey in kv
  {
  }

  /**
    Two nodes of one cluster starting one after the other against a store
    with no record, then the first one stopping: the first records its own IP
    and becomes the seed; the second reads that IP as its one seed, is
    configured to join it and writes nothing; the first, stopping, finds its
    own IP in the record and deletes it, which leaves the store as it was.
   */
  method SequentialStarts(a: Node, b: Node, ping: string -> bool) returns (afterA: Store.KV, afterB: Store.KV, stop: Outcome)
    requires a.kvstore == b.kvstore && a.service != b.service
    requires SeedRecordKey !in a.kvstore.kv
    modifies a.kvstore`kv, a.service`seeds, a.service`config, b.service`seeds, b.service`config
    ensures afterA == Store.Put(old(a.kvstore.kv), SeedRecordKey, a.ip) && afterB == afterA
    ensures a.service.seeds == [None]
    ensures b.service.seeds == [Some(a.ip)]
    ensures b.service.config ==
      CassandraConfig.UpdatedText(old(b.service.config), [Some(a.ip)], b.service.clustername, Some(b.ip))
    ensures stop == Exit(0) && a.kvstore.kv == old(a.kvstore.kv)
  {
    ghost var before := a.kvstore.kv;
    var _ := PreStart(a);
    afterA := a.kvstore.kv;
    Store.GetAfterPut(before, SeedRecordKey, a.ip);
    assert SeedRecordKey in afterA && afterA[SeedRecordKey].value == a.ip;
    var _ := PreStart(b);
    afterB := b.kvstore.kv;
    assert b.service.seeds == [Some(a.ip)];
    PrefixAddressCountsAsOwn(a.ip, a.ip);
    stop := PreStop(a, ping);
    Store.DeleteAfterPut(before, SeedRecordKey, a.ip);
  }

  /**
    The claim is a read followed by an unconditional write: when both nodes
    read the empty record before either writes, both take seeds `[None]`,
    and the record ends up naming only the one that wrote last.
   */
  lemma InterleavedStartsBothSeed(kv: Store.KV, first: string, second: string)
    requires SeedRecordKey !in kv && first != second
    ensures [Store.Get(kv, SeedRecordKey)] == [None]
    ensures var after := Store.Put(Store.Put(kv, SeedRecordKey, first), SeedRecordKey, second);
      Store.Get(after, SeedRecordKey) == Some(second) && Store.Get(after, SeedRecordKey) != Some(first)
  {
    Store.GetAfterPut(Store.Put(kv, SeedRecordKey, first), SeedRecordKey, second);
  }

  /**
    `pre_stop`: gives the seed role up by deleting the record when it holds
    this node's IP (as a substring) or when the recorded host does not answer
    a ping. With no record, `node.ip in None` raises TypeError.
   */
  method PreStop(node: Node, ping: string -> bool) returns (r: Outcome)
    modifies node.kvstore`kv
    ensures SeedRecordKey !in old(node.kvstore.kv) ==>
      r == Raised(TypeError) && node.kvstore.kv == old(node.kvstore.kv)
    ensures SeedRecordKey in old(node.kvstore.kv) ==>
      var rec := old(node.kvstore.kv)[SeedRecordKey].value;
      && r == Exit(0)
      && (IsSubstring(node.ip, rec) || !ping(rec) ==> node.kvstore.kv == Store.Delete(old(node.kvstore.kv), SeedRecordKey))
      && (!IsSubstring(node.ip, rec) && ping(rec) ==> node.kvstore.kv == old(node.kvstore.kv))
  {
    var seeds := node.kvstore.Get(SeedRecordKey);
    if seeds.None? {
      return Raised(TypeError);
    }
    if IsSubstring(node.ip, seeds.value) {
      var _ := node.kvstore.Delete(SeedRecordKey);
      return Exit(0);
    }
    if !ping(seeds.value) {
      var _ := node.kvstore.Delete(SeedRecordKey);
    }
    return Exit(0);
  }

  /** A node whose IP is a prefix of the recorded one (10.0.0.1 and 10.0.0.12) also deletes the record, without a ping. */
  lemma PrefixAddressCountsAsOwn(ip: string, rec: string)
    requires ip <= rec
    ensures IsSubstring(ip, rec)
  {
  }

  /** After `pre_stop` deleted the record, a second `pre_stop` finds none and raises. */
  lemma SecondPreStopRaises(kv: Store.KV)
    ensures SeedRecordKey !in Store.Delete(kv, SeedRecordKey)
  {
  }

  /** `health`: exit 1 when `getNodeStatus(node.ip)` is None, otherwise 0. */
  method Health(node: Node, results: seq<string>) returns (r: Outcome)
    ensures r == Exit(0) <==> StatusOf(BeforeEnd(results), node.ip) == Some("OK")
    ensures r == Exit(1) <==> StatusOf(BeforeEnd(results), node.ip) == None
  {
    var status := node.service.GetNodeStatus(node.ip, results);
    if status.None? {
      return Exit(1);
    }
    return Exit(0);
  }

  /** `basic_health`: the same decision as `health`. */
  method BasicHealth(node: Node, results: seq<string>) returns (r: Outcome)
    ensures r == Exit(0) <==> StatusOf(BeforeEnd(results), node.ip) == Some("OK")
    ensures r == Exit(1) <==> StatusOf(BeforeEnd(results), node.ip) == None
  {
    var status := node.service.GetNodeStatus(node.ip, results);
    if status.None? {
      return Exit(1);
    }
    return Exit(0);
  }

  /** A healthy node is one that some line of the status output reports Up and Normal. */
  lemma HealthyMeansUpNormal(results: seq<string>, ip: string)
    ensures StatusOf(BeforeEnd(results), ip) == Some("OK") <==>
      exists k :: 0 <= k < |BeforeEnd(results)| && UpNormalLine(BeforeEnd(results)[k], ip)
  {
    StatusOfMeaning(BeforeEnd(results), ip);
  }

  /** The hooks `main` can run. */
  datatype Command = PreStartHook | PreStopHook | HealthHook | BasicHealthHook

  /** The name a hook is invoked by: the name of its Python function. */
  function CommandName(c: Command): string {
    match c
    case PreStartHook => "pre_start"
    case PreStopHook => "pre_stop"
    case HealthHook => "health"
    case BasicHealthHook => "basic_health"
  }

  /** `main`'s choice of hook: `pre_start` without an argument, else the hook the first argument names, if any. */
  function ParseCommand(args: seq<string>): (r: Option<Command>)
    ensures args == [] ==> r == Some(PreStartHook)
    ensures r.Some? && args != [] ==> CommandName(r.value) == args[0]
  {
    if args == [] then Some(PreStartHook)
    else if args[0] == "pre_start" then Some(PreStartHook)
    else if args[0] == "pre_stop" then Some(PreStopHook)
    else if args[0] == "health" then Some(HealthHook)
    else if args[0] == "basic_health" then Some(BasicHealthHook)
    else None
  }

  /** Every hook is reached by its own name, and a name reaches only that hook. */
  lemma ParseCommandName(c: Command, rest: seq<string>)
    ensures ParseCommand([CommandName(c)] + rest) == Some(c)
  {
  }

  /** A first argument that names no hook is rejected. */
  lemma UnknownCommandRejected(args: seq<string>)
    requires args != [] && forall c: Command :: CommandName(c) != args[0]
    ensures ParseCommand(args) == None
  {
    assert CommandName(PreStartHook) != args[0] && CommandName(PreStopHook) != args[0];
    assert CommandName(HealthHook) != args[0] && CommandName(BasicHealthHook) != args[0];
  }

  /**
    `main` after the hook is chosen: runs it on the node. The health hooks
    change nothing; `pre_start` always ends with status 0; `pre_stop` raises
    exactly when no seed is recorded.
   */
  method Run(c: Command, node: Node, ping: string -> bool, results: seq<string>) returns (r: Outcome)
    modifies node.kvstore`kv, node.service`seeds, node.service`config
    ensures c.PreStartHook? ==>
      && r == Exit(0)
      && node.service.seeds == [Store.Get(old(node.kvstore.kv), SeedRecordKey)]
      && (SeedRecordKey !in old(node.kvstore.kv) ==>
            node.kvstore.kv == Store.Put(old(node.kvstore.kv), SeedRecordKey, node.ip))
      && (SeedRecordKey in old(node.kvstore.kv) ==> node.kvstore.kv == old(node.kvstore.kv))
      && node.service.config ==
           CassandraConfig.UpdatedText(old(node.service.config), node.service.seeds, node.service.clustername, Some(node.ip))
    ensures c.PreStopHook? ==> (r == Raised(TypeError) <==> SeedRecordKey !in old(node.kvstore.kv))
    ensures c.PreStopHook? ==> (r == Exit(0) <==> SeedRecordKey in old(node.kvstore.kv))
    ensures c.PreStopHook? ==> unchanged(node.service)
    ensures c.PreStopHook? && SeedRecordKey !in old(node.kvstore.kv) ==> node.kvstore.kv == old(node.kvstore.kv)
    ensures c.PreStopHook? && SeedRecordKey in old(node.kvstore.kv) ==>
      var rec := old(node.kvstore.kv)[SeedRecordKey].value;
      && (IsSubstring(node.ip, rec) || !ping(rec) ==> node.kvstore.kv == Store.Delete(old(node.kvstore.kv), SeedRecordKey))
      && (!IsSubstring(node.ip, rec) && ping(rec) ==> node.kvstore.kv == old(node.kvstore.kv))
    ensures c.HealthHook? || c.BasicHealthHook? ==>
      && (r == Exit(1) <==> StatusOf(BeforeEnd(results), node.ip).None?)
      && (r == Exit(0) <==> StatusOf(BeforeEnd(results), node.ip).Some?)
      && unchanged(node.kvstore, node.service)
  {
    match c
    case PreStartHook =>
      var code := PreStart(node);
      r := Exit(code);
    case PreStopHook =>
      r := PreStop(node, ping);
    case HealthHook =>
      r := Health(node, results);
    case BasicHealthHook =>
      r := BasicHealth(node, results);
  }

  /**
    The environment `main` builds the Consul client from: without an
    argument only `CONSUL` (default 'consul') is passed on; with one, the
    whole process environment.
   */
  function ClientEnvs(args: seq<string>, osEnv: map<string, string>): (envs: map<string, string>)
    ensures args == [] ==> envs.Keys == {"CONSUL"}
    ensures args != [] ==> envs == osEnv
  {
    if args == [] then map["CONSUL" := if "CONSUL" in osEnv then osEnv["CONSUL"] else "consul"]
    else osEnv
  }

  /** Without an argument `CONSUL_AGENT` is ignored: the host is the cleaned `CONSUL` setting, or 'consul'. */
  lemma NoArgumentIgnoresAgent(osEnv: map<string, string>)
    ensures ConsulHost(ClientEnvs([], osEnv), osEnv)
         == Ok(Clean(if "CONSUL" in osEnv then osEnv["CONSUL"] else "consul", osEnv))
  {
    var envs := ClientEnvs([], osEnv);
    assert "CONSUL_AGENT" !in envs;
    ConsulHostChoice(envs, osEnv);
  }
}
