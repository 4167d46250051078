/**
  `CassandraService` (`bin/manager/libcassandra.py`): the seeds the node was
  given, the cluster name, and the text of `cassandra.yaml`, which
  `update_config` reads and writes back. The file is modelled as a field of
  the object holding its text; the text transform itself is in module
  CassandraConfig. `getNodeStatus` reads the output of `nodetool status`
  line by line; that output is a parameter here.
 */
module LibCassandra {
  import opened Wrappers
  import opened Strings
  import opened CassandraConfig

  /** The default of `CassandraService(clustername=...)`. */
  const DefaultClusterName: string := "MainCluster"

  /** What `set_seeds` is given: a Python list, or any other single value (a seed address or None). */
  datatype SeedArg = SeedList(items: seq<Option<string>>) | SeedValue(value: Option<string>)

  /** The strings run together. */
  function Concat(parts: seq<string>): string {
    if parts == [] then [] else parts[0] + Concat(parts[1..])
  }

  /**
    What `readline()` returns at the start of `s`: everything up to and
    including the first line break, or the rest when there is none; the
    empty string only at the end of the stream.
   */
  function ReadLine(s: string): (line: string)
    ensures line <= s
    ensures line == [] <==> s == []
    ensures forall k :: 0 <= k < |line| - 1 ==> line[k] != '\n'
    ensures |line| < |s| ==> line[|line| - 1] == '\n'
  {
    if '\n' in s then s[..FirstIndexOf(s, '\n') + 1] else s
  }

  /** The non-empty lines successive `readline()` calls return before the end of the stream. */
  function OutputLines(out: string): (lines: seq<string>)
    ensures forall k :: 0 <= k < |lines| ==> lines[k] != []
    decreases |out|
  {
    if out == [] then [] else [ReadLine(out)] + OutputLines(out[|ReadLine(out)|..])
  }

  /** The lines read, run together, are the whole output: nothing is skipped or read twice. */
  lemma {:induction false} OutputLinesCoverOutput(out: string)
    ensures Concat(OutputLines(out)) == out
    decreases |out|
  {
    if out != [] {
      var line := ReadLine(out);
      var rest := out[|line|..];
      OutputLinesStep(out);
      OutputLinesCoverOutput(rest);
      ConcatCons(line, OutputLines(rest));
      PrefixThenRest(line, out);
    }
  }

  /** The first `readline()` result, then the lines read after it. */
  lemma OutputLinesStep(out: string)
    requires out != []
    ensures OutputLines(out) == [ReadLine(out)] + OutputLines(out[|ReadLine(out)|..])
  {
  }

  /** A prefix followed by what comes after it is the whole string. */
  lemma PrefixThenRest(line: string, out: string)
    requires line <= out
    ensures out == line + out[|line|..]
  {
  }

  /** Running together a first part and the others: the first part, then the others run together. */
  lemma ConcatCons(part: string, parts: seq<string>)
    ensures Concat([part] + parts) == part + Concat(parts)
  {
    assert ([part] + parts)[1..] == parts;
  }

  /** No line break before the last character. */
  predicate NoInnerBreak(line: string) {
    forall j :: 0 <= j < |line| - 1 ==> line[j] != '\n'
  }

  /** The last character is a line break. */
  predicate EndsWithBreak(line: string) {
    line != [] && line[|line| - 1] == '\n'
  }

  /** Lines as `readline()` returns them: none holds an inner line break, and all but the last end with one. */
  predicate WellBroken(lines: seq<string>) {
    forall k :: 0 <= k < |lines| ==> NoInnerBreak(lines[k]) && (k < |lines| - 1 ==> EndsWithBreak(lines[k]))
  }

  /** Every line read but the last ends with its line break, and none holds another. */
  lemma {:induction false} OutputLinesAreLines(out: string)
    ensures WellBroken(OutputLines(out))
    decreases |out|
  {
    if out != [] {
      var line := ReadLine(out);
      var rest := out[|line|..];
      OutputLinesStep(out);
      OutputLinesAreLines(rest);
      assert NoInnerBreak(line);
      assert rest != [] ==> EndsWithBreak(line);
      OutputLinesEmpty(rest);
      WellBrokenCons(line, OutputLines(rest));
    }
  }

  /** Nothing is read from an empty stream, and something from any other. */
  lemma OutputLinesEmpty(out: string)
    ensures OutputLines(out) == [] <==> out == []
  {
  }

  /** A line put in front of well-broken lines keeps them well broken when it ends with a break or stands alone. */
  lemma WellBrokenCons(line: string, lines: seq<string>)
    requires NoInnerBreak(line) && (lines != [] ==> EndsWithBreak(line)) && WellBroken(lines)
    ensures WellBroken([line] + lines)
  {
    var all := [line] + lines;
    forall k | 0 <= k < |all| ensures NoInnerBreak(all[k]) && (k < |all| - 1 ==> EndsWithBreak(all[k])) {
      if k > 0 {
        assert all[k] == lines[k - 1];
      }
    }
  }

  /** A `nodetool status` line reporting `ip` Up and Normal: at least four fields split on ' ', the third `ip`, the first "UN". */
  predicate UpNormalLine(line: string, ip: string) {
    var fields := Split(line, ' ');
    |fields| > 3 && fields[2] == ip && fields[0] == "UN"
  }

  /** Two separator-free fields and a rest split into those fields followed by the fields of the rest. */
  lemma TwoFields(a: string, b: string, rest: string)
    requires ' ' !in a && ' ' !in b
    ensures Split(a + [' '] + (b + [' '] + rest), ' ') == [a, b] + Split(rest, ' ')
  {
    SplitCons(a, ' ', b + [' '] + rest);
    SplitCons(b, ' ', rest);
  }

  /**
    `nodetool status` separates the state from the address by two spaces, so
    that the address is the third field: a line in that format for `ip` and
    state UN reports the node Up and Normal.
   */
  lemma UpNormalFormat(state: string, ip: string, rest: string)
    requires state == "UN" && ' ' !in ip
    ensures UpNormalLine(state + [' '] + ([' '] + (ip + [' '] + rest)), ip)
  {
    assert ' ' !in state;
    var tail := ip + [' '] + rest;
    assert [' '] + tail == [] + [' '] + tail;
    TwoFields(state, [], tail);
    SplitCons(ip, ' ', rest);
  }

  /** The answer of `getNodeStatus` over the lines read: "OK" at the first Up/Normal line for `ip`, None when there is none. */
  function StatusOf(lines: seq<string>, ip: string): (r: Option<string>)
    ensures r.None? || r == Some("OK")
  {
    if lines == [] then None
    else if UpNormalLine(lines[0], ip) then Some("OK")
    else StatusOf(lines[1..], ip)
  }

  /** The node is reported "OK" exactly when some line read reports it Up and Normal. */
  lemma {:induction false} StatusOfMeaning(lines: seq<string>, ip: string)
    ensures StatusOf(lines, ip) == Some("OK") <==> exists k :: 0 <= k < |lines| && UpNormalLine(lines[k], ip)
    ensures StatusOf(lines, ip) == None <==> forall k :: 0 <= k < |lines| ==> !UpNormalLine(lines[k], ip)
  {
    if lines != [] {
      StatusOfMeaning(lines[1..], ip);
      assert forall k :: 0 < k < |lines| ==> lines[k] == lines[1..][k - 1];
      if !UpNormalLine(lines[0], ip) && exists k :: 0 <= k < |lines| && UpNormalLine(lines[k], ip) {
        var k :| 0 <= k < |lines| && UpNormalLine(lines[k], ip);
        assert UpNormalLine(lines[1..][k - 1], ip);
      }
    }
  }

  /** The status of the whole output is decided by its first part unless that part has no Up/Normal line. */
  lemma {:induction false} StatusOfAppend(a: seq<string>, b: seq<string>, ip: string)
    ensures StatusOf(a + b, ip) == if StatusOf(a, ip).Some? then Some("OK") else StatusOf(b, ip)
  {
    if a != [] {
      assert (a + b)[0] == a[0];
      assert (a + b)[1..] == a[1..] + b;
      StatusOfAppend(a[1..], b, ip);
    } else {
      assert a + b == b;
    }
  }

  /** The lines read before the stream ends: up to the first empty string, which `readline()` returns only at the end. */
  function BeforeEnd(results: seq<string>): (lines: seq<string>)
    ensures lines <= results && [] !in lines
    ensures |lines| < |results| ==> results[|lines|] == []
  {
    if results == [] || results[0] == [] then []
    else
      var rest := BeforeEnd(results[1..]);
      assert forall k :: 0 <= k < |rest| ==> ([results[0]] + rest)[k + 1] == rest[k];
      [results[0]] + rest
  }

  /** A line that is not the end of the stream is followed by what is read after it. */
  lemma BeforeEndStep(results: seq<string>, i: nat)
    requires i < |results| && results[i] != []
    ensures BeforeEnd(results[i..]) == [results[i]] + BeforeEnd(results[i + 1..])
  {
    assert results[i..][1..] == results[i + 1..];
  }

  /** The results before the first empty string are exactly those up to it. */
  lemma {:induction false} BeforeEndStops(results: seq<string>, n: nat)
    requires n <= |results| && (forall k :: 0 <= k < n ==> results[k] != [])
    requires n < |results| ==> results[n] == []
    ensures BeforeEnd(results) == results[..n]
  {
    if n > 0 {
      var rest := results[1..];
      assert forall k :: 0 <= k < n - 1 ==> rest[k] == results[k + 1];
      assert n - 1 < |rest| ==> rest[n - 1] == results[n];
      BeforeEndStops(rest, n - 1);
      assert results[0] != [];
      assert results[..n] == [results[0]] + rest[..n - 1];
    } else if results != [] {
      assert results[0] == [];
    }
  }

  /** Reading the lines of a stream and then the end yields those lines and nothing more. */
  lemma OutputLinesReadToEnd(out: string)
    ensures BeforeEnd(OutputLines(out) + [[]]) == OutputLines(out)
  {
    var lines := OutputLines(out);
    BeforeEndStops(lines + [[]], |lines|);
    assert (lines + [[]])[..|lines|] == lines;
  }

  class CassandraService {
    var seeds: seq<Option<string>>
    var clustername: string
    /** The text of `/etc/cassandra/cassandra.yaml`. */
    var config: string

    /** `CassandraService(clustername)`: no seeds yet; the cluster name defaults to `MainCluster`. */
    constructor (config: string, clustername: string := DefaultClusterName)
      ensures seeds == [] && this.clustername == clustername && this.config == config
    {
      seeds := [];
      this.clustername := clustername;
      this.config := config;
    }

    /** `set_seeds`: a list extends the seeds, any other value replaces them with a list of that one value. */
    method SetSeeds(arg: SeedArg)
      modifies this`seeds
      ensures arg.SeedList? ==> seeds == old(seeds) + arg.items
      ensures arg.SeedValue? ==> seeds == [arg.value]
    {
      match arg
      case SeedList(items) => seeds := seeds + items;
      case SeedValue(v) => seeds := [v];
    }

    /** `update_config(myip)`: the file is read, rewritten and written back. */
    method UpdateConfig(myip: Option<string>)
      modifies this`config
      ensures config == UpdatedText(old(config), seeds, clustername, myip)
    {
      config := UpdatedText(config, seeds, clustername, myip);
    }

    /**
      `getNodeStatus(ip)`: reads `nodetool status` a line at a time until the
      stream ends, answering "OK" as soon as a line reports `ip` Up/Normal.
      `results` are the strings successive `readline()` calls return; past its
      end `readline()` returns the empty string.
     */
    method GetNodeStatus(ip: string, results: seq<string>) returns (status: Option<string>)
      ensures status == StatusOf(BeforeEnd(results), ip)
    {
      var i: nat := 0;
      assert results[i..] == results;
      while true
        invariant i <= |results|
        invariant StatusOf(BeforeEnd(results), ip) == StatusOf(BeforeEnd(results[i..]), ip)
        decreases |results| - i
      {
        var line := if i < |results| then results[i] else "";
        if line != "" {
          BeforeEndStep(results, i);
          var fields := Split(line, ' ');
          if |fields| > 3 {
            if fields[2] == ip {
              if fields[0] == "UN" {
                return Some("OK");
              }
            }
          }
        }
        if line == [] {
          break;
        }
        i := i + 1;
      }
      status := None;
    }
  }
}
