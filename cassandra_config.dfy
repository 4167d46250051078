/**
  The text transform inside `CassandraService.update_config`
  (`bin/manager/libcassandra.py`): a chain of `re.sub` calls over the text of
  `cassandra.yaml`, with `auto_bootstrap: false` appended when the node joins
  an existing seed.

  None of the five patterns can match a line break (`.` and `[\d|\.]` do not
  match one, the other parts are fixed text), so every substitution is applied
  line by line: the text is split on '\n', each line is rewritten and the
  lines are joined again. Within a line, `Sub` scans left to right as `re.sub`
  does: at each position it tries the pattern, replaces a match and continues
  after it, or keeps the character and moves on.
 */
module CassandraConfig {
  import opened Wrappers
  import opened Strings

  /** The patterns `update_config` substitutes. */
  datatype Pattern =
    | Literal(text: string)  // fixed text, no special characters
    | SeedsEntry             // seeds: "([\d|\.]*)"
    | ClusterNameEntry       // cluster_name: '(.*)'
    | ListenAddressEntry     // listen_address: (.*)

  const SeedsKey: string := "seeds: \""
  const ClusterNameKey: string := "cluster_name: '"
  const ListenAddressKey: string := "listen_address: "
  const SnitchSetting: string := "endpoint_snitch: SimpleSnitch"
  const SnitchClass: string := "GossipingPropertyFileSnitch"
  const SnitchReplacement: string := "endpoint_snitch: '" + SnitchClass + "'"
  const RpcSetting: string := "start_rpc: false"
  const RpcReplacement: string := "start_rpc: true"
  const BootstrapLine: string := "auto_bootstrap: false"

  /** The fixed text every match of the pattern starts with. */
  function Key(p: Pattern): string {
    match p
    case Literal(t) => t
    case SeedsEntry => SeedsKey
    case ClusterNameEntry => ClusterNameKey
    case ListenAddressEntry => ListenAddressKey
  }

  /** `[\d|\.]`: a decimal digit, '|' or '.'. */
  predicate SeedChar(c: char) {
    '0' <= c <= '9' || c == '|' || c == '.'
  }

  /** The length of the longest run of `SeedChar`s that starts `s`. */
  function SeedRun(s: string): (n: nat)
    ensures n <= |s|
    ensures forall k :: 0 <= k < n ==> SeedChar(s[k])
    ensures n < |s| ==> !SeedChar(s[n])
  {
    if s != [] && SeedChar(s[0]) then 1 + SeedRun(s[1..]) else 0
  }

  /** The position of the last `c` in `s`. */
  function LastIndexOf(s: string, c: char): (i: nat)
    requires c in s
    ensures i < |s| && s[i] == c
    ensures forall k :: i < k < |s| ==> s[k] != c
  {
    if s[|s| - 1] == c then |s| - 1
    else
      assert c in s[..|s| - 1] by {
        var k :| 0 <= k < |s| && s[k] == c;
        assert s[..|s| - 1][k] == c;
      }
      LastIndexOf(s[..|s| - 1], c)
  }

  /**
    The length of the match of `p` at the start of `s` (a line or the rest of
    one), None when it does not match there. The greedy `(.*)'` ends at the
    last quote of the line; `(.*)` takes the rest of the line.
   */
  function MatchLen(p: Pattern, s: string): (r: Option<nat>)
    ensures r.Some? ==> Key(p) <= s && |Key(p)| <= r.value <= |s|
  {
    var key := Key(p);
    if !(key <= s) then None
    else
      var rest := s[|key|..];
      match p
      case Literal(_) => Some(|key|)
      case SeedsEntry =>
        var n := SeedRun(rest);
        if n < |rest| && rest[n] == '"' then Some(|key| + n + 1) else None
      case ClusterNameEntry =>
        if '\'' in rest then Some(|key| + LastIndexOf(rest, '\'') + 1) else None
      case ListenAddressEntry => Some(|s|)
  }

  /** `re.sub(p, rep, s)` on one line: every match, left to right and not overlapping, becomes `rep`. */
  function Sub(s: string, p: Pattern, rep: string): (r: string)
    requires Key(p) != []
    ensures Key(p)[0] !in s ==> r == s
    decreases |s|
  {
    if s == [] then []
    else match MatchLen(p, s)
      case Some(n) => rep + Sub(s[n..], p, rep)
      case None =>
        assert Key(p)[0] !in s ==> Key(p)[0] !in s[1..] by {
          assert forall c :: c in s[1..] ==> c in s;
        }
        [s[0]] + Sub(s[1..], p, rep)
  }

  /** The pattern matches nowhere in `s`. */
  predicate NoMatch(p: Pattern, s: string) {
    forall k :: 0 <= k < |s| ==> MatchLen(p, s[k..]).None?
  }

  /** Text in which the pattern matches nowhere is left unchanged. */
  lemma {:induction false} SubNoMatch(s: string, p: Pattern, rep: string)
    requires Key(p) != [] && NoMatch(p, s)
    ensures Sub(s, p, rep) == s
    decreases |s|
  {
    if s != [] {
      assert MatchLen(p, s[0..]).None?;
      assert s[0..] == s;
      forall k | 0 <= k < |s[1..]| ensures MatchLen(p, s[1..][k..]).None? {
        assert s[1..][k..] == s[k + 1..];
      }
      SubNoMatch(s[1..], p, rep);
    }
  }

  /** A line lacking some character of the pattern's fixed text holds no match. */
  lemma KeyCharAbsent(s: string, p: Pattern, c: char)
    requires c in Key(p) && c !in s
    ensures NoMatch(p, s)
  {
    forall k | 0 <= k < |s| ensures MatchLen(p, s[k..]).None? {
    }
  }

  /** Where the pattern does not match, the first character is kept and the scan moves on. */
  lemma SubSkipsChar(t: string, p: Pattern, rep: string)
    requires Key(p) != [] && t != [] && t[0] != Key(p)[0]
    ensures Sub(t, p, rep) == [t[0]] + Sub(t[1..], p, rep)
  {
    assert !(Key(p) <= t);
  }

  /** Leading text in which no match can start (its characters differ from the key's first) is copied. */
  lemma {:induction false} SubSkipsLead(w: string, s: string, p: Pattern, rep: string)
    requires Key(p) != []
    requires forall k :: 0 <= k < |w| ==> w[k] != Key(p)[0]
    ensures Sub(w + s, p, rep) == w + Sub(s, p, rep)
    decreases |w|
  {
    if w == [] {
      assert w + s == s;
    } else {
      SubSkipsFirst(w, s, p, rep);
      LeadTail(w, Key(p)[0]);
      SubSkipsLead(w[1..], s, p, rep);
      ConsAssociates(w, Sub(s, p, rep));
    }
  }

  /** A lead without the character `c` still lacks it once its first character is dropped. */
  lemma LeadTail(w: string, c: char)
    requires w != [] && forall k :: 0 <= k < |w| ==> w[k] != c
    ensures forall k :: 0 <= k < |w[1..]| ==> w[1..][k] != c
  {
  }

  /** The first character, then the rest followed by `v`: the whole string followed by `v`. */
  lemma ConsAssociates(w: string, v: string)
    requires w != []
    ensures [w[0]] + (w[1..] + v) == w + v
  {
    assert [w[0]] + w[1..] == w;
  }

  /** The first character of a lead in which no match can start is copied. */
  lemma SubSkipsFirst(w: string, s: string, p: Pattern, rep: string)
    requires Key(p) != [] && w != [] && w[0] != Key(p)[0]
    ensures Sub(w + s, p, rep) == [w[0]] + Sub(w[1..] + s, p, rep)
  {
    var t := w + s;
    assert t[0] == w[0] && t[1..] == w[1..] + s;
    SubSkipsChar(t, p, rep);
  }

  /** A match that covers the whole of `m` is replaced and the scan resumes after it. */
  lemma SubAtMatch(m: string, s: string, p: Pattern, rep: string)
    requires Key(p) != [] && m != []
    requires MatchLen(p, m + s) == Some(|m|)
    ensures Sub(m + s, p, rep) == rep + Sub(s, p, rep)
  {
    assert (m + s)[|m|..] == s;
  }

  /** `seeds: "<digits and dots>"` matches up to and including the closing quote. */
  lemma SeedsEntryMatch(d: string, s: string)
    requires forall k :: 0 <= k < |d| ==> SeedChar(d[k])
    ensures MatchLen(SeedsEntry, SeedsKey + d + "\"" + s) == Some(|SeedsKey| + |d| + 1)
  {
    var t := SeedsKey + d + "\"" + s;
    assert SeedsKey <= t;
    var rest := t[|SeedsKey|..];
    assert rest == d + "\"" + s;
    SeedRunStops(d, "\"" + s);
    assert rest[|d|] == '"';
  }

  /** The run of seed characters stops where they stop. */
  lemma {:induction false} SeedRunStops(d: string, s: string)
    requires forall k :: 0 <= k < |d| ==> SeedChar(d[k])
    requires s != [] && !SeedChar(s[0])
    ensures SeedRun(d + s) == |d|
    decreases |d|
  {
    if d == [] {
      assert d + s == s;
    } else {
      assert (d + s)[0] == d[0];
      assert (d + s)[1..] == d[1..] + s;
      SeedRunStops(d[1..], s);
    }
  }

  /** An indented `seeds: "<digits and dots>"` line becomes the indentation and the replacement. */
  lemma SeedsLineRewritten(w: string, d: string, rep: string)
    requires forall k :: 0 <= k < |w| ==> w[k] == ' ' || w[k] == '-'
    requires forall k :: 0 <= k < |d| ==> SeedChar(d[k])
    ensures Sub(w + SeedsKey + d + "\"", SeedsEntry, rep) == w + rep
  {
    var m := SeedsKey + d + "\"";
    SeedsEntryRewritten(d, rep);
    assert Key(SeedsEntry)[0] == 's';
    ConcatAssociates(w, SeedsKey, d, "\"");
    SubSkipsLead(w, m, SeedsEntry, rep);
  }

  /** A `seeds: "<digits and dots>"` entry on its own is replaced whole. */
  lemma SeedsEntryRewritten(d: string, rep: string)
    requires forall k :: 0 <= k < |d| ==> SeedChar(d[k])
    ensures Sub(SeedsKey + d + "\"", SeedsEntry, rep) == rep
  {
    var m := SeedsKey + d + "\"";
    SeedsEntryMatch(d, "");
    assert m + "" == m;
    SubAtMatch(m, "", SeedsEntry, rep);
  }

  /** An indented `cluster_name: '...'` line becomes the indentation and the replacement, whatever the old name. */
  lemma ClusterNameLineRewritten(w: string, v: string, rep: string)
    requires forall k :: 0 <= k < |w| ==> w[k] != 'c'
    ensures Sub(w + ClusterNameKey + v + "'", ClusterNameEntry, rep) == w + rep
  {
    var m := ClusterNameKey + v + "'";
    assert ClusterNameKey <= m && m[|ClusterNameKey|..] == v + "'";
    assert LastIndexOf(v + "'", '\'') == |v|;
    assert MatchLen(ClusterNameEntry, m + "") == Some(|m|) by {
      assert m + "" == m;
    }
    assert ClusterNameKey[0] == 'c';
    assert w + ClusterNameKey + v + "'" == w + m;
    SubSkipsLead(w, m, ClusterNameEntry, rep);
    SubAtMatch(m, "", ClusterNameEntry, rep);
  }

  /** An indented `listen_address: ...` line becomes the indentation and the replacement, whatever the old address. */
  lemma ListenAddressLineRewritten(w: string, v: string, rep: string)
    requires forall k :: 0 <= k < |w| ==> w[k] != 'l'
    ensures Sub(w + ListenAddressKey + v, ListenAddressEntry, rep) == w + rep
  {
    var m := ListenAddressKey + v;
    assert ListenAddressKey <= m;
    assert MatchLen(ListenAddressEntry, m + "") == Some(|m|) by {
      assert m + "" == m;
    }
    assert ListenAddressKey[0] == 'l';
    assert w + ListenAddressKey + v == w + m;
    SubSkipsLead(w, m, ListenAddressEntry, rep);
    SubAtMatch(m, "", ListenAddressEntry, rep);
  }

  /** Fixed text after a lead without its first character is replaced, and the rest is scanned on. */
  lemma LiteralRewritten(w: string, t: string, s: string, rep: string)
    requires t != []
    requires forall k :: 0 <= k < |w| ==> w[k] != t[0]
    ensures Sub(w + t + s, Literal(t), rep) == w + rep + Sub(s, Literal(t), rep)
  {
    assert t <= t + s;
    assert w + t + s == w + (t + s);
    SubSkipsLead(w, t + s, Literal(t), rep);
    SubAtMatch(t, s, Literal(t), rep);
  }

  /** `re.sub` over the whole text, line by line. */
  function SubLines(lines: seq<string>, p: Pattern, rep: string): (r: seq<string>)
    requires Key(p) != []
    ensures |r| == |lines|
    ensures forall i :: 0 <= i < |lines| ==> r[i] == Sub(lines[i], p, rep)
  {
    seq(|lines|, i requires 0 <= i < |lines| => Sub(lines[i], p, rep))
  }

  /** The lines of `text + t + "\n"`, given the lines of `text` and a `t` without line breaks. */
  function AppendToText(lines: seq<string>, t: string): (r: seq<string>)
    requires |lines| >= 1
    ensures |r| == |lines| + 1 && r[|lines|] == []
    ensures forall i :: 0 <= i < |lines| - 1 ==> r[i] == lines[i]
    ensures r[|lines| - 1] == lines[|lines| - 1] + t
  {
    lines[..|lines| - 1] + [lines[|lines| - 1] + t, ""]
  }

  /** Every line but the last is kept by `AppendToText`. */
  lemma AppendToTextKeeps(lines: seq<string>, t: string, i: nat)
    requires i < |lines| - 1
    ensures AppendToText(lines, t)[i] == lines[i]
  {
  }

  /** A line of four parts is the same string however its parts are grouped. */
  lemma ConcatAssociates(a: string, b: string, c: string, e: string)
    ensures a + (b + c + e) == a + b + c + e
  {
  }

  /** `AppendToText` is the string append `+=` seen through the lines of the text. */
  lemma {:induction false} AppendToTextJoins(lines: seq<string>, t: string)
    requires |lines| >= 1
    ensures Join(AppendToText(lines, t), '\n') == Join(lines, '\n') + t + "\n"
    decreases |lines|
  {
    if |lines| == 1 {
      assert AppendToText(lines, t) == [lines[0] + t, ""];
    } else {
      var tail := lines[1..];
      AppendToTextJoins(tail, t);
      assert AppendToText(lines, t) == [lines[0]] + AppendToText(tail, t);
      assert AppendToText(lines, t)[1..] == AppendToText(tail, t);
    }
  }

  /** `"".join(seeds)`: the seed addresses run together with no separator. */
  function ConcatSeeds(seeds: seq<Option<string>>): (r: string)
    requires None !in seeds
    ensures seeds == [] ==> r == []
    ensures |seeds| == 1 ==> r == seeds[0].value
  {
    if seeds == [] then [] else seeds[0].value + ConcatSeeds(seeds[1..])
  }

  /** The seed addresses with their joint contribution: concatenation adds lengths. */
  lemma {:induction false} ConcatSeedsAppend(a: seq<Option<string>>, b: seq<Option<string>>)
    requires None !in a && None !in b
    ensures None !in a + b
    ensures ConcatSeeds(a + b) == ConcatSeeds(a) + ConcatSeeds(b)
  {
    if a == [] {
      assert a + b == b;
    } else {
      assert (a + b)[0] == a[0];
      assert (a + b)[1..] == a[1..] + b;
      assert a[0] in a;
      ConcatSeedsAppend(a[1..], b);
    }
  }

  /** The seeds entry as `update_config` writes it: `seeds: "` and the addresses, in quotes. */
  function SeedsSetting(v: string): (r: string)
    ensures SeedsKey <= r && |r| == |SeedsKey| + |v| + 1 && r[|r| - 1] == '"'
  {
    SeedsKey + v + "\""
  }

  /** The cluster-name, snitch and RPC rewrites, which every node applies, as they act on one line. */
  function FixedRewrites(line: string, clustername: string): string {
    var named := Sub(line, ClusterNameEntry, ClusterNameKey + clustername + "'");
    var snitched := Sub(named, Literal(SnitchSetting), SnitchReplacement);
    Sub(snitched, Literal(RpcSetting), RpcReplacement)
  }

  /** The rewrites after the seed step, as they act on one line. */
  function RewriteLine(line: string, clustername: string, myip: Option<string>): string {
    var fixed := FixedRewrites(line, clustername);
    if myip.Some? then Sub(fixed, ListenAddressEntry, ListenAddressKey + myip.value) else fixed
  }

  /** The rewrites `update_config` applies after the seed step, with the optional `listen_address` one. */
  function RewriteSettings(lines: seq<string>, clustername: string, myip: Option<string>): (r: seq<string>)
    ensures |r| == |lines|
  {
    var named := SubLines(lines, ClusterNameEntry, ClusterNameKey + clustername + "'");
    var snitched := SubLines(named, Literal(SnitchSetting), SnitchReplacement);
    var rpc := SubLines(snitched, Literal(RpcSetting), RpcReplacement);
    if myip.Some? then SubLines(rpc, ListenAddressEntry, ListenAddressKey + myip.value) else rpc
  }

  /**
    The lines of the new `cassandra.yaml`. When no seed is None (the node joins
    an existing seed), the seeds entry is rewritten and one line
    `auto_bootstrap: false` is appended; then the cluster name, snitch and RPC
    settings are rewritten, and the listen address when an IP is given.
   */
  function UpdatedLines(lines: seq<string>, seeds: seq<Option<string>>, clustername: string,
                        myip: Option<string>): (r: seq<string>)
    requires |lines| >= 1
    ensures |r| == |lines| + (if None !in seeds then 1 else 0)
  {
    RewriteSettings(SeedStep(lines, seeds), clustername, myip)
  }

  /**
    The first step of `update_config`: when no seed is None, the seeds entry
    is rewritten and `auto_bootstrap: false` is appended; otherwise the lines
    are kept.
   */
  function SeedStep(lines: seq<string>, seeds: seq<Option<string>>): (r: seq<string>)
    requires |lines| >= 1
    ensures |r| == |lines| + (if None !in seeds then 1 else 0)
    ensures None in seeds ==> r == lines
  {
    if None !in seeds then
      AppendToText(SubLines(lines, SeedsEntry, SeedsSetting(ConcatSeeds(seeds))), BootstrapLine)
    else lines
  }

  /** The new text of `cassandra.yaml`; a joining node's file ends with a line break. */
  function UpdatedText(text: string, seeds: seq<Option<string>>, clustername: string,
                       myip: Option<string>): (r: string)
    ensures None !in seeds ==> r != [] && r[|r| - 1] == '\n'
  {
    var lines := Split(text, '\n');
    var updated := UpdatedLines(lines, seeds, clustername, myip);
    assert None !in seeds ==> |updated| >= 2 && updated[|updated| - 1] == [] by {
      if None !in seeds {
        var seeded := SeedStep(lines, seeds);
        assert seeded[|lines|] == [];
        RewriteSettingsKeeps(seeded, clustername, myip, |lines|);
      }
    }
    assert None !in seeds ==> Join(updated, '\n') != [] && Join(updated, '\n')[|Join(updated, '\n')| - 1] == '\n' by {
      if None !in seeds { JoinEndsWithSep(updated, '\n'); }
    }
    Join(updated, '\n')
  }

  /** A line in which none of the five patterns matches goes through every step unchanged. */
  predicate Untouched(line: string) {
    && NoMatch(SeedsEntry, line)
    && NoMatch(ClusterNameEntry, line)
    && NoMatch(Literal(SnitchSetting), line)
    && NoMatch(Literal(RpcSetting), line)
    && NoMatch(ListenAddressEntry, line)
  }

  lemma RewriteSettingsKeeps(lines: seq<string>, clustername: string, myip: Option<string>, i: nat)
    requires i < |lines|
    requires NoMatch(ClusterNameEntry, lines[i]) && NoMatch(Literal(SnitchSetting), lines[i])
    requires NoMatch(Literal(RpcSetting), lines[i]) && NoMatch(ListenAddressEntry, lines[i])
    ensures RewriteSettings(lines, clustername, myip)[i] == lines[i]
  {
    var line := lines[i];
    SubNoMatch(line, ClusterNameEntry, ClusterNameKey + clustername + "'");
    SubNoMatch(line, Literal(SnitchSetting), SnitchReplacement);
    SubNoMatch(line, Literal(RpcSetting), RpcReplacement);
    if myip.Some? {
      SubNoMatch(line, ListenAddressEntry, ListenAddressKey + myip.value);
    }
  }

  /**
    Text matching none of the patterns is unchanged: such a line keeps its
    place and content (the last line excepted when the bootstrap setting is
    appended to it).
   */
  lemma UntouchedLineKept(lines: seq<string>, seeds: seq<Option<string>>, clustername: string,
                          myip: Option<string>, i: nat)
    requires |lines| >= 1 && i < |lines| && Untouched(lines[i])
    requires None !in seeds ==> i < |lines| - 1
    ensures UpdatedLines(lines, seeds, clustername, myip)[i] == lines[i]
  {
    if None !in seeds {
      var rep := SeedsSetting(ConcatSeeds(seeds));
      var subbed := SubLines(lines, SeedsEntry, rep);
      SubNoMatch(lines[i], SeedsEntry, rep);
      var seeded := AppendToText(subbed, BootstrapLine);
      assert seeded[i] == subbed[i];
      RewriteSettingsKeeps(seeded, clustername, myip, i);
    } else {
      RewriteSettingsKeeps(lines, clustername, myip, i);
    }
  }

  /** The characters the key-character argument relies on. */
  lemma KeyCharacters()
    ensures SeedsKey[3] == 'd' && ClusterNameKey[0] == 'c' && SnitchSetting[2] == 'd'
    ensures RpcSetting[8] == 'c' && ListenAddressKey[8] == 'd'
    ensures 'c' !in BootstrapLine && 'd' !in BootstrapLine
  {
  }

  /** The characters that keep a rewritten seeds line clear of the later patterns. */
  lemma SeedsKeyCharacters()
    ensures SnitchSetting[13] == 'c' && ListenAddressKey[0] == 'l'
    ensures 'c' !in SeedsKey && 'l' !in SeedsKey
  {
  }

  /** Each key has a character that `auto_bootstrap: false` lacks. */
  lemma BootstrapLineUntouched()
    ensures Untouched(BootstrapLine)
  {
    KeyCharacters();
    KeyCharAbsent(BootstrapLine, SeedsEntry, 'd');
    KeyCharAbsent(BootstrapLine, ClusterNameEntry, 'c');
    KeyCharAbsent(BootstrapLine, Literal(SnitchSetting), 'd');
    KeyCharAbsent(BootstrapLine, Literal(RpcSetting), 'c');
    KeyCharAbsent(BootstrapLine, ListenAddressEntry, 'd');
  }

  /**
    A node joining an existing seed gets `auto_bootstrap: false` as a line of
    its own, when the file ended with a line break; a seed node gets no new line.
   */
  lemma BootstrapAppendedWhenJoining(lines: seq<string>, seeds: seq<Option<string>>, clustername: string,
                                     myip: Option<string>)
    requires |lines| >= 1 && lines[|lines| - 1] == ""
    ensures var r := UpdatedLines(lines, seeds, clustername, myip);
      None !in seeds ==> r[|lines| - 1] == BootstrapLine && r[|lines|] == ""
  {
    if None !in seeds {
      var seeded := SeedStep(lines, seeds);
      SeedStepLastLines(lines, seeds);
      BootstrapLineUntouched();
      RewriteSettingsKeeps(seeded, clustername, myip, |lines| - 1);
      RewriteSettingsKeeps(seeded, clustername, myip, |lines|);
    }
  }

  /** The seed step of a joining node turns a final empty line into the bootstrap line and a new empty one. */
  lemma SeedStepLastLines(lines: seq<string>, seeds: seq<Option<string>>)
    requires |lines| >= 1 && lines[|lines| - 1] == "" && None !in seeds
    ensures SeedStep(lines, seeds)[|lines| - 1] == BootstrapLine && SeedStep(lines, seeds)[|lines|] == ""
  {
    var rep := SeedsSetting(ConcatSeeds(seeds));
    var subbed := SubLines(lines, SeedsEntry, rep);
    assert subbed[|lines| - 1] == Sub("", SeedsEntry, rep) == "";
    var seeded := AppendToText(subbed, BootstrapLine);
    assert seeded[|lines| - 1] == "" + BootstrapLine == BootstrapLine;
  }

  /** An address made of digits, dots and bars, as the seeds entry pattern accepts. */
  predicate SeedAddress(v: string) {
    forall k :: 0 <= k < |v| ==> SeedChar(v[k])
  }

  /** YAML indentation: spaces and list dashes. */
  predicate Indentation(w: string) {
    forall k :: 0 <= k < |w| ==> w[k] == ' ' || w[k] == '-'
  }

  /** Seed addresses run together are still such an address. */
  lemma {:induction false} ConcatSeedsAddress(seeds: seq<Option<string>>)
    requires None !in seeds
    requires forall j :: 0 <= j < |seeds| ==> SeedAddress(seeds[j].value)
    ensures SeedAddress(ConcatSeeds(seeds))
  {
    if seeds != [] {
      var rest := seeds[1..];
      assert forall j :: 0 <= j < |rest| ==> rest[j] == seeds[j + 1];
      ConcatSeedsAddress(rest);
      var v := seeds[0].value;
      var r := ConcatSeeds(rest);
      assert SeedAddress(v);
      forall k | 0 <= k < |v + r| ensures SeedChar((v + r)[k]) {
        if k >= |v| {
          assert (v + r)[k] == r[k - |v|];
        }
      }
    }
  }

  /** A seeds line holds neither 'c' nor 'l'. */
  lemma SeedsLineCharacters(w: string, v: string)
    requires Indentation(w) && SeedAddress(v)
    ensures var x := w + SeedsKey + v + "\"";
      'c' !in x && 'l' !in x
  {
    SeedsKeyCharacters();
    var x := w + SeedsKey + v + "\"";
    forall k | 0 <= k < |x| ensures x[k] != 'c' && x[k] != 'l' {
      if k < |w| {
        assert x[k] == w[k];
      } else if k < |w| + |SeedsKey| {
        assert x[k] == SeedsKey[k - |w|];
      } else if k < |w| + |SeedsKey| + |v| {
        assert x[k] == v[k - |w| - |SeedsKey|];
      }
    }
  }

  /** A line with neither 'c' nor 'l' holds no match of the patterns applied after the seed step. */
  lemma ClearOfSettings(x: string)
    requires 'c' !in x && 'l' !in x
    ensures NoMatch(ClusterNameEntry, x) && NoMatch(Literal(SnitchSetting), x)
    ensures NoMatch(Literal(RpcSetting), x) && NoMatch(ListenAddressEntry, x)
  {
    SeedsKeyCharacters();
    KeyCharacters();
    KeyCharAbsent(x, ClusterNameEntry, 'c');
    KeyCharAbsent(x, Literal(SnitchSetting), 'c');
    KeyCharAbsent(x, Literal(RpcSetting), 'c');
    KeyCharAbsent(x, ListenAddressEntry, 'l');
  }

  /**
    Line `i`, not the last, is an indented `seeds: "<address>"` entry, and the
    node joins seeds whose addresses are made of digits and dots.
   */
  predicate SeedsLineAt(lines: seq<string>, seeds: seq<Option<string>>, i: nat, w: string, d: string) {
    && |lines| >= 1 && i < |lines| - 1
    && None !in seeds && (forall j :: 0 <= j < |seeds| ==> SeedAddress(seeds[j].value))
    && Indentation(w) && SeedAddress(d)
    && lines[i] == w + SeedsSetting(d)
  }

  /**
    When the node joins, an indented `seeds: "<address>"` line of the file
    ends up holding the seed addresses run together, provided the addresses
    are made of digits and dots.
   */
  lemma SeedsLineUpdated(lines: seq<string>, seeds: seq<Option<string>>, clustername: string,
                         myip: Option<string>, i: nat, w: string, d: string)
    requires SeedsLineAt(lines, seeds, i, w, d)
    ensures UpdatedLines(lines, seeds, clustername, myip)[i] == w + SeedsSetting(ConcatSeeds(seeds))
  {
    SeedStepLine(lines, seeds, i, w, d);
    SettingsKeepClearLine(SeedStep(lines, seeds), clustername, myip, i);
  }

  /** A line with neither 'c' nor 'l' passes the steps after the seed step unchanged. */
  lemma SettingsKeepClearLine(lines: seq<string>, clustername: string, myip: Option<string>, i: nat)
    requires i < |lines| && 'c' !in lines[i] && 'l' !in lines[i]
    ensures RewriteSettings(lines, clustername, myip)[i] == lines[i]
  {
    ClearOfSettings(lines[i]);
    RewriteSettingsKeeps(lines, clustername, myip, i);
  }

  /** The seed step alone: the seeds line holds the new addresses and no character of the later keys. */
  lemma SeedStepLine(lines: seq<string>, seeds: seq<Option<string>>, i: nat, w: string, d: string)
    requires SeedsLineAt(lines, seeds, i, w, d)
    ensures var x := w + SeedsSetting(ConcatSeeds(seeds));
      && SeedStep(lines, seeds)[i] == x
      && 'c' !in x && 'l' !in x
  {
    var rep := SeedsSetting(ConcatSeeds(seeds));
    var subbed := SubLines(lines, SeedsEntry, rep);
    SeedsLineRewritten(w, d, rep);
    ConcatAssociates(w, SeedsKey, d, "\"");
    ConcatAssociates(w, SeedsKey, ConcatSeeds(seeds), "\"");
    ConcatSeedsAddress(seeds);
    SeedsLineCharacters(w, ConcatSeeds(seeds));
    AppendToTextKeeps(subbed, BootstrapLine, i);
  }

  /** For a seed node, a file in which no pattern matches is written back as it was. */
  lemma UntouchedTextKept(text: string, seeds: seq<Option<string>>, clustername: string, myip: Option<string>)
    requires None in seeds
    requires forall j :: 0 <= j < |Split(text, '\n')| ==> Untouched(Split(text, '\n')[j])
    ensures UpdatedText(text, seeds, clustername, myip) == text
  {
    var lines := Split(text, '\n');
    var r := UpdatedLines(lines, seeds, clustername, myip);
    forall j | 0 <= j < |lines| ensures r[j] == lines[j] {
      UntouchedLineKept(lines, seeds, clustername, myip, j);
    }
    assert r == lines;
    JoinSplit(text, '\n');
  }

  /** A `listen_address` rewrite happens only with an IP, as the last step. */
  lemma ListenAddressOnlyWithIp(lines: seq<string>, seeds: seq<Option<string>>, clustername: string, ip: string)
    requires |lines| >= 1
    ensures UpdatedLines(lines, seeds, clustername, Some(ip))
         == SubLines(UpdatedLines(lines, seeds, clustername, None), ListenAddressEntry, ListenAddressKey + ip)
  {
  }

  /** Each line is rewritten on its own by the steps after the seed step. */
  lemma RewriteSettingsAt(lines: seq<string>, clustername: string, myip: Option<string>, i: nat)
    requires i < |lines|
    ensures RewriteSettings(lines, clustername, myip)[i] == RewriteLine(lines[i], clustername, myip)
  {
  }

  /** The characters of the keys that the setting lines are told apart by. */
  lemma KeyMarks()
    ensures SeedsKey[7] == '"' && ClusterNameKey[14] == '\'' && SnitchSetting[3] == 'p'
    ensures RpcSetting[7] == 'p' && RpcSetting[11] == 'f' && ListenAddressKey[7] == 'a'
  {
  }

  /** Characters the cluster-name key lacks. */
  lemma ClusterNameKeyLacks()
    ensures 'd' !in ClusterNameKey && 'p' !in ClusterNameKey
  {
  }

  /** Characters the snitch setting and its replacement lack. */
  lemma SnitchLacks()
    ensures '"' !in SnitchSetting && '\'' !in SnitchSetting
    ensures 'f' !in SnitchReplacement && 'a' !in SnitchReplacement
  {
    SnitchReplacementLacks('f');
    SnitchReplacementLacks('a');
  }

  lemma SnitchReplacementLacks(c: char)
    requires c == 'f' || c == 'a'
    ensures c !in SnitchReplacement
  {
    assert c !in "endpoint_snitch: '";
    assert c !in SnitchClass;
    AbsentFromParts(c, "endpoint_snitch: '", SnitchClass, "'");
  }

  /** A character absent from three strings is absent from their concatenation. */
  lemma AbsentFromParts(c: char, a: string, b: string, e: string)
    requires c !in a && c !in b && c !in e
    ensures c !in a + b + e
  {
  }

  /** Characters the RPC setting and its replacement lack. */
  lemma RpcLacks()
    ensures '"' !in RpcSetting && '\'' !in RpcSetting && 'd' !in RpcSetting && 'd' !in RpcReplacement
  {
  }

  /** Characters the listen-address key lacks. */
  lemma ListenAddressKeyLacks()
    ensures '"' !in ListenAddressKey && '\'' !in ListenAddressKey && 'p' !in ListenAddressKey
  {
  }

  /** An indented line lacks every character that is neither a space nor a dash and that its text lacks. */
  lemma IndentedLacks(c: char, w: string, a: string)
    requires Indentation(w) && c != ' ' && c != '-' && c !in a
    ensures c !in w + a
  {
  }

  /** The same for a line whose text comes in three parts. */
  lemma IndentedLacks3(c: char, w: string, a: string, b: string, e: string)
    requires Indentation(w) && c != ' ' && c != '-' && c !in a && c !in b && c !in e
    ensures c !in w + a + b + e
  {
  }

  /** A line lacking some character of a pattern's fixed text is left unchanged by that `re.sub`. */
  lemma SubKeepsWithout(x: string, p: Pattern, rep: string, c: char)
    requires c in Key(p) && c !in x
    ensures Sub(x, p, rep) == x
  {
    KeyCharAbsent(x, p, c);
    SubNoMatch(x, p, rep);
  }

  /** The seed step keeps a line in which the seeds pattern does not match (the last one only for a seed node). */
  lemma SeedStepKeeps(lines: seq<string>, seeds: seq<Option<string>>, i: nat)
    requires i < |lines| && NoMatch(SeedsEntry, lines[i])
    requires None !in seeds ==> i < |lines| - 1
    ensures SeedStep(lines, seeds)[i] == lines[i]
  {
    if None !in seeds {
      var rep := SeedsSetting(ConcatSeeds(seeds));
      var subbed := SubLines(lines, SeedsEntry, rep);
      SubNoMatch(lines[i], SeedsEntry, rep);
      assert AppendToText(subbed, BootstrapLine)[i] == subbed[i];
    }
  }

  /** A seed node writes its `seeds:` line back unchanged. */
  lemma SeedNodeKeepsSeedsLine(lines: seq<string>, seeds: seq<Option<string>>, clustername: string,
                               myip: Option<string>, i: nat, w: string, d: string)
    requires |lines| >= 1 && i < |lines| && None in seeds
    requires Indentation(w) && SeedAddress(d) && lines[i] == w + SeedsSetting(d)
    ensures UpdatedLines(lines, seeds, clustername, myip)[i] == lines[i]
  {
    SeedsLineCharacters(w, d);
    ConcatAssociates(w, SeedsKey, d, "\"");
    SettingsKeepClearLine(lines, clustername, myip, i);
  }

  /** The later rewrites give an indented `cluster_name: '...'` line the node's cluster name. */
  lemma ClusterNameLineSettled(w: string, v: string, clustername: string, myip: Option<string>)
    requires Indentation(w) && 'd' !in clustername && 'p' !in clustername
    ensures RewriteLine(w + ClusterNameKey + v + "'", clustername, myip) == w + ClusterNameKey + clustername + "'"
  {
    var rep := ClusterNameKey + clustername + "'";
    ClusterNameLineRewritten(w, v, rep);
    var x := w + rep;
    assert x == w + ClusterNameKey + clustername + "'";
    KeyCharacters();
    KeyMarks();
    ClusterNameKeyLacks();
    IndentedLacks3('d', w, ClusterNameKey, clustername, "'");
    IndentedLacks3('p', w, ClusterNameKey, clustername, "'");
    SubKeepsWithout(x, Literal(SnitchSetting), SnitchReplacement, 'd');
    SubKeepsWithout(x, Literal(RpcSetting), RpcReplacement, 'p');
    if myip.Some? {
      SubKeepsWithout(x, ListenAddressEntry, ListenAddressKey + myip.value, 'd');
    }
  }

  /**
    Every node writes its cluster name into an indented `cluster_name: '...'`
    line (one whose old name has no 'd', for a cluster name without 'd' and 'p').
   */
  lemma ClusterNameLineUpdated(lines: seq<string>, seeds: seq<Option<string>>, clustername: string,
                               myip: Option<string>, i: nat, w: string, v: string)
    requires |lines| >= 1 && i < |lines| && (None !in seeds ==> i < |lines| - 1)
    requires Indentation(w) && 'd' !in v && lines[i] == w + ClusterNameKey + v + "'"
    requires 'd' !in clustername && 'p' !in clustername
    ensures UpdatedLines(lines, seeds, clustername, myip)[i] == w + ClusterNameKey + clustername + "'"
  {
    KeyCharacters();
    ClusterNameKeyLacks();
    IndentedLacks3('d', w, ClusterNameKey, v, "'");
    KeyCharAbsent(lines[i], SeedsEntry, 'd');
    SeedStepKeeps(lines, seeds, i);
    RewriteSettingsAt(SeedStep(lines, seeds), clustername, myip, i);
    ClusterNameLineSettled(w, v, clustername, myip);
  }

  /** The later rewrites turn an indented `endpoint_snitch: SimpleSnitch` line into the gossiping snitch. */
  lemma SnitchLineSettled(w: string, clustername: string, myip: Option<string>)
    requires Indentation(w)
    ensures RewriteLine(w + SnitchSetting, clustername, myip) == w + SnitchReplacement
  {
    KeyMarks();
    SnitchLacks();
    var x := w + SnitchSetting;
    IndentedLacks('\'', w, SnitchSetting);
    SubKeepsWithout(x, ClusterNameEntry, ClusterNameKey + clustername + "'", '\'');
    SnitchRewritten(w);
    var y := w + SnitchReplacement;
    IndentedLacks('f', w, SnitchReplacement);
    IndentedLacks('a', w, SnitchReplacement);
    SubKeepsWithout(y, Literal(RpcSetting), RpcReplacement, 'f');
    if myip.Some? {
      SubKeepsWithout(y, ListenAddressEntry, ListenAddressKey + myip.value, 'a');
    }
  }

  /** The snitch rewrite on an indented snitch line. */
  lemma SnitchRewritten(w: string)
    requires Indentation(w)
    ensures Sub(w + SnitchSetting, Literal(SnitchSetting), SnitchReplacement) == w + SnitchReplacement
  {
    LiteralLineRewritten(w, SnitchSetting, SnitchReplacement);
  }

  /** Fixed text after an indentation without its first character is replaced by `rep`. */
  lemma LiteralLineRewritten(w: string, t: string, rep: string)
    requires t != [] && forall k :: 0 <= k < |w| ==> w[k] != t[0]
    ensures Sub(w + t, Literal(t), rep) == w + rep
  {
    LiteralRewritten(w, t, [], rep);
    assert w + t + [] == w + t && w + rep + [] == w + rep;
  }

  /** Every node switches an indented `endpoint_snitch: SimpleSnitch` line to the gossiping snitch. */
  lemma SnitchLineUpdated(lines: seq<string>, seeds: seq<Option<string>>, clustername: string,
                          myip: Option<string>, i: nat, w: string)
    requires |lines| >= 1 && i < |lines| && (None !in seeds ==> i < |lines| - 1)
    requires Indentation(w) && lines[i] == w + SnitchSetting
    ensures UpdatedLines(lines, seeds, clustername, myip)[i] == w + SnitchReplacement
  {
    KeyMarks();
    SnitchLacks();
    IndentedLacks('"', w, SnitchSetting);
    KeyCharAbsent(lines[i], SeedsEntry, '"');
    SeedStepKeeps(lines, seeds, i);
    RewriteSettingsAt(SeedStep(lines, seeds), clustername, myip, i);
    SnitchLineSettled(w, clustername, myip);
  }

  /** The later rewrites turn an indented `start_rpc: false` line into `start_rpc: true`. */
  lemma RpcLineSettled(w: string, clustername: string, myip: Option<string>)
    requires Indentation(w)
    ensures RewriteLine(w + RpcSetting, clustername, myip) == w + RpcReplacement
  {
    KeyCharacters();
    KeyMarks();
    RpcLacks();
    var x := w + RpcSetting;
    IndentedLacks('\'', w, RpcSetting);
    IndentedLacks('d', w, RpcSetting);
    SubKeepsWithout(x, ClusterNameEntry, ClusterNameKey + clustername + "'", '\'');
    SubKeepsWithout(x, Literal(SnitchSetting), SnitchReplacement, 'd');
    RpcRewritten(w);
    var y := w + RpcReplacement;
    IndentedLacks('d', w, RpcReplacement);
    if myip.Some? {
      SubKeepsWithout(y, ListenAddressEntry, ListenAddressKey + myip.value, 'd');
    }
  }

  /** The RPC rewrite on an indented RPC line. */
  lemma RpcRewritten(w: string)
    requires Indentation(w)
    ensures Sub(w + RpcSetting, Literal(RpcSetting), RpcReplacement) == w + RpcReplacement
  {
    LiteralLineRewritten(w, RpcSetting, RpcReplacement);
  }

  /** Every node turns an indented `start_rpc: false` line into `start_rpc: true`. */
  lemma RpcLineUpdated(lines: seq<string>, seeds: seq<Option<string>>, clustername: string,
                       myip: Option<string>, i: nat, w: string)
    requires |lines| >= 1 && i < |lines| && (None !in seeds ==> i < |lines| - 1)
    requires Indentation(w) && lines[i] == w + RpcSetting
    ensures UpdatedLines(lines, seeds, clustername, myip)[i] == w + RpcReplacement
  {
    KeyMarks();
    RpcLacks();
    IndentedLacks('"', w, RpcSetting);
    KeyCharAbsent(lines[i], SeedsEntry, '"');
    SeedStepKeeps(lines, seeds, i);
    RewriteSettingsAt(SeedStep(lines, seeds), clustername, myip, i);
    RpcLineSettled(w, clustername, myip);
  }

  /** With an IP, the later rewrites put it into an indented `listen_address: ...` line. */
  lemma ListenAddressLineSettled(w: string, v: string, clustername: string, ip: string)
    requires Indentation(w) && '\'' !in v && 'p' !in v
    ensures RewriteLine(w + ListenAddressKey + v, clustername, Some(ip)) == w + ListenAddressKey + ip
  {
    var x := w + ListenAddressKey + v;
    ListenAddressLinePasses(w, v, clustername);
    assert RewriteLine(x, clustername, Some(ip)) == Sub(x, ListenAddressEntry, ListenAddressKey + ip);
    ListenAddressLineRewritten(w, v, ListenAddressKey + ip);
    Regroup(w, ListenAddressKey, ip);
  }

  /** Regrouping a string made of three parts. */
  lemma Regroup(a: string, b: string, c: string)
    ensures a + (b + c) == a + b + c
  {
  }

  /** The rewrites every node applies leave an indented listen-address line alone. */
  lemma ListenAddressLinePasses(w: string, v: string, clustername: string)
    requires Indentation(w) && '\'' !in v && 'p' !in v
    ensures FixedRewrites(w + ListenAddressKey + v, clustername) == w + ListenAddressKey + v
  {
    KeyMarks();
    var x := w + ListenAddressKey + v;
    ListenAddressLineLacks(w, v);
    SubKeepsWithout(x, ClusterNameEntry, ClusterNameKey + clustername + "'", '\'');
    SubKeepsWithout(x, Literal(SnitchSetting), SnitchReplacement, 'p');
    SubKeepsWithout(x, Literal(RpcSetting), RpcReplacement, 'p');
  }

  /** An indented listen-address line whose value has no quote and no 'p' has none at all. */
  lemma ListenAddressLineLacks(w: string, v: string)
    requires Indentation(w) && '\'' !in v && 'p' !in v
    ensures var x := w + ListenAddressKey + v; '\'' !in x && 'p' !in x
  {
    ListenAddressKeyLacks();
    IndentedLacks3('\'', w, ListenAddressKey, v, []);
    IndentedLacks3('p', w, ListenAddressKey, v, []);
    assert w + ListenAddressKey + v + [] == w + ListenAddressKey + v;
  }

  /**
    A node given its IP writes it into an indented `listen_address: ...` line
    (one whose old value has no quote and no 'p').
   */
  lemma ListenAddressLineUpdated(lines: seq<string>, seeds: seq<Option<string>>, clustername: string,
                                 ip: string, i: nat, w: string, v: string)
    requires |lines| >= 1 && i < |lines| && (None !in seeds ==> i < |lines| - 1)
    requires Indentation(w) && '"' !in v && '\'' !in v && 'p' !in v && lines[i] == w + ListenAddressKey + v
    ensures UpdatedLines(lines, seeds, clustername, Some(ip))[i] == w + ListenAddressKey + ip
  {
    KeyMarks();
    ListenAddressKeyLacks();
    IndentedLacks3('"', w, ListenAddressKey, v, []);
    assert lines[i] == w + ListenAddressKey + v + [];
    KeyCharAbsent(lines[i], SeedsEntry, '"');
    SeedStepKeeps(lines, seeds, i);
    RewriteSettingsAt(SeedStep(lines, seeds), clustername, Some(ip), i);
    ListenAddressLineSettled(w, v, clustername, ip);
  }
}
