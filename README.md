# Cassandra autopilot: seed election and node hooks, modelled in Dafny

Identical Cassandra containers organise themselves into one cluster through
Consul. The first node to start records its IP under the Consul key
`cassandra_seeds` and becomes the seed. A node that starts later reads that
record and configures itself to join the recorded seed. A node that stops
deletes the record if the record names it, or if the recorded host no longer
answers a ping. ContainerPilot calls these steps as hooks (`pre_start`,
`pre_stop`, `health`, `basic_health`) of `bin/manage.py`, and the hooks build
on three pieces:

- `bin/manager/utils.py`: `env` reads a setting, dropping comments, trimming
  white space and expanding `$VAR` references. `to_flag` reads a setting as a
  boolean.
- `bin/manager/libconsul.py`: the `Consul` wrapper. It offers key-value reads
  and writes, sessions cached in a local file, and advisory locks.
- `bin/manager/libcassandra.py`: `CassandraService`. It holds the seed list,
  rewrites `cassandra.yaml` with regular-expression substitutions, and reads
  `nodetool status` to decide whether the node is Up and Normal.

The project is organised as follows:

| file | module | contents |
|---|---|---|
| `wrappers.dfy` | `Wrappers` | `Option`, `Result` and the Python exceptions that can escape (`ValueError`, `TypeError`, `KeyError`) |
| `strings.dfy` | `Strings` | Python's `strip`, `lower`, `split`, `join` and substring test on `string` |
| `utils.dfy` | `Utils` | `int()` on strings, `to_flag`, `os.path.expandvars` and `env` |
| `store.dfy` | `Store` | the Consul key-value store as a value: get, put, delete, acquire, release |
| `libconsul.dfy` | `LibConsul` | class `Consul`, with the store, the server's sessions and the local files as fields |
| `cassandra_config.dfy` | `CassandraConfig` | the text transform of `update_config`, line by line |
| `libcassandra.dfy` | `LibCassandra` | class `CassandraService`, whose `getNodeStatus` is a loop over the lines read |
| `manage.dfy` | `Manage` | `Node`, the four hooks, and `main`'s choice of hook |

The model covers the following parts of the system's environment:

- **Consul server.** The store is a `map` from key to entry (value, holding
  session). A `Consul` object holds it as a field that `put`, `delete`,
  `lock` and `unlock` reassign.
- **Lock semantics.** The server's rules for `acquire=`/`release=` writes are
  taken from Consul's documented behaviour. An acquire succeeds for a live
  session when the key is unheld or held by that same session. Only the
  holder can release.
- **Session ids.** The server picks session ids. The model takes a
  deterministic fresh id, and its contracts promise only that the id is
  fresh.
- **Local files.** The session cache file is a `map` from path to contents.
  A path that is present is a readable file.
- **Configuration file.** `cassandra.yaml` is the `config` field of
  `CassandraService`.
- **Process environment.** The environment is a `map` (`osEnv`).
- **Parameters.** The answer of `ping`, the node's host name and IP, and the
  strings successive `readline()` calls on `nodetool status` return are
  parameters.

Some behaviour of the code is worth knowing before reading the contracts:

- `pre_start` claims the seed role by reading the record and then writing it
  with an unconditional `put`. Two nodes that both read the empty record
  before either writes both become seeds.
- `pre_stop` tests `node.ip in seeds`, which is a substring test. With no
  record it raises `TypeError`.
- `unlock` writes the empty string and keeps the key.
- `MAX_SESSION` is declared and never applied, so no TTL is clamped.

## Model

| member | source | states |
|---|---|---|
| Strings.Strip | bin/manager/utils.py:76 | `str.strip()`: the result has no white space at either end and is no longer than the input |
| Strings.StripInfix | bin/manager/utils.py:76 | the strip is the infix of the string that has only white space before and after it |
| Strings.StripPadded | bin/manager/utils.py:76 | a string without outer white space, padded with white space on both sides, strips back to itself |
| Strings.TrimLeftSpaces | bin/manager/utils.py:76 | `lstrip` removes exactly a leading run of white space in front of a non-space |
| Strings.TrimRightSpaces | bin/manager/utils.py:76 | `rstrip` removes exactly a trailing run of white space after a non-space |
| Strings.TrimLeft | bin/manager/utils.py:76 | `str.lstrip()`: the result is a suffix of the input, and everything dropped is white space |
| Strings.TrimRight | bin/manager/utils.py:76 | `str.rstrip()`: the result is a prefix of the input, and everything dropped is white space |
| Strings.StripChars | bin/manager/utils.py:76 | every character of the strip occurs in the string |
| Strings.StripTrimmed | bin/manager/utils.py:76 | a string already free of outer white space is left unchanged |
| Strings.Lower | bin/manager/utils.py:94 | `str.lower()`: same length, each character lower-cased on its own |
| Strings.Split | bin/manager/libcassandra.py:53 | `split(sep)`: at least one piece, none containing the separator |
| Strings.JoinSplit | bin/manager/utils.py:75 | joining the pieces of a split with the separator gives back the string |
| Strings.SplitJoin | bin/manager/libcassandra.py:53 | splitting a join of separator-free pieces gives back the pieces |
| Strings.IsSubstringMeaning | bin/manage.py:49 | `sub in s` holds exactly when `sub` occurs in `s` at some position |
| Strings.JoinEndsWithSep | bin/manager/libcassandra.py:29 | a join whose last piece is empty ends with the separator |
| Strings.FirstPieceIsPrefix | bin/manager/utils.py:75 | `split('#')[0]` is the prefix before the first '#' and holds no '#' |
| Strings.SplitCons | bin/manager/libcassandra.py:53 | a separator-free piece followed by the separator is split off as the first field |
| Utils.ParseInt | bin/manager/utils.py:92 | `int(s)` succeeds only on a string whose strip starts with a digit or a sign |
| Utils.ParseIntAccepts | bin/manager/utils.py:92 | `int(s)` succeeds exactly when the strip of `s` is digits, or a sign followed by digits |
| Utils.ParseIntPadded | bin/manager/utils.py:92 | digits with white space around them read as their decimal value |
| Utils.ParseIntSignedPadded | bin/manager/utils.py:92 | '+' or '-' and digits with white space around them read as the value with that sign |
| Utils.Digits | bin/manager/utils.py:92 | every natural number has a non-empty digit string whose decimal value is that number |
| Utils.Decimal | bin/manager/utils.py:92 | every integer has a decimal form without outer white space |
| Utils.ParseIntDecimal | bin/manager/utils.py:92 | `int` reads the decimal form of every integer back as that integer |
| Utils.IntOf | bin/manager/utils.py:92 | `int(v)` fails with ValueError only on strings and with TypeError only on None |
| Utils.ToFlag | bin/manager/utils.py:86-98 | `to_flag` returns a bool exactly for strings, ints and bools; None raises |
| Utils.ToFlagOfInteger | bin/manager/utils.py:91-92 | a string `int` accepts is true exactly when its number is non-zero |
| Utils.FalseWordIsNotInteger | bin/manager/utils.py:91-96 | the false words never parse as integers, so the word test decides them |
| Utils.ToFlagFalseWords | bin/manager/utils.py:94-96 | 'false', 'off', 'no', 'n' in any letter case are false |
| Utils.ToFlagOtherStrings | bin/manager/utils.py:97-98 | every other non-integer string is true exactly when non-empty |
| Utils.ToFlagTrueWord | bin/manager/utils.py:97-98 | a trimmed word starting with neither a digit, a sign, 'f', 'o' nor 'n' is true |
| Utils.ToFlagTrueWords | bin/test.py:100-108 | 'yes', 'Y' and 'xxxxx' are true |
| Utils.ToFlagNoWords | bin/test.py:103-104 | 'no' and 'N' are false |
| Utils.ToFlagDigits | bin/test.py:105-110 | '1' and 1 are true, '0' and 0 are false |
| Utils.ToFlagOfInt | bin/manager/utils.py:92 | an int is true exactly when non-zero |
| Utils.ToFlagOfBool | bin/manager/utils.py:92 | a bool is its own flag |
| Utils.ToFlagEmpty | bin/manager/utils.py:98 | the empty string is false |
| Utils.ExpandVars | bin/manager/utils.py:77 | `os.path.expandvars`: text without '$' is returned as it is; with no variable set, every reference is kept as written |
| Utils.Clean | bin/manager/utils.py:74-77 | a value without '$' cleans to a string with no '#', no '$' and no outer white space |
| Utils.IntValue | bin/manager/libconsul.py:15 | `fn=int`: succeeds exactly when `int` accepts the value, and gives that number |
| Utils.ToFlagValue | bin/manager/libconsul.py:27 | `fn=to_flag`: succeeds exactly when `to_flag` does, and gives its bool |
| Utils.ExpandVarsWholeReference | bin/manager/utils.py:77 | `$name` for a set variable expands to the variable's value |
| Utils.Env | bin/manager/utils.py:68-83 | without `fn`, `env` cannot fail and returns a string exactly when the key is set or the default is a string |
| Utils.EnvAbsentKey | bin/manager/utils.py:73 | an unset key gives the default back when it is not a string or is already clean |
| Utils.EnvPresentKey | bin/manager/utils.py:73-77 | a set key gives its value cut at '#', stripped and expanded |
| Utils.EnvStringCleaned | bin/manager/utils.py:74-77 | a set value without '$' comes back with no '#' and no outer white space |
| Utils.EnvAppliesFnLast | bin/manager/utils.py:81-83 | `fn` is applied last, to what `env` returns without it |
| Utils.CleanOfCleanString | bin/manager/utils.py:74-77 | a value with no '#', no '$' and no outer white space is kept as it is |
| Utils.CleanCutsAtHash | bin/manager/utils.py:75-76 | everything from the first '#' on is dropped before stripping |
| Utils.CleanWithoutDollar | bin/manager/utils.py:74-77 | without '$' the clean form has no '#', no outer white space, only characters of the input |
| Utils.CleanWholeReference | bin/manager/utils.py:77 | a whole-value reference to a set variable cleans to the variable's value |
| Utils.CleanDropsTrailingSpace | bin/manager/utils.py:76 | trailing white space does not change the clean form |
| Utils.CleanDropsTwoSpaces | bin/manager/utils.py:76 | two trailing blanks after a word without '#', '$' or outer white space are trimmed away |
| Utils.CleanWordBeforeComment | bin/manager/utils.py:75-76 | a word, a space and a comment clean to the word |
| Utils.EnvExpandsReference | bin/test.py:114-120 | `env('A', '', environ)` with A = '$TestUtilsEnvironment' gives 'PASS' |
| Utils.EnvTrimsTrailingSpace | bin/test.py:121 | `env('B', '', environ)` with B = 'PASS  ' gives 'PASS' |
| Utils.EnvDropsComment | bin/test.py:122 | `env('C', '', environ)` with C = 'PASS # SOME COMMENT' gives 'PASS' |
| Utils.EnvUnsetGivesDefault | bin/test.py:123 | `env('D', 'PASS', environ)` with D unset gives 'PASS' |
| Store.Get | bin/manager/libconsul.py:33-42 | the Value of a present key, None exactly for an absent key |
| Store.Put | bin/manager/libconsul.py:44-46 | the key set afterwards is the old one plus the written key |
| Store.Delete | bin/manager/libconsul.py:48-49 | the key set afterwards is the old one minus the deleted key, and every other key keeps its entry |
| Store.GetAfterPut | bin/manager/libconsul.py:33-46 | `get` after `put` returns the value written |
| Store.PutLeavesOtherKeys | bin/manager/libconsul.py:44-46 | `put` leaves every other key as it was |
| Store.DeleteAfterPut | bin/manager/libconsul.py:44-49 | deleting a key that a `put` has just added restores the store as it was before |
| Store.GetAfterDelete | bin/manager/libconsul.py:33-49 | `get` after `delete` returns None |
| Store.DeleteIdempotent | bin/manager/libconsul.py:48-49 | deleting twice leaves the same store as deleting once |
| Store.Acquire | bin/manager/libconsul.py:90-92 | an acquire succeeds exactly for a live session on a key that is unheld or held by that session; success stores the value held by the session; failure changes nothing |
| Store.Release | bin/manager/libconsul.py:95-97 | a release succeeds exactly for the holding session, and then the key holds the written value and no session; a failed one changes nothing |
| Store.AcquireExcludesOthers | bin/manager/libconsul.py:90-92 | once one session holds a key, another session's acquire fails and the value stays |
| Store.ReleaseThenAcquire | bin/manager/libconsul.py:90-97 | after the holder unlocks, another live session can acquire |
| Store.ReadLock | bin/manager/libconsul.py:113-126 | both parts are present exactly when the key is present and held, and then they are the holder and the stored value |
| Store.ReadLockAfterAcquire | bin/manager/libconsul.py:90-126 | a held key reads back as its holder and value |
| Store.IsLocked | bin/manager/libconsul.py:100-110 | an absent key raises TypeError (indexing None); otherwise the holder or None |
| Store.UnlockKeepsKey | bin/manager/libconsul.py:95-126 | after `unlock` the key is still present with value '' and no holder |
| LibConsul.SessionSettings | bin/manager/libconsul.py:13-15 | reading the module defaults fails exactly when `SESSION_TTL` is set to a non-integer |
| LibConsul.SessionSettingsDefaultTtl | bin/manager/libconsul.py:15 | with `SESSION_TTL` unset the TTL is 25 |
| LibConsul.CacheFileDefault | bin/manager/libconsul.py:13 | an unset `SESSION_CACHE_FILE` reads as '/tmp/consul-session' |
| LibConsul.SessionNameDefault | bin/manager/libconsul.py:14 | an unset `SESSION_NAME` reads as 'consul-session' |
| LibConsul.SessionSettingsUnset | bin/manager/libconsul.py:13-15 | with none of the three set, the defaults are the cache file, the session name and 25 |
| LibConsul.ConsulHost | bin/manager/libconsul.py:22-30 | choosing the host never raises |
| LibConsul.ConsulHostChoice | bin/manager/libconsul.py:27-30 | the host is 'localhost' exactly when `CONSUL_AGENT` reads as true; else the cleaned `CONSUL`, or 'consul' |
| LibConsul.HostWithAgent | bin/test.py:24-27 | `CONSUL_AGENT` '1' selects 'localhost' |
| LibConsul.AgentOff | bin/test.py:29-36 | `CONSUL_AGENT` '0' or '' reads as false |
| LibConsul.HostWithoutAgent | bin/test.py:29-36 | with `CONSUL_AGENT` '0' or '' the host is the cleaned `CONSUL` setting |
| LibConsul.ExampleHostIsClean | bin/test.py:32 | 'my.consul.example.com' is its own clean form |
| LibConsul.FreshId | bin/manager/libconsul.py:78-80 | a created session's id differs from every id handed out before |
| LibConsul.Consul.constructor | bin/manager/libconsul.py:22-31 | the host is the one `ConsulHost` chooses; the session defaults, the store, the server's live sessions and the local files are the given ones; nothing is renewed yet |
| LibConsul.Consul.Get | bin/manager/libconsul.py:33-42 | returns the stored Value, None for an absent key |
| LibConsul.Consul.Put | bin/manager/libconsul.py:44-46 | the store afterwards is the old one with the key written |
| LibConsul.Consul.Delete | bin/manager/libconsul.py:48-49 | the store afterwards is the old one without the key |
| LibConsul.Consul.CreateSession | bin/manager/libconsul.py:76-80 | one new session with a fresh id, the given name and TTL and 'release' behaviour |
| LibConsul.Consul.GetSession | bin/manager/libconsul.py:52-73 | uncached: a new session; cached with a readable file: its contents and no new session; otherwise a new session; cached calls write the id to the file |
| LibConsul.Consul.RenewSession | bin/manager/libconsul.py:83-87 | renews the given id, or, for None or '', the id `get_session()` returns with the defaults |
| LibConsul.Consul.Lock | bin/manager/libconsul.py:90-92 | the outcome is the store's acquire for the live sessions |
| LibConsul.Consul.Unlock | bin/manager/libconsul.py:95-97 | the outcome is the store's release with value '' |
| LibConsul.Consul.IsLocked | bin/manager/libconsul.py:100-110 | the holder, None for no holder, TypeError for an absent key |
| LibConsul.Consul.ReadLock | bin/manager/libconsul.py:113-126 | (Session, Value) of a held key, (None, None) otherwise |
| LibConsul.CachedSessionIsStable | bin/manager/libconsul.py:52-73 | two cached `get_session` calls return the same id and create at most one session, none when the file exists |
| CassandraConfig.SeedRun | bin/manager/libcassandra.py:28 | `[\d\|\.]*` matches the longest run of digits, '\|' and '.' |
| CassandraConfig.MatchLen | bin/manager/libcassandra.py:28-35 | a match starts with the pattern's fixed text and lies within the line |
| CassandraConfig.Sub | bin/manager/libcassandra.py:28-35 | `re.sub` on one line leaves a line lacking the first character of the pattern's fixed text unchanged |
| CassandraConfig.SubNoMatch | bin/manager/libcassandra.py:28-35 | `re.sub` leaves a line without a match unchanged |
| CassandraConfig.SubAtMatch | bin/manager/libcassandra.py:28-35 | a match is replaced and the scan resumes after it |
| CassandraConfig.SeedsEntryMatch | bin/manager/libcassandra.py:28 | `seeds: "<digits and dots>"` matches up to its closing quote |
| CassandraConfig.SeedsLineRewritten | bin/manager/libcassandra.py:28 | an indented seeds line becomes its indentation and the new entry |
| CassandraConfig.ClusterNameLineRewritten | bin/manager/libcassandra.py:31 | an indented `cluster_name: '...'` line gets the new name, whatever the old one |
| CassandraConfig.ListenAddressLineRewritten | bin/manager/libcassandra.py:35 | an indented `listen_address:` line gets the new address, whatever the old one |
| CassandraConfig.LiteralRewritten | bin/manager/libcassandra.py:32-33 | a fixed setting is replaced and the rest of the line is scanned on |
| CassandraConfig.SubLines | bin/manager/libcassandra.py:28-35 | `re.sub` over the text rewrites each line on its own and keeps the number of lines |
| CassandraConfig.AppendToText | bin/manager/libcassandra.py:29 | the text gains one line: the last line is extended by the appended text and a new empty line follows; other lines are kept |
| CassandraConfig.AppendToTextJoins | bin/manager/libcassandra.py:29 | appending a line is the string append `+= "auto_bootstrap: false\n"` |
| CassandraConfig.ConcatSeeds | bin/manager/libcassandra.py:28 | `"".join(seeds)`: no seeds give '', one seed gives its address |
| CassandraConfig.ConcatSeedsAppend | bin/manager/libcassandra.py:28 | joining the seeds of two lists gives the two joins concatenated |
| CassandraConfig.ConcatSeedsAddress | bin/manager/libcassandra.py:28 | seed addresses run together are still made of digits, dots and bars |
| CassandraConfig.UpdatedText | bin/manager/libcassandra.py:22-40 | the new text of a joining node ends with a line break; it is the lines of `UpdatedLines` joined by line breaks |
| CassandraConfig.UpdatedLines | bin/manager/libcassandra.py:25-35 | one more line exactly when no seed is None |
| CassandraConfig.SeedStep | bin/manager/libcassandra.py:25-29 | the seed step adds a line exactly when no seed is None, and a seed node's lines are kept as they are |
| CassandraConfig.SeedStepKeeps | bin/manager/libcassandra.py:25-29 | a line without a seeds entry is kept by the seed step |
| CassandraConfig.SeedNodeKeepsSeedsLine | bin/manager/libcassandra.py:25-35 | a seed node writes its indented `seeds: "..."` line back unchanged |
| CassandraConfig.RewriteSettings | bin/manager/libcassandra.py:31-35 | the later rewrites keep the number of lines |
| CassandraConfig.RewriteSettingsAt | bin/manager/libcassandra.py:31-35 | each line is rewritten on its own: cluster name, snitch and RPC, then the listen address when an IP is given |
| CassandraConfig.ClusterNameLineSettled | bin/manager/libcassandra.py:31-35 | the later rewrites give an indented `cluster_name: '...'` line the node's cluster name |
| CassandraConfig.ClusterNameLineUpdated | bin/manager/libcassandra.py:25-35 | every node writes its cluster name into an indented `cluster_name: '...'` line |
| CassandraConfig.SnitchRewritten | bin/manager/libcassandra.py:32 | the snitch rewrite turns an indented `endpoint_snitch: SimpleSnitch` line into the gossiping snitch |
| CassandraConfig.SnitchLineSettled | bin/manager/libcassandra.py:31-35 | the later rewrites turn an indented `endpoint_snitch: SimpleSnitch` line into `endpoint_snitch: 'GossipingPropertyFileSnitch'` |
| CassandraConfig.SnitchLineUpdated | bin/manager/libcassandra.py:25-35 | every node switches an indented `endpoint_snitch: SimpleSnitch` line to the gossiping snitch |
| CassandraConfig.RpcRewritten | bin/manager/libcassandra.py:33 | the RPC rewrite turns an indented `start_rpc: false` line into `start_rpc: true` |
| CassandraConfig.RpcLineSettled | bin/manager/libcassandra.py:31-35 | the later rewrites turn an indented `start_rpc: false` line into `start_rpc: true` |
| CassandraConfig.RpcLineUpdated | bin/manager/libcassandra.py:25-35 | every node turns an indented `start_rpc: false` line into `start_rpc: true` |
| CassandraConfig.ListenAddressLinePasses | bin/manager/libcassandra.py:31-33 | the cluster-name, snitch and RPC rewrites leave an indented `listen_address:` line alone |
| CassandraConfig.ListenAddressLineSettled | bin/manager/libcassandra.py:31-35 | with an IP, the later rewrites put it into an indented `listen_address:` line |
| CassandraConfig.ListenAddressLineUpdated | bin/manager/libcassandra.py:25-35 | a node given its IP writes it into an indented `listen_address:` line |
| CassandraConfig.LiteralLineRewritten | bin/manager/libcassandra.py:32-33 | fixed text after an indentation that lacks its first character is replaced whole |
| CassandraConfig.RewriteSettingsKeeps | bin/manager/libcassandra.py:31-35 | a line none of the later patterns matches is kept |
| CassandraConfig.UntouchedLineKept | bin/manager/libcassandra.py:25-35 | a line none of the five patterns matches comes through `update_config` unchanged |
| CassandraConfig.BootstrapAppendedWhenJoining | bin/manager/libcassandra.py:25-29 | a joining node gets `auto_bootstrap: false` as its own last line when the file ended with a line break |
| CassandraConfig.SeedsLineUpdated | bin/manager/libcassandra.py:25-35 | a joining node's seeds line ends up holding exactly the joined seed addresses, untouched by the later rewrites |
| CassandraConfig.SeedStepLine | bin/manager/libcassandra.py:25-29 | after the seed step the seeds line holds the new addresses |
| CassandraConfig.SettingsKeepClearLine | bin/manager/libcassandra.py:31-35 | a line with neither 'c' nor 'l' passes the later rewrites unchanged |
| CassandraConfig.ClearOfSettings | bin/manager/libcassandra.py:31-35 | a line with neither 'c' nor 'l' holds no match of the later patterns |
| CassandraConfig.UntouchedTextKept | bin/manager/libcassandra.py:22-40 | for a seed node, a file none of the patterns matches is written back as it was |
| CassandraConfig.ListenAddressOnlyWithIp | bin/manager/libcassandra.py:34-35 | with an IP, the result is the result without one plus the `listen_address` rewrite |
| LibCassandra.ReadLine | bin/manager/libcassandra.py:50 | `readline()`: a prefix up to and including the first line break; '' only at the end |
| LibCassandra.OutputLines | bin/manager/libcassandra.py:49-58 | every line read before the end is non-empty |
| LibCassandra.OutputLinesCoverOutput | bin/manager/libcassandra.py:49-58 | the lines read, run together, are the whole output |
| LibCassandra.OutputLinesAreLines | bin/manager/libcassandra.py:50 | every line read ends at its line break, and holds no other |
| LibCassandra.OutputLinesReadToEnd | bin/manager/libcassandra.py:49-58 | reading the lines then the end yields exactly those lines |
| LibCassandra.TwoFields | bin/manager/libcassandra.py:53 | two space-free fields split off ahead of the rest |
| LibCassandra.UpNormalFormat | bin/manager/libcassandra.py:53-57 | a `UN  <ip> ...` status line reports the node Up and Normal |
| LibCassandra.StatusOf | bin/manager/libcassandra.py:45-59 | the answer is None or "OK" |
| LibCassandra.StatusOfMeaning | bin/manager/libcassandra.py:52-59 | "OK" exactly when some line read has at least four fields, the third the IP and the first "UN"; None exactly when none has |
| LibCassandra.StatusOfAppend | bin/manager/libcassandra.py:49-59 | the first Up/Normal line decides, and later lines matter only without one |
| LibCassandra.BeforeEnd | bin/manager/libcassandra.py:58 | the lines read are a prefix of the readline results, stopping at the first '' |
| LibCassandra.BeforeEndStops | bin/manager/libcassandra.py:58 | reading stops exactly at the first '' |
| LibCassandra.CassandraService.constructor | bin/manager/libcassandra.py:10-13 | no seeds, the given cluster name (by default `MainCluster`) |
| LibCassandra.CassandraService.SetSeeds | bin/manager/libcassandra.py:16-20 | a list is appended to the seeds; any other value replaces them with a one-element list |
| LibCassandra.CassandraService.UpdateConfig | bin/manager/libcassandra.py:22-40 | the configuration becomes the rewritten text |
| LibCassandra.CassandraService.GetNodeStatus | bin/manager/libcassandra.py:45-59 | the loop answers the status of the lines read before the end |
| Manage.Node.constructor | bin/manage.py:21-28 | the node's name is 'cassandra-' followed by its host name |
| Manage.PreStart | bin/manage.py:31-44 | exit 0; the seeds are the record read; with no record the node records its IP, otherwise the store is unchanged; the configuration is rewritten for the node's IP |
| Manage.PreStartTouchesOnlyTheRecord | bin/manage.py:34-37 | `pre_start` only adds the seed record and leaves every other key as it was |
| Manage.PreStartJoinsRecordedSeed | bin/manage.py:34-39 | the node gets the joining configuration exactly when a record exists |
| Manage.SequentialStarts | bin/manage.py:31-54 | two nodes sharing one store start in turn on an empty record: the first becomes the seed (`[None]`) and records its IP; the second takes that IP as its one seed, is configured to join it and leaves the store as it was; the first then stops, finds its own IP and deletes the record, which restores the original store |
| Manage.InterleavedStartsBothSeed | bin/manage.py:34-37 | two nodes that both read the empty record both become seeds, and the record names only the last writer |
| Manage.PreStop | bin/manage.py:47-54 | TypeError and no change with no record; otherwise exit 0, deleting the record exactly when it contains the node's IP or the recorded host does not answer a ping |
| Manage.PrefixAddressCountsAsOwn | bin/manage.py:49 | an IP that is a prefix of the record counts as the node's own |
| Manage.SecondPreStopRaises | bin/manage.py:48-50 | after the record is deleted a second `pre_stop` finds no record |
| Manage.Health | bin/manage.py:64-69 | exit 0 exactly for status "OK", exit 1 exactly for None |
| Manage.BasicHealth | bin/manage.py:57-62 | exit 0 exactly for status "OK", exit 1 exactly for None |
| Manage.HealthyMeansUpNormal | bin/manage.py:57-69 | a node is healthy exactly when a line read reports it Up and Normal |
| Manage.Run | bin/manage.py:95 | running a hook has exactly that hook's effect: `pre_start` exits 0 and sets seeds, record and configuration as `pre_start` does; `pre_stop` raises exactly without a record, leaves the service alone and deletes or keeps the record as `pre_stop` does; the health hooks exit by the status and change nothing |
| Manage.ParseCommand | bin/manage.py:78-87 | no argument selects `pre_start`; a selected hook is the one the first argument names |
| Manage.ParseCommandName | bin/manage.py:84 | every hook is selected by its own name |
| Manage.UnknownCommandRejected | bin/manage.py:83-87 | a name that is no hook is rejected (exit 1) |
| Manage.ClientEnvs | bin/manage.py:78-82 | with no argument only `CONSUL` is passed to the client; otherwise the whole environment |
| Manage.NoArgumentIgnoresAgent | bin/manage.py:78-79 | with no argument `CONSUL_AGENT` is ignored: the host is the cleaned `CONSUL`, or 'consul' |

## Left out

- Logging, `print`, the `debug` decorator and the `ping`/`get_ip` helpers of `utils.py` are left out. `ping` and the node's IP are parameters.
- The python-consul client is left out. Transport errors, and every exception the client raises, are not modelled. Lock and session semantics follow Consul's documented behaviour.
- Session TTL expiry and server-side invalidation are left out: the live sessions are those the server had when the hook started plus those created since, and none of them expires.
- File I/O errors other than a missing cache file are left out. The session cache is a map from path to contents. A present path is a readable file, and every write succeeds.
- Starting `nodetool status` is left out: `getNodeStatus` is given the strings `readline()` returns.
- Only the four hooks of `manage.py` are modelled. `main` looks the name up in `globals()`, so any other global callable would also be run. The model treats a non-hook name as rejected.
- ContainerPilot (`cp.load()`) is not part of this model. Neither is the random sleep before a joining node finishes `pre_start`.
- Concurrency between nodes is not modelled: each hook is one sequential call. `Manage.InterleavedStartsBothSeed` states, at the store level, what a read–read–write–write interleaving of two starts leaves.
- CassandraConfig.Sub: `re.sub` is applied line by line. No pattern of `update_config` can match across a line break, so this changes nothing. Backslash escapes in the replacement strings are not interpreted.
- CassandraConfig.ConcatSeeds: defined only when no seed is None. `update_config` joins only under that test.
- CassandraConfig.AppendToText: works on the lines of the text. It extends the last line and adds an empty line after it, which is the string append `+= "auto_bootstrap: false\n"` for every text (`CassandraConfig.AppendToTextJoins`). Only the claim that the setting forms a line of its own needs the file to end with a line break (`CassandraConfig.BootstrapAppendedWhenJoining`).
- Utils.ParseInt: accepts white space, an optional sign and decimal digits (`Utils.ParseIntAccepts`). Python 2 also accepts white space between the sign and the digits; the model rejects it.
- Utils.ExpandVars: expands `$name` and `${name}` from the environment map. Unset variables are kept as written.
- LibConsul.Consul.Get: a Value of None (a key stored without a value) is not modelled. Every stored entry has a string value. This also covers the '' that `unlock` writes: Consul stores an empty body as a null Value, so the real `get` returns None after an unlock, where `Store.UnlockKeepsKey` gives Some('').
- LibConsul.Consul.constructor: the session defaults are a parameter. The module reads them at import with `LibConsul.SessionSettings`, and an import that fails (a non-integer `SESSION_TTL`) never reaches the constructor. The constructor does not state that its `defaults` are `SessionSettings`' result.
- CassandraConfig.UpdatedText: its own contract states only the trailing line break of a joining node's text. The effect on each line (seeds, cluster name, snitch, RPC, listen address, the appended `auto_bootstrap: false`) is stated for `CassandraConfig.UpdatedLines`, whose lines `UpdatedText` joins with line breaks.
- CassandraConfig.ClusterNameLineUpdated: proved for an old name without 'd' and a cluster name without 'd' or 'p'. The condition rules out a match of the seeds and RPC patterns inside the line. The source rewrites every such line.
- CassandraConfig.ListenAddressLineUpdated: proved for an old value without a quote or 'p'. The condition rules out a match of the seeds, cluster-name, snitch and RPC patterns inside the line. The source rewrites every such line.
- CassandraConfig.SeedNodeKeepsSeedsLine: the line lemmas cover lines that are an indentation of spaces and dashes followed by the setting, as in the shipped `cassandra.yaml`.
- LibConsul.FreshId: the server's choice of id is replaced by a deterministic fresh one. Contracts rely only on its freshness.
