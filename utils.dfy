/**
  The environment-parsing helpers of `bin/manager/utils.py`: `to_flag`, which
  reads a yes/no style setting as a boolean, and `env`, which looks a setting
  up, cuts off a trailing comment, trims white space, expands `$VAR`
  references and finally applies an optional conversion.

  Python values that flow through these helpers are modelled by `PyValue`;
  the process environment that `os.path.expandvars` reads is the map `osEnv`.
 */
module Utils {
  import opened Wrappers
  import opened Strings

  /** The Python values a setting can take: a string, an int, a bool or None. */
  datatype PyValue = Str(s: string) | Int(i: int) | Bool(b: bool) | PyNone

  predicate IsDigit(c: char) { '0' <= c <= '9' }

  predicate AllDigits(d: string) { forall k :: 0 <= k < |d| ==> IsDigit(d[k]) }

  /** The number written by a string of decimal digits. */
  function DigitsValue(d: string): nat
    requires AllDigits(d)
  {
    if d == [] then 0 else DigitsValue(d[..|d| - 1]) * 10 + (d[|d| - 1] as int - '0' as int)
  }

  /** An integer literal in base 10: an optional sign followed by at least one decimal digit. */
  predicate IntLiteral(t: string) {
    || (t != [] && AllDigits(t))
    || (|t| > 1 && t[0] in "+-" && AllDigits(t[1..]))
  }

  /**
    Python 2 `int(s)` in base 10: optional white space around an optional sign
    followed by at least one decimal digit; anything else raises ValueError (None).
   */
  function ParseInt(s: string): (r: Option<int>)
    ensures r.Some? ==> Strip(s) != [] && (IsDigit(Strip(s)[0]) || Strip(s)[0] in "+-")
  {
    var t := Strip(s);
    if t != [] && t[0] in "+-" then
      if |t| > 1 && AllDigits(t[1..]) then
        Some(if t[0] == '-' then -(DigitsValue(t[1..]) as int) else DigitsValue(t[1..]))
      else None
    else if t != [] && AllDigits(t) then Some(DigitsValue(t))
    else None
  }

  /** `int` accepts exactly the strings whose strip is an integer literal. */
  lemma ParseIntAccepts(s: string)
    ensures ParseInt(s).Some? <==> IntLiteral(Strip(s))
  {
  }

  /** Python's `int(v)`: strings are parsed, bools become 0 or 1, None raises TypeError. */
  function IntOf(v: PyValue): (r: Result<int, PyError>)
    ensures r.Err? ==> (v.Str? && r.error == ValueError) || (v.PyNone? && r.error == TypeError)
  {
    match v
    case Str(s) => if ParseInt(s).Some? then Ok(ParseInt(s).value) else Err(ValueError)
    case Int(i) => Ok(i)
    case Bool(b) => Ok(if b then 1 else 0)
    case PyNone => Err(TypeError)
  }

  /** The lower-cased words that `to_flag` reads as false. */
  const FalseWords: set<string> := {"false", "off", "no", "n"}

  /**
    `to_flag(val)`: `bool(int(val))` when `int` accepts the value; for a string
    it rejects, false for the words in `FalseWords` in any letter case and
    otherwise whether the string is non-empty.
   */
  function ToFlag(v: PyValue): (r: Result<bool, PyError>)
    ensures v.Str? || v.Int? || v.Bool? <==> r.Ok?
  {
    match IntOf(v)
    case Ok(n) => Ok(n != 0)
    case Err(e) =>
      if e == ValueError && v.Str? then
        var lowered := Lower(v.s);
        Ok(lowered !in FalseWords && lowered != [])
      else Err(e)
  }

  /** `int` as a conversion passed to `env` (`fn=int`). */
  function IntValue(v: PyValue): (r: Result<PyValue, PyError>)
    ensures r.Ok? <==> IntOf(v).Ok?
    ensures r.Ok? ==> r.value == Int(IntOf(v).value)
  {
    match IntOf(v)
    case Ok(n) => Ok(Int(n))
    case Err(e) => Err(e)
  }

  /** `to_flag` as a conversion passed to `env` (`fn=to_flag`). */
  function ToFlagValue(v: PyValue): (r: Result<PyValue, PyError>)
    ensures r.Ok? <==> ToFlag(v).Ok?
    ensures r.Ok? ==> r.value == Bool(ToFlag(v).value)
  {
    match ToFlag(v)
    case Ok(b) => Ok(Bool(b))
    case Err(e) => Err(e)
  }

  /** A string `int` accepts is read as whether the number is non-zero. */
  lemma ToFlagOfInteger(s: string, n: int)
    requires ParseInt(s) == Some(n)
    ensures ToFlag(Str(s)) == Ok(n != 0)
  {
  }

  /** A string that lower-cases to a false word does not parse as an integer. */
  lemma {:induction false} FalseWordIsNotInteger(s: string)
    requires Lower(s) in FalseWords
    ensures ParseInt(s).None?
  {
    var l := Lower(s);
    assert LowerChar(s[0]) == l[0] && l[0] in "fno";
    assert LowerChar(s[|s| - 1]) == l[|s| - 1] && l[|s| - 1] in "eofn";
    StripTrimmed(s);
  }

  /** 'false', 'off', 'no' and 'n' in any letter case are false. */
  lemma ToFlagFalseWords(s: string)
    requires Lower(s) in FalseWords
    ensures ToFlag(Str(s)) == Ok(false)
  {
    FalseWordIsNotInteger(s);
  }

  /** Every other string is true exactly when it is non-empty. */
  lemma ToFlagOtherStrings(s: string)
    requires ParseInt(s).None? && Lower(s) !in FalseWords
    ensures ToFlag(Str(s)) == Ok(s != [])
  {
  }

  /** A trimmed string that does not start with a digit or a sign is not an integer. */
  lemma ParseIntRejectsWord(s: string)
    requires s != [] && !IsSpace(s[0]) && !IsSpace(s[|s| - 1])
    requires !IsDigit(s[0]) && s[0] != '+' && s[0] != '-'
    ensures ParseInt(s).None?
  {
    StripTrimmed(s);
  }

  /** Every false word starts with 'f', 'o' or 'n', so a string starting otherwise is none of them. */
  lemma NotAFalseWord(s: string)
    requires s != []
    requires LowerChar(s[0]) != 'f' && LowerChar(s[0]) != 'o' && LowerChar(s[0]) != 'n'
    ensures Lower(s) !in FalseWords
  {
    var l := Lower(s);
    assert l[0] == LowerChar(s[0]);
    assert "false"[0] == 'f' && "off"[0] == 'o' && "no"[0] == 'n' && "n"[0] == 'n';
  }

  /** A trimmed word that is neither a number nor a false word is true. */
  lemma ToFlagTrueWord(s: string)
    requires s != [] && !IsSpace(s[0]) && !IsSpace(s[|s| - 1])
    requires !IsDigit(s[0]) && s[0] != '+' && s[0] != '-'
    requires LowerChar(s[0]) != 'f' && LowerChar(s[0]) != 'o' && LowerChar(s[0]) != 'n'
    ensures ToFlag(Str(s)) == Ok(true)
  {
    ParseIntRejectsWord(s);
    NotAFalseWord(s);
    ToFlagOtherStrings(s);
  }

  /** `test_to_flag`: 'yes', 'Y' and 'xxxxx' are true. */
  lemma ToFlagTrueWords(s: string)
    requires s in {"yes", "Y", "xxxxx"}
    ensures ToFlag(Str(s)) == Ok(true)
  {
    ToFlagTrueWord(s);
  }

  /** `test_to_flag`: 'no' and 'N' are false. */
  lemma ToFlagNoWords(s: string)
    requires s in {"no", "N"}
    ensures ToFlag(Str(s)) == Ok(false)
  {
    if s == "no" {
      assert Lower(s) == "no";
    } else {
      assert Lower(s) == "n";
    }
    ToFlagFalseWords(s);
  }

  /** The empty string is false. */
  lemma ToFlagEmpty(s: string)
    requires s == []
    ensures ToFlag(Str(s)) == Ok(false)
  {
    assert Strip(s) == [];
  }

  /** A single decimal digit is the integer it names. */
  lemma ParseIntDigit(s: string)
    requires |s| == 1 && IsDigit(s[0])
    ensures ParseInt(s) == Some(s[0] as int - '0' as int)
  {
    StripTrimmed(s);
    assert s[0] !in "+-";
    assert AllDigits(s) && s[..0] == [];
    assert DigitsValue(s) == DigitsValue(s[..0]) * 10 + (s[0] as int - '0' as int);
  }

  /** A digit string with white space around it is read as its number. */
  lemma ParseIntPadded(w1: string, d: string, w2: string)
    requires AllSpace(w1) && AllSpace(w2) && d != [] && AllDigits(d)
    ensures ParseInt(w1 + d + w2) == Some(DigitsValue(d))
  {
    assert IsDigit(d[0]) && IsDigit(d[|d| - 1]);
    StripPadded(w1, d, w2);
    ParseIntUnsigned(w1 + d + w2, d);
  }

  /** A string whose strip is a digit string is read as its number. */
  lemma ParseIntUnsigned(s: string, d: string)
    requires d != [] && AllDigits(d)
    requires Strip(s) == d
    ensures ParseInt(s) == Some(DigitsValue(d))
  {
    assert IsDigit(d[0]);
  }

  /** A sign and a digit string with white space around them are read as the signed number. */
  lemma ParseIntSignedPadded(w1: string, sign: char, d: string, w2: string)
    requires AllSpace(w1) && AllSpace(w2) && sign in "+-" && d != [] && AllDigits(d)
    ensures ParseInt(w1 + [sign] + d + w2) == Some(if sign == '-' then -(DigitsValue(d) as int) else DigitsValue(d))
  {
    var t := [sign] + d;
    assert t[0] == sign && t[|t| - 1] == d[|d| - 1] && t[1..] == d;
    assert w1 + [sign] + d + w2 == w1 + t + w2;
    StripPadded(w1, t, w2);
    ParseIntSigned(w1 + t + w2, sign, d);
  }

  /** A string whose strip is a sign and digits is read as the signed number. */
  lemma ParseIntSigned(s: string, sign: char, d: string)
    requires sign in "+-" && d != [] && AllDigits(d)
    requires Strip(s) == [sign] + d
    ensures ParseInt(s) == Some(if sign == '-' then -(DigitsValue(d) as int) else DigitsValue(d))
  {
    assert Strip(s)[1..] == d;
  }

  function DigitChar(n: nat): (c: char)
    requires n < 10
    ensures IsDigit(c) && c as int - '0' as int == n
  {
    ('0' as int + n) as char
  }

  /** The decimal digits of `n`, most significant first, with no leading zero. */
  function Digits(n: nat): (d: string)
    ensures d != [] && AllDigits(d) && DigitsValue(d) == n
    decreases n
  {
    if n < 10 then
      var d := [DigitChar(n)];
      assert d[..0] == [];
      d
    else
      var p := Digits(n / 10);
      var d := p + [DigitChar(n % 10)];
      assert d[..|d| - 1] == p;
      d
  }

  /** `str(n)`: the decimal form of an integer, with a '-' for a negative one. */
  function Decimal(n: int): (s: string)
    ensures s != [] && !IsSpace(s[0]) && !IsSpace(s[|s| - 1])
  {
    if n < 0 then "-" + Digits(-n) else Digits(n)
  }

  /** `int(str(n)) == n`: the decimal form of every integer is read back as that integer. */
  lemma ParseIntDecimal(n: int)
    ensures ParseInt(Decimal(n)) == Some(n)
  {
    var s := Decimal(n);
    StripTrimmed(s);
    if n < 0 {
      assert s[1..] == Digits(-n);
    } else {
      assert s[0] !in "+-";
    }
  }

  /** An int is true exactly when it is non-zero. */
  lemma ToFlagOfInt(n: int)
    ensures ToFlag(Int(n)) == Ok(n != 0)
  {
  }

  /** A bool is its own flag. */
  lemma ToFlagOfBool(b: bool)
    ensures ToFlag(Bool(b)) == Ok(b)
  {
  }

  /** `test_to_flag`: the strings '1' and '0' and the ints 1 and 0. */
  lemma ToFlagDigits(s: string, n: int)
    requires s in {"0", "1"} && n in {0, 1}
    ensures ToFlag(Str(s)) == Ok(s == "1")
    ensures ToFlag(Int(n)) == Ok(n == 1)
  {
    ParseIntDigit(s);
    ToFlagOfInteger(s, s[0] as int - '0' as int);
  }

  predicate IsWordChar(c: char) {
    'a' <= c <= 'z' || 'A' <= c <= 'Z' || '0' <= c <= '9' || c == '_'
  }

  /** The length of the run of word characters (`\w`) that starts `s`. */
  function WordRun(s: string): (n: nat)
    ensures n <= |s|
    ensures forall k :: 0 <= k < n ==> IsWordChar(s[k])
    ensures n < |s| ==> !IsWordChar(s[n])
  {
    if s != [] && IsWordChar(s[0]) then 1 + WordRun(s[1..]) else 0
  }

  /** A variable reference `$name` or `${name}`: its length in the text and the name. */
  datatype VarRef = VarRef(len: nat, name: string)

  /** The reference that the pattern `\$(\w+|\{[^}]*\})` matches at the start of `s`, if any. */
  function VarRefAt(s: string): (r: Option<VarRef>)
    ensures r.Some? ==> 2 <= r.value.len <= |s| && s[0] == '$'
  {
    if |s| < 2 || s[0] != '$' then None
    else
      var n := WordRun(s[1..]);
      if n > 0 then Some(VarRef(1 + n, s[1..1 + n]))
      else if s[1] == '{' && '}' in s[2..] then
        var k := FirstIndexOf(s[2..], '}');
        Some(VarRef(3 + k, s[2..2 + k]))
      else None
  }

  /**
    `os.path.expandvars(s)` against the process environment `osEnv`: every
    reference to a set variable is replaced by its value (which is not expanded
    again); references to unset variables are kept as written. Text without a
    `$` is returned as it is before any scanning.
   */
  function ExpandVars(s: string, osEnv: map<string, string>): (r: string)
    ensures '$' !in s ==> r == s
    ensures osEnv == map[] ==> r == s
    decreases |s|
  {
    if '$' !in s then s
    else match VarRefAt(s)
      case Some(ref) =>
        (if ref.name in osEnv then osEnv[ref.name] else s[..ref.len]) + ExpandVars(s[ref.len..], osEnv)
      case None => [s[0]] + ExpandVars(s[1..], osEnv)
  }

  /** A whole-string reference to a set variable gives the variable's value. */
  lemma ExpandVarsWholeReference(name: string, osEnv: map<string, string>)
    requires name != [] && (forall k :: 0 <= k < |name| ==> IsWordChar(name[k]))
    requires name in osEnv
    ensures ExpandVars("$" + name, osEnv) == osEnv[name]
  {
    var s := "$" + name;
    assert s[1..] == name;
    assert WordRun(name) == |name|;
    assert s[1..1 + |name|] == name;
    assert VarRefAt(s) == Some(VarRef(1 + |name|, name));
    assert s[1 + |name|..] == [];
  }

  /** The string clean-up of `env`: cut at the first '#', strip, expand variables. */
  function Clean(s: string, osEnv: map<string, string>): (r: string)
    ensures '$' !in s ==> '#' !in r && '$' !in r
    ensures '$' !in s ==> r != [] ==> !IsSpace(r[0]) && !IsSpace(r[|r| - 1])
  {
    var head := Split(s, '#')[0];
    FirstPieceIsPrefix(s, '#');
    PrefixChars(head, s);
    StripKeepsAbsent(head, '#');
    assert '$' !in s ==> '$' !in Strip(head) by {
      if '$' !in s { StripKeepsAbsent(head, '$'); }
    }
    ExpandVars(Strip(head), osEnv)
  }

  /**
    `env(key, default, environ, fn)`: the value of `key` in `environ` or else
    `default`; a string is cleaned; then `fn`, when given, is applied. Only
    `fn` can raise.
   */
  function Env(key: string, default: PyValue, environ: map<string, string>,
               osEnv: map<string, string>, fn: Option<PyValue -> Result<PyValue, PyError>>): (r: Result<PyValue, PyError>)
    ensures fn.None? ==> r.Ok? && (r.value.Str? <==> key in environ || default.Str?)
  {
    var val := if key in environ then Str(environ[key]) else default;
    var cleaned := if val.Str? then Str(Clean(val.s, osEnv)) else val;
    if fn.Some? then fn.value(cleaned) else Ok(cleaned)
  }

  /** A string with no '#', no '$' and no white space at either end is its own clean form. */
  lemma CleanOfCleanString(s: string, osEnv: map<string, string>)
    requires '#' !in s && '$' !in s
    requires s != [] ==> !IsSpace(s[0]) && !IsSpace(s[|s| - 1])
    ensures Clean(s, osEnv) == s
  {
    StripTrimmed(s);
  }

  /** Everything from the first '#' on is dropped before trimming. */
  lemma CleanCutsAtHash(s: string, j: nat, osEnv: map<string, string>)
    requires j < |s| && s[j] == '#' && '#' !in s[..j] && '$' !in s[..j]
    ensures Clean(s, osEnv) == Strip(s[..j])
  {
    SplitFirstPiece(s, '#', j);
    StripKeepsAbsent(s[..j], '$');
  }

  /** Without a `$`, the clean form holds no '#', no outer white space, only characters of `s`. */
  lemma CleanWithoutDollar(s: string, osEnv: map<string, string>)
    requires '$' !in s
    ensures var r := Clean(s, osEnv);
      && '#' !in r
      && (r != [] ==> !IsSpace(r[0]) && !IsSpace(r[|r| - 1]))
      && (forall c :: c in r ==> c in s)
  {
    var head := Split(s, '#')[0];
    FirstPieceIsPrefix(s, '#');
    PrefixChars(head, s);
    var t := Strip(head);
    StripChars(head);
    StripKeepsAbsent(head, '#');
    StripKeepsAbsent(head, '$');
    assert Clean(s, osEnv) == t;
  }

  /** Every character of a prefix occurs in the whole. */
  lemma PrefixChars(p: string, s: string)
    requires p <= s
    ensures forall c :: c in p ==> c in s
  {
    assert s[..|p|] == p;
    SliceChars(s, 0, |p|);
  }

  /** Absent key, no `fn`: the default comes back, when it is not a string or is already clean. */
  lemma EnvAbsentKey(key: string, default: PyValue, environ: map<string, string>, osEnv: map<string, string>)
    requires key !in environ
    requires default.Str? ==> '#' !in default.s && '$' !in default.s &&
                              (default.s != [] ==> !IsSpace(default.s[0]) && !IsSpace(default.s[|default.s| - 1]))
    ensures Env(key, default, environ, osEnv, None) == Ok(default)
  {
    if default.Str? {
      CleanOfCleanString(default.s, osEnv);
    }
  }

  /** A present value without `$` comes back as a string with no comment and no outer white space. */
  lemma EnvStringCleaned(key: string, default: PyValue, environ: map<string, string>, osEnv: map<string, string>)
    requires key in environ && '$' !in environ[key]
    ensures var r := Env(key, default, environ, osEnv, None);
      && r.Ok? && r.value.Str?
      && '#' !in r.value.s
      && (r.value.s != [] ==> !IsSpace(r.value.s[0]) && !IsSpace(r.value.s[|r.value.s| - 1]))
  {
    CleanWithoutDollar(environ[key], osEnv);
  }

  /** `fn` is applied last, to the value `env` would return without it. */
  lemma EnvAppliesFnLast(key: string, default: PyValue, environ: map<string, string>,
                         osEnv: map<string, string>, fn: PyValue -> Result<PyValue, PyError>)
    ensures Env(key, default, environ, osEnv, Some(fn)) == fn(Env(key, default, environ, osEnv, None).value)
  {
  }

  /** A present key: its value, cleaned. */
  lemma EnvPresentKey(key: string, default: PyValue, environ: map<string, string>, osEnv: map<string, string>)
    requires key in environ
    ensures Env(key, default, environ, osEnv, None) == Ok(Str(Clean(environ[key], osEnv)))
  {
  }

  /** `env('A', '', environ)` with A = '$TestUtilsEnvironment' set to 'PASS' in the process environment. */
  lemma EnvExpandsReference()
    ensures Env("A", Str(""), map["A" := "$TestUtilsEnvironment"], map["TestUtilsEnvironment" := "PASS"], None)
            == Ok(Str("PASS"))
  {
    CleanExpandsReference();
    EnvPresentKey("A", Str(""), map["A" := "$TestUtilsEnvironment"], map["TestUtilsEnvironment" := "PASS"]);
  }

  lemma CleanExpandsReference()
    ensures Clean("$TestUtilsEnvironment", map["TestUtilsEnvironment" := "PASS"]) == "PASS"
  {
    var name := "TestUtilsEnvironment";
    assert forall k :: 0 <= k < |name| ==> IsWordChar(name[k]);
    assert "$" + name == "$TestUtilsEnvironment";
    CleanWholeReference(name, map[name := "PASS"]);
  }

  /** A whole-string reference `$name` to a set variable cleans to the variable's value. */
  lemma CleanWholeReference(name: string, osEnv: map<string, string>)
    requires name != [] && (forall k :: 0 <= k < |name| ==> IsWordChar(name[k]))
    requires name in osEnv
    ensures Clean("$" + name, osEnv) == osEnv[name]
  {
    var s := "$" + name;
    assert '#' !in s by {
      forall k | 0 <= k < |s| ensures s[k] != '#' {
        if k > 0 { assert s[k] == name[k - 1]; }
      }
    }
    assert Split(s, '#') == [s];
    assert s[|s| - 1] == name[|name| - 1];
    StripTrimmed(s);
    ExpandVarsWholeReference(name, osEnv);
  }

  /** `env('B', '', environ)` with B = 'PASS  ': trailing white space is trimmed. */
  lemma EnvTrimsTrailingSpace(osEnv: map<string, string>)
    ensures Env("B", Str(""), map["B" := "PASS  "], osEnv, None) == Ok(Str("PASS"))
  {
    CleanTrimsTrailingSpace(osEnv);
    EnvPresentKey("B", Str(""), map["B" := "PASS  "], osEnv);
  }

  lemma CleanTrimsTrailingSpace(osEnv: map<string, string>)
    ensures Clean("PASS  ", osEnv) == "PASS"
  {
    assert "PASS  " == "PASS" + [' '] + [' '];
    CleanDropsTwoSpaces("PASS", osEnv);
  }

  /** Two blanks after a word without '#', '$' or outer white space are trimmed away. */
  lemma CleanDropsTwoSpaces(t: string, osEnv: map<string, string>)
    requires t != [] && !IsSpace(t[0]) && !IsSpace(t[|t| - 1]) && '#' !in t && '$' !in t
    ensures Clean(t + [' '] + [' '], osEnv) == t
  {
    var t1 := t + [' '];
    assert t1[0] == t[0] && '#' !in t1 && '$' !in t1;
    CleanDropsTrailingSpace(t1, ' ', osEnv);
    CleanDropsTrailingSpace(t, ' ', osEnv);
    CleanOfCleanString(t, osEnv);
  }

  /** White space at the end of a value without '#' or '$' does not change its clean form. */
  lemma CleanDropsTrailingSpace(s: string, c: char, osEnv: map<string, string>)
    requires IsSpace(c) && s != [] && !IsSpace(s[0]) && '#' !in s && '$' !in s
    ensures Clean(s + [c], osEnv) == Clean(s, osEnv)
  {
    assert '#' !in s + [c];
    StripTrailingSpace(s, c);
  }

  /** `env('C', '', environ)` with C = 'PASS # SOME COMMENT': the comment is dropped. */
  lemma EnvDropsComment(osEnv: map<string, string>)
    ensures Env("C", Str(""), map["C" := "PASS # SOME COMMENT"], osEnv, None) == Ok(Str("PASS"))
  {
    var s := "PASS # SOME COMMENT";
    assert s[..5] == "PASS" + [' '];
    CleanWordBeforeComment("PASS", s, osEnv);
    EnvPresentKey("C", Str(""), map["C" := s], osEnv);
  }

  /** A clean word, one space and a comment: the word. */
  lemma CleanWordBeforeComment(w: string, s: string, osEnv: map<string, string>)
    requires w != [] && !IsSpace(w[0]) && !IsSpace(w[|w| - 1]) && '#' !in w && '$' !in w
    requires |s| > |w| + 1 && s[..|w| + 1] == w + [' '] && s[|w| + 1] == '#'
    ensures Clean(s, osEnv) == w
  {
    CleanCutsAtHash(s, |w| + 1, osEnv);
    StripTrailingSpace(w, ' ');
    StripTrimmed(w);
  }

  /** `env('D', 'PASS', environ)` with D unset: the default. */
  lemma EnvUnsetGivesDefault(environ: map<string, string>, osEnv: map<string, string>)
    requires "D" !in environ
    ensures Env("D", Str("PASS"), environ, osEnv, None) == Ok(Str("PASS"))
  {
    EnvAbsentKey("D", Str("PASS"), environ, osEnv);
  }
}
