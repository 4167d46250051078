/**
  The small pieces of Python 2 `str` behaviour that the modelled code relies on:
  `isspace`, `strip`, `lower`, `split` on a one-character separator and the
  substring test `a in b`. Strings are sequences of characters; only ASCII
  case folding is modelled, as Python 2 does for byte strings.
 */
module Strings {

  /** The characters Python 2's `str.strip()` and `int()` treat as white space. */
  predicate IsSpace(c: char) {
    c == ' ' || c == '\t' || c == '\n' || c == '\r' || c == '\U{B}' || c == '\U{C}'
  }

  /** Drops leading white space (`str.lstrip()`). */
  function TrimLeft(s: string): (r: string)
    ensures |r| <= |s| && r == s[|s| - |r|..]
    ensures forall k :: 0 <= k < |s| - |r| ==> IsSpace(s[k])
    ensures r != [] ==> !IsSpace(r[0])
  {
    if s != [] && IsSpace(s[0]) then TrimLeft(s[1..]) else s
  }

  /** Drops trailing white space (`str.rstrip()`). */
  function TrimRight(s: string): (r: string)
    ensures |r| <= |s| && r == s[..|r|]
    ensures forall k :: |r| <= k < |s| ==> IsSpace(s[k])
    ensures r != [] ==> !IsSpace(r[|r| - 1])
  {
    if s != [] && IsSpace(s[|s| - 1]) then TrimRight(s[..|s| - 1]) else s
  }

  /** `s` is `r` at position `i` with nothing but white space before and after it. */
  predicate SpaceAround(s: string, r: string, i: int) {
    && 0 <= i && i + |r| <= |s| && r == s[i..i + |r|]
    && (forall k :: 0 <= k < i ==> IsSpace(s[k]))
    && (forall k :: i + |r| <= k < |s| ==> IsSpace(s[k]))
  }

  /** `str.strip()`: the infix of `s` left after removing white space at both ends. */
  function Strip(s: string): (r: string)
    ensures r != [] ==> !IsSpace(r[0]) && !IsSpace(r[|r| - 1])
    ensures |r| <= |s|
  {
    TrimBothEnds(s);
    TrimRight(TrimLeft(s))
  }

  /** The strip is an infix of `s` with only white space before and after it. */
  lemma StripInfix(s: string)
    ensures exists i :: SpaceAround(s, Strip(s), i)
  {
    TrimBothInfix(s);
    assert SpaceAround(s, Strip(s), |s| - |TrimLeft(s)|);
  }

  /** Trimming both ends keeps the infix between the outer white space. */
  lemma TrimBothInfix(s: string)
    ensures SpaceAround(s, TrimRight(TrimLeft(s)), |s| - |TrimLeft(s)|)
  {
    var left := TrimLeft(s);
    PrefixOfSuffix(s, left, TrimRight(left), |s| - |left|);
  }

  /** A prefix `r` of the suffix `left` of `s`, with white space dropped on both sides, sits in `s` at `i`. */
  lemma PrefixOfSuffix(s: string, left: string, r: string, i: int)
    requires 0 <= i <= |s| && left == s[i..] && |r| <= |left| && r == left[..|r|]
    requires forall k :: 0 <= k < i ==> IsSpace(s[k])
    requires forall k :: |r| <= k < |left| ==> IsSpace(left[k])
    ensures SpaceAround(s, r, i)
  {
    assert r == s[i..i + |r|];
    forall k | i + |r| <= k < |s| ensures IsSpace(s[k]) {
      assert s[k] == left[k - i];
    }
  }

  /** Every character of `w` is white space. */
  predicate AllSpace(w: string) {
    forall k :: 0 <= k < |w| ==> IsSpace(w[k])
  }

  /** Leading white space before a string that starts with none is dropped, and nothing more. */
  lemma {:induction false} TrimLeftSpaces(w: string, t: string)
    requires AllSpace(w) && t != [] && !IsSpace(t[0])
    ensures TrimLeft(w + t) == t
    decreases |w|
  {
    if w == [] {
      assert w + t == t;
    } else {
      assert (w + t)[1..] == w[1..] + t;
      TrimLeftSpaces(w[1..], t);
    }
  }

  /** Trailing white space after a string that ends with none is dropped, and nothing more. */
  lemma {:induction false} TrimRightSpaces(t: string, w: string)
    requires AllSpace(w) && t != [] && !IsSpace(t[|t| - 1])
    ensures TrimRight(t + w) == t
    decreases |w|
  {
    if w == [] {
      assert t + w == t;
    } else {
      assert (t + w)[..|t + w| - 1] == t + w[..|w| - 1];
      TrimRightSpaces(t, w[..|w| - 1]);
    }
  }

  /** White space around a string with no white space at its ends is exactly what `strip` removes. */
  lemma StripPadded(w1: string, t: string, w2: string)
    requires AllSpace(w1) && AllSpace(w2) && t != [] && !IsSpace(t[0]) && !IsSpace(t[|t| - 1])
    ensures Strip(w1 + t + w2) == t
  {
    assert w1 + t + w2 == w1 + (t + w2);
    TrimLeftSpaces(w1, t + w2);
    TrimRightSpaces(t, w2);
  }

  /** Every character of the strip occurs in the string. */
  lemma StripChars(s: string)
    ensures forall c :: c in Strip(s) ==> c in s
  {
    TrimBothChars(s);
  }

  /** Trimming both ends leaves no white space at either end. */
  lemma TrimBothEnds(s: string)
    ensures var r := TrimRight(TrimLeft(s));
      && (r != [] ==> !IsSpace(r[0]) && !IsSpace(r[|r| - 1]))
      && |r| <= |s|
  {
    var left := TrimLeft(s);
    var r := TrimRight(left);
    assert r != [] ==> r[0] == left[0];
  }

  /** Trimming both ends keeps the string's characters only. */
  lemma TrimBothChars(s: string)
    ensures forall c :: c in TrimRight(TrimLeft(s)) ==> c in s
  {
    var left := TrimLeft(s);
    var r := TrimRight(left);
    assert left[0..|r|] == r && s[|s| - |left|..|s|] == left;
    SliceChars(left, 0, |r|);
    SliceChars(s, |s| - |left|, |s|);
  }

  /** Every character of a slice occurs in the whole. */
  lemma SliceChars(s: string, i: nat, j: nat)
    requires i <= j <= |s|
    ensures forall c :: c in s[i..j] ==> c in s
  {
    forall c | c in s[i..j] ensures c in s {
      var k :| 0 <= k < j - i && s[i..j][k] == c;
      assert s[i + k] == c;
    }
  }

  /** A string that already has no white space at either end is left as it is. */
  lemma StripTrimmed(s: string)
    requires s != [] ==> !IsSpace(s[0]) && !IsSpace(s[|s| - 1])
    ensures Strip(s) == s
  {
  }

  /** A character absent from `s` is absent from its strip. */
  lemma StripKeepsAbsent(s: string, c: char)
    requires c !in s
    ensures c !in Strip(s)
  {
    StripChars(s);
  }

  /** A white-space character at the end does not change the strip of a string. */
  lemma StripTrailingSpace(s: string, c: char)
    requires IsSpace(c) && s != [] && !IsSpace(s[0])
    ensures Strip(s + [c]) == Strip(s)
  {
    assert (s + [c])[..|s|] == s;
  }

  function LowerChar(c: char): char {
    if 'A' <= c <= 'Z' then (c as int - 'A' as int + 'a' as int) as char else c
  }

  /** `str.lower()` on ASCII letters; every other character is kept. */
  function Lower(s: string): (r: string)
    ensures |r| == |s|
    ensures forall i :: 0 <= i < |s| ==> r[i] == LowerChar(s[i])
  {
    seq(|s|, i requires 0 <= i < |s| => LowerChar(s[i]))
  }

  /** Python's `sub in s` for two strings. */
  predicate IsSubstring(sub: string, s: string)
    decreases |s|
  {
    sub <= s || (s != [] && IsSubstring(sub, s[1..]))
  }

  /** `sub` occurs in `s` starting at position `i`. */
  predicate OccursAt(sub: string, s: string, i: int) {
    0 <= i && i + |sub| <= |s| && s[i..i + |sub|] == sub
  }

  /** `sub in s` holds exactly when `sub` occurs in `s` at some position. */
  lemma {:induction false} IsSubstringMeaning(sub: string, s: string)
    ensures IsSubstring(sub, s) <==> exists i :: OccursAt(sub, s, i)
    decreases |s|
  {
    if IsSubstring(sub, s) {
      if sub <= s {
        assert OccursAt(sub, s, 0);
      } else {
        IsSubstringMeaning(sub, s[1..]);
        var i :| OccursAt(sub, s[1..], i);
        assert s[i + 1..i + 1 + |sub|] == s[1..][i..i + |sub|];
        assert OccursAt(sub, s, i + 1);
      }
    }
    if exists i :: OccursAt(sub, s, i) {
      var i :| OccursAt(sub, s, i);
      if i == 0 {
        assert sub <= s;
      } else {
        assert s[1..][i - 1..i - 1 + |sub|] == s[i..i + |sub|];
        assert OccursAt(sub, s[1..], i - 1);
        IsSubstringMeaning(sub, s[1..]);
      }
    }
  }

  /** The position of the first `c` in `s`. */
  function FirstIndexOf(s: string, c: char): (i: nat)
    requires c in s
    ensures i < |s| && s[i] == c && c !in s[..i]
  {
    if s[0] == c then 0 else 1 + FirstIndexOf(s[1..], c)
  }

  /** A position holding `c` with no `c` before it is the first index of `c`. */
  lemma {:induction false} FirstIndexOfAt(s: string, c: char, j: nat)
    requires j < |s| && s[j] == c && c !in s[..j]
    ensures FirstIndexOf(s, c) == j
  {
    if j > 0 {
      assert s[0] == s[..j][0];
      assert s[1..][..j - 1] == s[..j][1..];
      FirstIndexOfAt(s[1..], c, j - 1);
    }
  }

  /** `s.split(sep)` for a one-character separator: the pieces between separators, empty ones included. */
  function Split(s: string, sep: char): (parts: seq<string>)
    ensures |parts| >= 1
    ensures forall i :: 0 <= i < |parts| ==> sep !in parts[i]
    decreases |s|
  {
    if sep !in s then [s]
    else
      var i := FirstIndexOf(s, sep);
      [s[..i]] + Split(s[i + 1..], sep)
  }

  /** `sep.join(parts)`. */
  function Join(parts: seq<string>, sep: char): string
    requires |parts| >= 1
  {
    if |parts| == 1 then parts[0] else parts[0] + [sep] + Join(parts[1..], sep)
  }

  /** Joining the pieces of a split gives back the original string. */
  lemma {:induction false} JoinSplit(s: string, sep: char)
    ensures Join(Split(s, sep), sep) == s
    decreases |s|
  {
    if sep in s {
      var i := FirstIndexOf(s, sep);
      var rest := s[i + 1..];
      assert Split(s, sep) == [s[..i]] + Split(rest, sep);
      JoinSplit(rest, sep);
      JoinCons(s[..i], Split(rest, sep), sep);
      assert s == s[..i] + [sep] + rest;
    }
  }

  /** Joining a first piece and at least one more: the piece, the separator, the join of the others. */
  lemma JoinCons(part: string, parts: seq<string>, sep: char)
    requires |parts| >= 1
    ensures Join([part] + parts, sep) == part + [sep] + Join(parts, sep)
  {
    assert ([part] + parts)[1..] == parts;
  }

  /** A join whose last piece is empty ends with the separator. */
  lemma {:induction false} JoinEndsWithSep(parts: seq<string>, sep: char)
    requires |parts| >= 2 && parts[|parts| - 1] == []
    ensures var r := Join(parts, sep); r != [] && r[|r| - 1] == sep
    decreases |parts|
  {
    var tail := Join(parts[1..], sep);
    assert Join(parts, sep) == parts[0] + [sep] + tail;
    if |parts| > 2 {
      JoinEndsWithSep(parts[1..], sep);
    } else {
      assert tail == parts[1] == [];
    }
  }

  /** Splitting a join of separator-free pieces gives back the pieces. */
  lemma {:induction false} SplitJoin(parts: seq<string>, sep: char)
    requires |parts| >= 1
    requires forall i :: 0 <= i < |parts| ==> sep !in parts[i]
    ensures Split(Join(parts, sep), sep) == parts
  {
    if |parts| > 1 {
      var rest := Join(parts[1..], sep);
      assert parts == [parts[0]] + parts[1..];
      JoinCons(parts[0], parts[1..], sep);
      SplitCons(parts[0], sep, rest);
      SplitJoin(parts[1..], sep);
    }
  }

  /** The first piece of a split ends at the first separator. */
  lemma SplitFirstPiece(s: string, sep: char, j: nat)
    requires j < |s| && s[j] == sep && sep !in s[..j]
    ensures Split(s, sep)[0] == s[..j]
  {
    FirstIndexOfAt(s, sep, j);
  }

  /** A separator-free piece followed by the separator splits off as the first piece. */
  lemma SplitCons(a: string, sep: char, b: string)
    requires sep !in a
    ensures Split(a + [sep] + b, sep) == [a] + Split(b, sep)
  {
    var s := a + [sep] + b;
    assert s[..|a|] == a && s[|a|] == sep;
    FirstIndexOfAt(s, sep, |a|);
    assert s[|a| + 1..] == b;
  }

  /** The first piece of a split is the prefix of `s` before the first separator. */
  lemma FirstPieceIsPrefix(s: string, sep: char)
    ensures Split(s, sep)[0] <= s
    ensures sep !in Split(s, sep)[0]
    ensures |Split(s, sep)[0]| < |s| ==> s[|Split(s, sep)[0]|] == sep
  {
  }
}
