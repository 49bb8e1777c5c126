/**
 * The JavaScript string operations the server relies on, written out on
 * `seq<char>`: whitespace and `trim`, ASCII lower-casing, substring search,
 * literal `replace(/…/g, …)`, `split` and `join`, decimal rendering and the
 * UTF-16 `length` of a string.
 */
module Text {
  import opened Wrappers

  /** The characters JavaScript's `trim` removes and the regex class `\s` matches
      (WhiteSpace and LineTerminator of ECMAScript). */
  predicate IsJsSpace(c: char) {
    || c == '\t' || c == '\n' || c == '\U{000B}' || c == '\U{000C}' || c == '\r' || c == ' '
    || c == '\U{00A0}' || c == '\U{1680}' || ('\U{2000}' <= c <= '\U{200A}')
    || c == '\U{2028}' || c == '\U{2029}' || c == '\U{202F}' || c == '\U{205F}'
    || c == '\U{3000}' || c == '\U{FEFF}'
  }

  predicate AllSpace(s: string) {
    forall i :: 0 <= i < |s| ==> IsJsSpace(s[i])
  }

  /** The regex class `\w`. */
  predicate IsWordChar(c: char) {
    ('a' <= c <= 'z') || ('A' <= c <= 'Z') || ('0' <= c <= '9') || c == '_'
  }

  /** Leading whitespace removed: the result is a suffix of `s`, what was cut is all
      whitespace, and the result does not start with whitespace. */
  function TrimStart(s: string): (r: string)
    ensures |r| <= |s| && r == s[|s| - |r|..]
    ensures AllSpace(s[..|s| - |r|])
    ensures r != [] ==> !IsJsSpace(r[0])
  {
    if s != [] && IsJsSpace(s[0]) then
      var r := TrimStart(s[1..]);
      assert s[1..][..|s[1..]| - |r|] == s[1..|s| - |r|];
      r
    else s
  }

  /** Trailing whitespace removed, symmetrically to TrimStart. */
  function TrimEnd(s: string): (r: string)
    ensures |r| <= |s| && r == s[..|r|]
    ensures AllSpace(s[|r|..])
    ensures r != [] ==> !IsJsSpace(r[|r| - 1])
  {
    if s != [] && IsJsSpace(s[|s| - 1]) then
      var t := s[..|s| - 1];
      var r := TrimEnd(t);
      assert s[|r|..] == t[|r|..] + [s[|s| - 1]];
      assert r == s[..|r|];
      r
    else s
  }

  /** `String.prototype.trim`. */
  function Trim(s: string): (r: string)
    ensures exists a: nat, b: nat :: a <= b <= |s| && r == s[a..b] && AllSpace(s[..a]) && AllSpace(s[b..])
    ensures r == [] <==> AllSpace(s)
    ensures r != [] ==> !IsJsSpace(r[0]) && !IsJsSpace(r[|r| - 1])
  {
    var t := TrimStart(s);
    var r := TrimEnd(t);
    TwoCuts(s, t, r);
    r
  }

  /** Cutting whitespace from the front of `s` to get `t`, then from the back of
      `t` to get `r`, keeps a slice of `s` with whitespace on both sides. */
  lemma TwoCuts(s: string, t: string, r: string)
    requires |t| <= |s| && t == s[|s| - |t|..] && AllSpace(s[..|s| - |t|])
    requires t != [] ==> !IsJsSpace(t[0])
    requires |r| <= |t| && r == t[..|r|] && AllSpace(t[|r|..])
    requires r != [] ==> !IsJsSpace(r[|r| - 1])
    ensures exists a: nat, b: nat :: a <= b <= |s| && r == s[a..b] && AllSpace(s[..a]) && AllSpace(s[b..])
    ensures r == [] <==> AllSpace(s)
    ensures r != [] ==> !IsJsSpace(r[0]) && !IsJsSpace(r[|r| - 1])
  {
    var a := |s| - |t|;
    var b := a + |r|;
    assert r == s[a..b];
    assert s[b..] == t[|r|..];
    assert r == [] ==> s == s[..a] + t;
    if r != [] {
      assert r[0] == t[0] == s[a];
    }
  }

  /** One character of `toLowerCase`, for the ASCII letters only. */
  function LowerChar(c: char): char {
    if 'A' <= c <= 'Z' then (c as int + 32) as char else c
  }

  function ToLower(s: string): (r: string)
    ensures |r| == |s|
    ensures forall i :: 0 <= i < |s| ==> r[i] == LowerChar(s[i])
  {
    if s == [] then [] else [LowerChar(s[0])] + ToLower(s[1..])
  }

  /** `p` occurs in `s` at index `i`. */
  predicate StartsAt(s: string, i: nat, p: string) {
    i + |p| <= |s| && s[i..i + |p|] == p
  }

  /** A piece placed after `a` occurs right after it, and `a` is kept in front. */
  lemma StartsAtMiddle(a: string, p: string, b: string)
    ensures StartsAt(a + p + b, |a|, p) && (a + p + b)[..|a|] == a
  {
    assert (a + p + b)[|a|..|a| + |p|] == p;
  }

  /** Three pieces placed in a row after `a` occur there together. */
  lemma StartsAtThree(a: string, p: string, q: string, t: string, b: string)
    ensures StartsAt(a + p + q + t + b, |a|, p + q + t)
  {
    assert a + p + q + t + b == a + (p + q + t) + b;
    StartsAtMiddle(a, p + q + t, b);
  }

  /** Seven pieces in a row: cutting after the first leaves the other six. */
  lemma SplitAfterFirst(a: string, b: string, c: string, d: string, e: string, f: string, g: string)
    ensures |a| <= |a + b + c + d + e + f + g|
    ensures (a + b + c + d + e + f + g)[..|a|] == a
    ensures (a + b + c + d + e + f + g)[|a|..] == b + c + d + e + f + g
  {
    assert a + b + c + d + e + f + g == a + (b + c + d + e + f + g);
  }

  /** An occurrence of `p` followed by one of `q` is an occurrence of `p + q`. */
  lemma StartsAtAdjacent(s: string, i: nat, p: string, q: string)
    requires StartsAt(s, i, p) && StartsAt(s, i + |p|, q)
    ensures StartsAt(s, i, p + q)
  {
    assert s[i..i + |p| + |q|] == s[i..i + |p|] + s[i + |p|..i + |p| + |q|];
  }

  /** An occurrence inside a prefix that `r` shares with `s` occurs in `r` too. */
  lemma StartsAtKept(s: string, r: string, n: nat, i: nat, p: string)
    requires n <= |s| && n <= |r| && r[..n] == s[..n]
    requires StartsAt(s, i, p) && i + |p| <= n
    ensures StartsAt(r, i, p)
  {
    assert r[i..i + |p|] == r[..n][i..i + |p|];
    assert s[i..i + |p|] == s[..n][i..i + |p|];
  }

  /** An occurrence of `p + q` is an occurrence of `p`. */
  lemma ContainsPrefix(s: string, i: nat, p: string, q: string)
    requires StartsAt(s, i, p + q)
    ensures StartsAt(s, i, p)
  {
    assert s[i..i + |p|] == s[i..i + |p + q|][..|p|];
  }

  /** `s.includes(p)`. */
  predicate Contains(s: string, p: string) {
    exists i: nat :: i <= |s| && StartsAt(s, i, p)
  }

  /** `s.indexOf(p, from)`: the first occurrence of `p` at or after `from`. */
  function IndexOfFrom(s: string, from: nat, p: string): (r: Option<nat>)
    decreases |s| - from
    ensures r.Some? ==> from <= r.value && StartsAt(s, r.value, p)
    ensures r.Some? ==> forall j: nat :: from <= j < r.value ==> !StartsAt(s, j, p)
    ensures r.None? ==> forall j: nat :: from <= j ==> !StartsAt(s, j, p)
  {
    if from + |p| > |s| then None
    else if s[from..from + |p|] == p then Some(from)
    else IndexOfFrom(s, from + 1, p)
  }

  /** `s.replace(/pat/g, rep)` for a literal pattern: every non-overlapping
      occurrence, scanning left to right, is replaced. */
  function ReplaceAll(s: string, pat: string, rep: string): (r: string)
    requires pat != []
    decreases |s|
    ensures !Contains(s, pat) ==> r == s
  {
    if |s| < |pat| then s
    else if s[..|pat|] == pat then
      assert StartsAt(s, 0, pat);
      rep + ReplaceAll(s[|pat|..], pat, rep)
    else
      var tail := ReplaceAll(s[1..], pat, rep);
      assert !Contains(s, pat) ==> !Contains(s[1..], pat) by {
        if Contains(s[1..], pat) {
          var i: nat :| i <= |s[1..]| && StartsAt(s[1..], i, pat);
          assert StartsAt(s, i + 1, pat);
        }
      }
      [s[0]] + tail
  }

  /** Scanning on from the first occurrence of `pat`: the text before it is
      kept, the occurrence becomes `rep`, and the rest is replaced in turn.
      With the unchanged case above this fixes the result on every input. */
  lemma ReplaceAllAtFirst(s: string, pat: string, rep: string, i: nat)
    requires pat != [] && StartsAt(s, i, pat)
    requires forall j: nat :: j < i ==> !StartsAt(s, j, pat)
    ensures ReplaceAll(s, pat, rep) == s[..i] + rep + ReplaceAll(s[i + |pat|..], pat, rep)
  {
    NoneBeforeFirst(s, pat, i);
    ReplaceAllAtNext(s, pat, rep, i);
  }

  /** No occurrence of `pat` starts in the first `i` positions, as a recursion
      the induction below can follow. */
  predicate NoneBefore(s: string, pat: string, i: nat)
    decreases i
  {
    i == 0 || (s != [] && !StartsAt(s, 0, pat) && NoneBefore(s[1..], pat, i - 1))
  }

  lemma {:induction false} NoneBeforeFirst(s: string, pat: string, i: nat)
    requires pat != [] && StartsAt(s, i, pat)
    requires forall j: nat :: j < i ==> !StartsAt(s, j, pat)
    ensures NoneBefore(s, pat, i)
    decreases i
  {
    if i > 0 {
      assert !StartsAt(s, 0, pat);
      FirstAfterHead(s, pat, i);
      NoneBeforeFirst(s[1..], pat, i - 1);
    }
  }

  /** The equation of the first-occurrence lemma, for the text `s` cut at `i`. */
  predicate ReplacedAt(s: string, pat: string, rep: string, i: nat)
    requires pat != [] && i + |pat| <= |s|
  {
    ReplaceAll(s, pat, rep) == s[..i] + rep + ReplaceAll(s[i + |pat|..], pat, rep)
  }

  lemma {:induction false} ReplaceAllAtNext(s: string, pat: string, rep: string, i: nat)
    requires pat != [] && StartsAt(s, i, pat) && NoneBefore(s, pat, i)
    ensures ReplacedAt(s, pat, rep, i)
    decreases i, 1
  {
    if i == 0 {
      ReplaceAllAtZero(s, pat, rep, i);
    } else {
      ReplaceAllAtLater(s, pat, rep, i);
    }
  }

  lemma {:induction false} ReplaceAllAtLater(s: string, pat: string, rep: string, i: nat)
    requires 1 <= i && pat != [] && StartsAt(s, i, pat) && NoneBefore(s, pat, i)
    ensures ReplacedAt(s, pat, rep, i)
    decreases i, 0
  {
    NoneBeforeTail(s, pat, i);
    ReplaceAllAtNext(s[1..], pat, rep, i - 1);
    ReplaceAllAtStep(s, pat, rep, i);
  }

  /** The step of the induction above: the tail's equation gives the whole text's. */
  lemma ReplaceAllAtStep(s: string, pat: string, rep: string, i: nat)
    requires pat != [] && 1 <= i && i + |pat| <= |s| && !StartsAt(s, 0, pat)
    requires ReplacedAt(s[1..], pat, rep, i - 1)
    ensures ReplacedAt(s, pat, rep, i)
  {
    var t := s[1..];
    ReplaceAllKeepsHead(s, pat, rep);
    var u := t[i - 1 + |pat|..];
    assert u == s[i + |pat|..];
    HeadRegroup(s, t, i, rep, ReplaceAll(u, pat, rep));
  }

  /** The base case of the induction above. */
  lemma ReplaceAllAtZero(s: string, pat: string, rep: string, i: nat)
    requires i == 0 && pat != [] && StartsAt(s, i, pat)
    ensures ReplacedAt(s, pat, rep, i)
  {
    ReplaceAllAtHead(s, pat, rep, i);
    EmptyFront(s, i, rep, ReplaceAll(s[i + |pat|..], pat, rep));
  }

  /** What the induction above carries from the text to its tail. */
  lemma NoneBeforeTail(s: string, pat: string, i: nat)
    requires 1 <= i && pat != [] && StartsAt(s, i, pat) && NoneBefore(s, pat, i)
    ensures StartsAt(s[1..], i - 1, pat) && NoneBefore(s[1..], pat, i - 1)
    ensures !StartsAt(s, 0, pat) && i + |pat| <= |s|
  {
    StartsAtTail(s, pat, i);
  }

  /** An occurrence at the head is replaced. */
  lemma ReplaceAllAtHead(s: string, pat: string, rep: string, i: nat)
    requires i == 0 && pat != [] && StartsAt(s, i, pat)
    ensures ReplaceAll(s, pat, rep) == rep + ReplaceAll(s[i + |pat|..], pat, rep)
  {
    assert |pat| <= |s| && s[..|pat|] == pat;
    assert s[i + |pat|..] == s[|pat|..];
  }

  /** Nothing kept in front. */
  lemma EmptyFront(s: string, i: nat, rep: string, rest: string)
    requires i == 0
    ensures s[..i] + rep + rest == rep + rest
  {
    assert s[..i] == [];
  }

  /** An occurrence past the head is one in the tail. */
  lemma StartsAtTail(s: string, pat: string, i: nat)
    requires 1 <= i && StartsAt(s, i, pat)
    ensures StartsAt(s[1..], i - 1, pat)
  {
    assert s[1..][i - 1..i - 1 + |pat|] == s[i..i + |pat|];
  }

  /** Putting the head back in front of a cut of the tail. */
  lemma HeadRegroup(s: string, t: string, i: nat, rep: string, rest: string)
    requires s != [] && t == s[1..] && 1 <= i <= |s|
    ensures [s[0]] + (t[..i - 1] + rep + rest) == s[..i] + rep + rest
  {
    assert s[..i] == [s[0]] + t[..i - 1];
  }

  /** The first occurrence of `pat` at `i >= 1` is, after the head, the first one at `i - 1`. */
  lemma FirstAfterHead(s: string, pat: string, i: nat)
    requires pat != [] && 1 <= i && StartsAt(s, i, pat)
    requires forall j: nat :: j < i ==> !StartsAt(s, j, pat)
    ensures StartsAt(s[1..], i - 1, pat)
    ensures forall j: nat :: j < i - 1 ==> !StartsAt(s[1..], j, pat)
  {
    StartsAtTail(s, pat, i);
    forall j: nat | j < i - 1
      ensures !StartsAt(s[1..], j, pat)
    {
      assert !StartsAt(s, j + 1, pat);
      if j + |pat| <= |s[1..]| {
        assert s[1..][j..j + |pat|] == s[j + 1..j + 1 + |pat|];
      }
    }
  }

  /** Where `pat` does not start at the head, the head is kept. */
  lemma ReplaceAllKeepsHead(s: string, pat: string, rep: string)
    requires pat != [] && s != [] && !StartsAt(s, 0, pat)
    ensures ReplaceAll(s, pat, rep) == [s[0]] + ReplaceAll(s[1..], pat, rep)
  {
    if |s| >= |pat| {
      assert s[..|pat|] != pat;
    }
  }

  /** Up to its first `pat[0]`, the result of the replacement is the input:
      every replacement starts with that character. */
  lemma {:induction false} ReplaceAllPlainPrefix(s: string, pat: string, rep: string, m: nat)
    requires pat != [] && rep != [] && rep[0] == pat[0]
    requires m <= |ReplaceAll(s, pat, rep)|
    ensures pat[0] !in ReplaceAll(s, pat, rep)[..m] ==> m <= |s| && ReplaceAll(s, pat, rep)[..m] == s[..m]
    decreases |s|
  {
    var r := ReplaceAll(s, pat, rep);
    if m > 0 && |s| >= |pat| {
      if s[..|pat|] == pat {
        assert r[..m][0] == pat[0];
      } else {
        var tail := ReplaceAll(s[1..], pat, rep);
        assert r == [s[0]] + tail;
        assert r[..m] == [s[0]] + tail[..m - 1];
        ReplaceAllPlainPrefix(s[1..], pat, rep, m - 1);
      }
    }
  }

  /** An occurrence past a prefix is an occurrence in what follows it. */
  lemma StartsAtAfter(a: string, t: string, j: nat, p: string)
    requires |a| <= j && StartsAt(a + t, j, p)
    ensures StartsAt(t, j - |a|, p)
  {
    assert (a + t)[j..j + |p|] == t[j - |a|..j - |a| + |p|];
  }

  /** A text that begins with the replacement and continues with text free of
      the pattern is free of the pattern. */
  lemma ReplacedHeadFree(pat: string, rep: string, tail: string)
    requires |pat| >= 2 && |rep| >= 2 && rep[0] == pat[0] && rep[1] != pat[1]
    requires pat[0] !in rep[1..]
    requires !Contains(tail, pat)
    ensures !Contains(rep + tail, pat)
  {
    forall j: nat | j <= |rep + tail| ensures !StartsAt(rep + tail, j, pat) {
      if j >= |rep| && StartsAt(rep + tail, j, pat) {
        StartsAtAfter(rep, tail, j, pat);
      }
    }
  }

  /** If the pattern starts at a kept first character, and the text after it
      agrees with the input up to its first `pat[0]`, then the pattern already
      started the input. */
  lemma KeptHeadStart(s: string, pat: string, tail: string)
    requires |pat| >= 2 && |s| >= |pat|
    requires pat[0] !in pat[1..]
    requires |pat| - 1 <= |tail| ==> pat[0] !in tail[..|pat| - 1] ==> tail[..|pat| - 1] == s[1..][..|pat| - 1]
    ensures StartsAt([s[0]] + tail, 0, pat) ==> s[..|pat|] == pat
  {
    var r := [s[0]] + tail;
    if StartsAt(r, 0, pat) {
      assert tail[..|pat| - 1] == r[1..|pat|] == pat[1..];
      assert s[..|pat|] == [s[0]] + s[1..][..|pat| - 1];
    }
  }

  /** A kept first character followed by a pattern-free result is pattern-free,
      unless the pattern started at that character in the input. */
  lemma KeptHeadFree(s: string, pat: string, rep: string)
    requires |pat| >= 2 && |s| >= |pat| && s[..|pat|] != pat
    requires rep != [] && rep[0] == pat[0] && pat[0] !in pat[1..]
    requires !Contains(ReplaceAll(s[1..], pat, rep), pat)
    ensures !Contains([s[0]] + ReplaceAll(s[1..], pat, rep), pat)
  {
    var tail := ReplaceAll(s[1..], pat, rep);
    if |pat| - 1 <= |tail| {
      ReplaceAllPlainPrefix(s[1..], pat, rep, |pat| - 1);
    }
    KeptHeadStart(s, pat, tail);
    forall j: nat | j <= |[s[0]] + tail| ensures !StartsAt([s[0]] + tail, j, pat) {
      if j >= 1 && StartsAt([s[0]] + tail, j, pat) {
        StartsAtAfter([s[0]], tail, j, pat);
      }
    }
  }

  /** When the pattern's first character starts the replacement and appears
      nowhere else in either, and the two differ in their second character, no
      occurrence of the pattern is left: each one was replaced. */
  lemma {:induction false} ReplaceAllRemoves(s: string, pat: string, rep: string)
    requires |pat| >= 2 && |rep| >= 2 && rep[0] == pat[0] && rep[1] != pat[1]
    requires pat[0] !in pat[1..] && pat[0] !in rep[1..]
    ensures !Contains(ReplaceAll(s, pat, rep), pat)
    decreases |s|
  {
    if |s| < |pat| {
      assert ReplaceAll(s, pat, rep) == s;
      forall j: nat | j <= |s| ensures !StartsAt(s, j, pat) {
      }
    } else if s[..|pat|] == pat {
      ReplaceAllRemoves(s[|pat|..], pat, rep);
      ReplacedHeadFree(pat, rep, ReplaceAll(s[|pat|..], pat, rep));
    } else {
      ReplaceAllRemoves(s[1..], pat, rep);
      KeptHeadFree(s, pat, rep);
    }
  }

  /** `parts.join(sep)`. */
  function Join(parts: seq<string>, sep: string): (r: string)
    ensures parts == [] ==> r == []
    ensures |parts| == 1 ==> r == parts[0]
  {
    if |parts| == 0 then ""
    else if |parts| == 1 then parts[0]
    else parts[0] + sep + Join(parts[1..], sep)
  }

  /** `s.split(sep)` for a one-character separator: the pieces between the
      separators, in order; joining them back with the separator gives `s`. */
  function Split(s: string, sep: char): (parts: seq<string>)
    decreases |s|
    ensures |parts| >= 1
    ensures forall k :: 0 <= k < |parts| ==> sep !in parts[k]
    ensures Join(parts, [sep]) == s
  {
    if s == [] then [""]
    else
      var rest := Split(s[1..], sep);
      if s[0] == sep then
        assert Join([""] + rest, [sep]) == [sep] + Join(rest, [sep]);
        [""] + rest
      else
        var parts := [[s[0]] + rest[0]] + rest[1..];
        assert parts[1..] == rest[1..];
        assert Join(parts, [sep]) == [s[0]] + Join(rest, [sep]);
        parts
  }

  lemma {:induction false} SplitConcat(a: string, sep: char, b: string)
    ensures Split(a + [sep] + b, sep) == Split(a, sep) + Split(b, sep)
    decreases |a|
  {
    if a == [] {
      assert a + [sep] + b == [sep] + b;
      assert ([sep] + b)[1..] == b;
    } else {
      assert (a + [sep] + b)[1..] == a[1..] + [sep] + b;
      SplitConcat(a[1..], sep, b);
    }
  }

  lemma {:induction false} SplitWithout(s: string, sep: char)
    requires sep !in s
    ensures Split(s, sep) == [s]
    decreases |s|
  {
    if s != [] {
      SplitWithout(s[1..], sep);
    }
  }

  /** Splitting undoes joining when no part contains the separator. */
  lemma {:induction false} SplitJoin(parts: seq<string>, sep: char)
    requires |parts| >= 1
    requires forall k :: 0 <= k < |parts| ==> sep !in parts[k]
    ensures Split(Join(parts, [sep]), sep) == parts
    decreases |parts|
  {
    SplitWithout(parts[0], sep);
    if |parts| > 1 {
      SplitJoin(parts[1..], sep);
      SplitConcat(parts[0], sep, Join(parts[1..], [sep]));
      assert parts == [parts[0]] + parts[1..];
    }
  }

  function Digit(d: nat): (c: char)
    requires d < 10
    ensures '0' <= c <= '9'
  {
    ("0123456789")[d]
  }

  /** The decimal rendering of a natural number, as template literals print it. */
  function NatToString(n: nat): (r: string)
    ensures |r| >= 1
    ensures forall i :: 0 <= i < |r| ==> '0' <= r[i] <= '9'
    ensures r[0] == '0' <==> n == 0
  {
    if n < 10 then [Digit(n)] else NatToString(n / 10) + [Digit(n % 10)]
  }

  function IntToString(n: int): (r: string)
    ensures |r| >= 1
  {
    if n < 0 then "-" + NatToString(-n) else NatToString(n)
  }

  /** `s.length` in JavaScript counts UTF-16 code units: a character outside the
      Basic Multilingual Plane counts twice. */
  function Utf16Length(s: string): (n: nat)
    ensures |s| <= n <= 2 * |s|
  {
    if s == [] then 0
    else (if s[0] as int > 0xFFFF then 2 else 1) + Utf16Length(s[1..])
  }

  /** `s.slice(0, n)`, counting characters. */
  function Take(s: string, n: nat): (r: string)
    ensures |r| == if |s| <= n then |s| else n
    ensures r == s[..|r|]
  {
    if |s| <= n then s else s[..n]
  }
}
