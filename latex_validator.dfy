/**
 * server/services/latexValidator.js: a structural check of a LaTeX document.
 *
 * The regular expressions of the source are hand-written here as predicates on
 * the string. ValidationErrors is the specification of the error list;
 * ValidateTex builds that list the way the source does, with pushes, the
 * brace-depth loop with its early stop, and a loop over the denylist.
 */
module LatexValidator {
  import opened Text

  const EmptyError := "Empty LaTeX document"
  const MissingClassError := "Missing \\documentclass{...}"
  const MissingBeginError := "Missing \\begin{document}"
  const MissingEndError := "Missing \\end{document}"
  const TooManyClosingError := "Unbalanced braces (too many })"
  const MissingClosingError := "Unbalanced braces (missing })"
  const UnsafePrefix := "Prohibited or suspicious LaTeX construct: "

  /** The lower-case literal `p` occurs at `i`, ignoring the case of ASCII letters
      (the regex flag `i`, which folds no other character onto an ASCII one). */
  predicate StartsAtIgnoreCase(s: string, i: nat, p: string) {
    i + |p| <= |s| && forall k :: 0 <= k < |p| ==> LowerChar(s[i + k]) == p[k]
  }

  predicate ContainsIgnoreCase(s: string, p: string) {
    exists i: nat :: i <= |s| && StartsAtIgnoreCase(s, i, p)
  }

  /** `\{[^}]+\}` starting at the brace at `j`: at least one character that is not
      `}`, then a `}` (the first `}` after `j + 1` closes it). */
  predicate ClosedArgumentAt(s: string, j: nat) {
    && j + 1 < |s| && s[j] == '{' && s[j + 1] != '}'
    && exists k: nat :: j + 1 < k < |s| && s[k] == '}'
  }

  /** `/\\documentclass\s*\{[^}]+\}/i` matches at `i`. */
  predicate DocumentClassAt(s: string, i: nat) {
    && StartsAtIgnoreCase(s, i, "\\documentclass")
    && exists j: nat :: i + 14 <= j < |s| && AllSpace(s[i + 14..j]) && ClosedArgumentAt(s, j)
  }

  predicate HasDocumentClass(s: string) {
    exists i: nat :: i < |s| && DocumentClassAt(s, i)
  }

  predicate HasBegin(s: string) {
    ContainsIgnoreCase(s, "\\begin{document}")
  }

  predicate HasEnd(s: string) {
    ContainsIgnoreCase(s, "\\end{document}")
  }

  // ---------------------------------------------------------------- braces

  function Step(c: char): int {
    if c == '{' then 1 else if c == '}' then -1 else 0
  }

  /** The brace depth after reading `s`: opening braces minus closing braces. */
  function Depth(s: string): int {
    if s == [] then 0 else Depth(s[..|s| - 1]) + Step(s[|s| - 1])
  }

  /** Some prefix of `s` closes more braces than it opens. */
  predicate Overclosed(s: string) {
    exists k: nat :: k <= |s| && Depth(s[..k]) < 0
  }

  /** The brace verdict: "too many" as soon as some prefix goes below zero (and
      nothing else), otherwise "missing" exactly when braces remain open. */
  function BraceErrors(s: string): seq<string> {
    if Overclosed(s) then [TooManyClosingError]
    else if Depth(s) > 0 then [MissingClosingError]
    else []
  }

  // ---------------------------------------------------------------- denylist

  datatype Unsafe = Write18 | InputPipe | ImmediateWrite | OpenOut | Read

  /** The denylist, in the order the source tests it. */
  const UnsafePatterns: seq<Unsafe> := [Write18, InputPipe, ImmediateWrite, OpenOut, Read]

  /** The pattern as `${rx}` prints it inside the error message. */
  function PatternText(p: Unsafe): string {
    match p
    case Write18 => "/\\\\write18\\b/"
    case InputPipe => "/\\\\input\\s*\\{.*\\|.*\\}/"
    case ImmediateWrite => "/\\\\immediate\\\\write\\b/"
    case OpenOut => "/\\\\openout\\b/"
    case Read => "/\\\\read\\b/"
  }

  function UnsafeMessage(p: Unsafe): string {
    UnsafePrefix + PatternText(p)
  }

  /** `\b` right after a literal that ends in a word character. */
  predicate BoundaryAt(s: string, k: nat) {
    k >= |s| || !IsWordChar(s[k])
  }

  predicate IsLineTerminator(c: char) {
    c == '\n' || c == '\r' || c == '\U{2028}' || c == '\U{2029}'
  }

  /** `.*\|.*\}` from index `a`: a `|`, then later a `}`, with no line
      terminator in between or before (`.` does not match one). */
  predicate PipeThenCloseFrom(s: string, a: nat) {
    exists m: nat ::
      && a < m < |s| && s[m] == '}'
      && (forall t :: a <= t < m ==> !IsLineTerminator(s[t]))
      && (exists k: nat :: a <= k < m && s[k] == '|')
  }

  /** The pattern `p` matches at index `i` (all five are case-sensitive). */
  predicate UnsafeAt(p: Unsafe, s: string, i: nat) {
    match p
    case Write18 => StartsAt(s, i, "\\write18") && BoundaryAt(s, i + 8)
    case InputPipe =>
      && StartsAt(s, i, "\\input")
      && exists j: nat :: i + 6 <= j < |s| && AllSpace(s[i + 6..j]) && s[j] == '{' && PipeThenCloseFrom(s, j + 1)
    case ImmediateWrite => StartsAt(s, i, "\\immediate\\write") && BoundaryAt(s, i + 16)
    case OpenOut => StartsAt(s, i, "\\openout") && BoundaryAt(s, i + 8)
    case Read => StartsAt(s, i, "\\read") && BoundaryAt(s, i + 5)
  }

  /** `rx.test(s)`. */
  predicate UnsafeMatches(p: Unsafe, s: string) {
    exists i: nat :: i < |s| && UnsafeAt(p, s, i)
  }

  /** One message per pattern of `ps` that matches, in the order of `ps`. */
  function UnsafeErrors(s: string, ps: seq<Unsafe>): seq<string> {
    if ps == [] then []
    else
      UnsafeErrors(s, ps[..|ps| - 1])
      + (if UnsafeMatches(ps[|ps| - 1], s) then [UnsafeMessage(ps[|ps| - 1])] else [])
  }

  // ---------------------------------------------------------------- verdict

  /** The errors of a non-blank document, before the denylist. */
  function StructuralErrors(s: string): seq<string> {
    StructuralList(HasDocumentClass(s), HasBegin(s), HasEnd(s), BraceErrors(s))
  }

  /** The structural messages for the three marker verdicts and the brace errors. */
  function StructuralList(hasClass: bool, hasBegin: bool, hasEnd: bool, braceErrors: seq<string>): seq<string> {
    (if hasClass then [] else [MissingClassError])
    + (if hasBegin then [] else [MissingBeginError])
    + (if hasEnd then [] else [MissingEndError])
    + braceErrors
  }

  /** The error list validateTex returns. */
  function ValidationErrors(s: string): seq<string> {
    if AllSpace(s) then [EmptyError]
    else StructuralErrors(s) + UnsafeErrors(s, UnsafePatterns)
  }

  predicate IsValid(s: string) {
    ValidationErrors(s) == []
  }

  /** The brace loop: depth counts `{` up and `}` down; the first time it goes
      below zero the "too many" error is recorded and the scan stops. */
  method CheckBraces(tex: string) returns (errors: seq<string>)
    ensures errors == BraceErrors(tex)
  {
    errors := [];
    var depth := 0;
    var i := 0;
    while i < |tex|
      invariant 0 <= i <= |tex|
      invariant depth == Depth(tex[..i])
      invariant forall k: nat :: k <= i ==> Depth(tex[..k]) >= 0
      invariant errors == []
    {
      assert tex[..i + 1][..i] == tex[..i];
      var ch := tex[i];
      if ch == '{' {
        depth := depth + 1;
      } else if ch == '}' {
        depth := depth - 1;
        if depth < 0 {
          assert Depth(tex[..i + 1]) < 0;
          errors := errors + [TooManyClosingError];
          break;
        }
      }
      i := i + 1;
    }
    if depth > 0 {
      errors := errors + [MissingClosingError];
    }
    assert i == |tex| ==> tex[..i] == tex;
  }

  /** The denylist loop: one message per matching pattern, in list order. */
  method CheckUnsafe(tex: string) returns (errors: seq<string>)
    ensures errors == UnsafeErrors(tex, UnsafePatterns)
  {
    errors := [];
    var p := 0;
    while p < |UnsafePatterns|
      invariant 0 <= p <= |UnsafePatterns|
      invariant errors == UnsafeErrors(tex, UnsafePatterns[..p])
    {
      assert UnsafePatterns[..p + 1][..p] == UnsafePatterns[..p];
      if UnsafeMatches(UnsafePatterns[p], tex) {
        errors := errors + [UnsafeMessage(UnsafePatterns[p])];
      }
      p := p + 1;
    }
    assert UnsafePatterns[..p] == UnsafePatterns;
  }

  method ValidateTex(tex: string) returns (valid: bool, errors: seq<string>)
    ensures errors == ValidationErrors(tex)
    ensures valid <==> errors == []
    ensures Trim(tex) == [] ==> !valid && errors == [EmptyError]
  {
    errors := [];
    if |Trim(tex)| == 0 {
      errors := errors + [EmptyError];
      assert ValidationErrors(tex) == [EmptyError] by { assert AllSpace(tex); }
      return false, errors;
    }
    assert ValidationErrors(tex) == StructuralErrors(tex) + UnsafeErrors(tex, UnsafePatterns) by {
      assert !AllSpace(tex);
    }

    ghost var classPart := if HasDocumentClass(tex) then [] else [MissingClassError];
    ghost var beginPart := if HasBegin(tex) then [] else [MissingBeginError];
    ghost var endPart := if HasEnd(tex) then [] else [MissingEndError];
    if !HasDocumentClass(tex) {
      errors := errors + [MissingClassError];
    }
    assert errors == classPart;
    if !HasBegin(tex) {
      errors := errors + [MissingBeginError];
    }
    assert errors == classPart + beginPart;
    if !HasEnd(tex) {
      errors := errors + [MissingEndError];
    }
    assert errors == classPart + beginPart + endPart;

    var braceErrors := CheckBraces(tex);
    errors := errors + braceErrors;
    assert errors == StructuralErrors(tex);
    var unsafeErrors := CheckUnsafe(tex);
    errors := errors + unsafeErrors;
    valid := |errors| == 0;
  }

  // ---------------------------------------------------------------- properties

  /** The two brace examples: `{}}` goes below zero and only "too many" is
      reported; `{{}` ends one level deep and only "missing" is reported. */
  lemma BraceExamples()
    ensures BraceErrors("{}}") == [TooManyClosingError]
    ensures BraceErrors("{{}") == [MissingClosingError]
  {
    var a := "{}}";
    assert a[..3] == a && a[..2] == "{}" && "{}"[..1] == "{" && "{"[..0] == [];
    assert Depth("{") == 1 && Depth("{}") == 0 && Depth(a) == -1;
    assert Depth(a[..3]) < 0;
    var b := "{{}";
    assert b[..0] == [] && b[..1] == "{" && b[..2] == "{{" && b[..3] == b;
    assert "{{"[..1] == "{";
    assert Depth("{{") == 2 && Depth(b) == 1;
    forall k: nat | k <= 3 ensures Depth(b[..k]) >= 0 {
      assert k == 0 || k == 1 || k == 2 || k == 3;
    }
  }

  lemma {:induction false} UnsafeErrorsNone(s: string, ps: seq<Unsafe>)
    requires forall k :: 0 <= k < |ps| ==> !UnsafeMatches(ps[k], s)
    ensures UnsafeErrors(s, ps) == []
    decreases |ps|
  {
    if ps != [] {
      UnsafeErrorsNone(s, ps[..|ps| - 1]);
    }
  }

  lemma PatternTextTag(p: Unsafe)
    ensures |PatternText(p)| > 4
    ensures (PatternText(p)[3], PatternText(p)[4]) == match p
      case Write18 => ('w', 'r')
      case InputPipe => ('i', 'n')
      case ImmediateWrite => ('i', 'm')
      case OpenOut => ('o', 'p')
      case Read => ('r', 'e')
  {
  }

  lemma UnsafeMessagesDistinct(p: Unsafe, q: Unsafe)
    ensures UnsafeMessage(p) == UnsafeMessage(q) ==> p == q
    ensures UnsafeMessage(p)[0] == 'P'
  {
    PatternTextTag(p);
    PatternTextTag(q);
    var n := |UnsafePrefix|;
    assert UnsafePrefix[0] == 'P' && UnsafeMessage(p)[0] == UnsafePrefix[0];
    assert UnsafeMessage(p)[n + 3] == PatternText(p)[3] && UnsafeMessage(p)[n + 4] == PatternText(p)[4];
    assert UnsafeMessage(q)[n + 3] == PatternText(q)[3] && UnsafeMessage(q)[n + 4] == PatternText(q)[4];
  }

  /** Each pattern of a duplicate-free list contributes its message once when it
      matches and never otherwise. */
  lemma {:induction false} UnsafeCount(s: string, ps: seq<Unsafe>, p: Unsafe)
    requires forall i, j :: 0 <= i < j < |ps| ==> ps[i] != ps[j]
    ensures multiset(UnsafeErrors(s, ps))[UnsafeMessage(p)] == if p in ps && UnsafeMatches(p, s) then 1 else 0
    decreases |ps|
  {
    if ps != [] {
      var init, last := ps[..|ps| - 1], ps[|ps| - 1];
      UnsafeCount(s, init, p);
      UnsafeMessagesDistinct(p, last);
      assert p in ps <==> p in init || p == last;
      if p == last {
        assert p !in init;
      }
    }
  }

  /** Every entry UnsafeErrors produces is the message of a pattern of `ps` that matches. */
  lemma {:induction false} UnsafeEntries(s: string, ps: seq<Unsafe>, k: nat)
    requires k < |UnsafeErrors(s, ps)|
    ensures exists q :: q in ps && UnsafeMatches(q, s) && UnsafeErrors(s, ps)[k] == UnsafeMessage(q)
    decreases |ps|
  {
    var init := ps[..|ps| - 1];
    if k < |UnsafeErrors(s, init)| {
      UnsafeEntries(s, init, k);
      var q :| q in init && UnsafeMatches(q, s) && UnsafeErrors(s, init)[k] == UnsafeMessage(q);
      assert q in ps;
    } else {
      assert ps[|ps| - 1] in ps;
    }
  }

  lemma StructuralNotUnsafe(s: string)
    ensures forall k :: 0 <= k < |StructuralErrors(s)| ==>
              |StructuralErrors(s)[k]| > 0 && StructuralErrors(s)[k][0] != 'P'
  {
    var a := if HasDocumentClass(s) then [] else [MissingClassError];
    var b := if HasBegin(s) then [] else [MissingBeginError];
    var c := if HasEnd(s) then [] else [MissingEndError];
    var d := BraceErrors(s);
    assert MissingClassError[0] == 'M' && MissingBeginError[0] == 'M' && MissingEndError[0] == 'M';
    assert TooManyClosingError[0] == 'U' && MissingClosingError[0] == 'U';
    assert forall k :: 0 <= k < |a + b + c + d| ==> (a + b + c + d)[k] in a + b + c + d;
  }

  /** For a non-blank document, every denylisted pattern that matches is reported
      exactly once and one that does not match is not reported. */
  lemma UnsafeReportedOnce(s: string, p: Unsafe)
    requires !AllSpace(s)
    ensures multiset(ValidationErrors(s))[UnsafeMessage(p)] == if UnsafeMatches(p, s) then 1 else 0
  {
    var st, un := StructuralErrors(s), UnsafeErrors(s, UnsafePatterns);
    assert ValidationErrors(s) == st + un;
    UnsafeCount(s, UnsafePatterns, p);
    UnsafeMessagesDistinct(p, p);
    StructuralNotUnsafe(s);
    assert UnsafeMessage(p) !in st;
  }

  /** The message `m` names a denylist pattern that matches `s`. */
  predicate ReportsMatch(s: string, m: string) {
    exists q :: m == UnsafeMessage(q) && UnsafeMatches(q, s)
  }

  /** For a non-blank document the structural messages come first, and every
      message after them names a denylist pattern that matches. */
  lemma UnsafeAfterStructural(s: string)
    requires !AllSpace(s)
    ensures ValidationErrors(s)[..|StructuralErrors(s)|] == StructuralErrors(s)
    ensures forall k :: |StructuralErrors(s)| <= k < |ValidationErrors(s)| ==> ReportsMatch(s, ValidationErrors(s)[k])
  {
    var st, un := StructuralErrors(s), UnsafeErrors(s, UnsafePatterns);
    assert ValidationErrors(s) == st + un;
    forall k | 0 <= k < |un| ensures ReportsMatch(s, un[k]) {
      UnsafeEntries(s, UnsafePatterns, k);
    }
    assert (st + un)[..|st|] == st;
    assert forall k :: |st| <= k < |st + un| ==> (st + un)[k] == un[k - |st|];
  }

  /** The five structural messages are pairwise different. */
  lemma StructuralMessagesDistinct()
    ensures MissingClassError != MissingBeginError && MissingClassError != MissingEndError
    ensures MissingBeginError != MissingEndError
    ensures TooManyClosingError != MissingClosingError
    ensures MissingClassError[0] == MissingBeginError[0] == MissingEndError[0] == 'M'
    ensures TooManyClosingError[0] == MissingClosingError[0] == 'U'
  {
    assert MissingClassError[9] == 'd' && MissingBeginError[9] == 'b' && MissingEndError[9] == 'e';
    assert TooManyClosingError[19] == 't' && MissingClosingError[19] == 'm';
  }

  /** A message not starting with 'P' is never a denylist message. */
  lemma NotUnsafeMessage(s: string, m: string)
    requires |m| > 0 && m[0] != 'P'
    ensures m !in UnsafeErrors(s, UnsafePatterns)
  {
    var un := UnsafeErrors(s, UnsafePatterns);
    if m in un {
      var k :| 0 <= k < |un| && un[k] == m;
      UnsafeEntries(s, UnsafePatterns, k);
    }
  }

  /** Membership in the structural list, check by check. */
  lemma StructuralMembers(s: string)
    ensures MissingClassError in StructuralErrors(s) <==> !HasDocumentClass(s)
    ensures MissingBeginError in StructuralErrors(s) <==> !HasBegin(s)
    ensures MissingEndError in StructuralErrors(s) <==> !HasEnd(s)
    ensures TooManyClosingError in StructuralErrors(s) <==> Overclosed(s)
    ensures MissingClosingError in StructuralErrors(s) <==> !Overclosed(s) && Depth(s) > 0
  {
    StructuralListMembers(HasDocumentClass(s), HasBegin(s), HasEnd(s), BraceErrors(s));
  }

  lemma StructuralListMembers(hasClass: bool, hasBegin: bool, hasEnd: bool, braceErrors: seq<string>)
    requires braceErrors == [] || braceErrors == [TooManyClosingError] || braceErrors == [MissingClosingError]
    ensures var l := StructuralList(hasClass, hasBegin, hasEnd, braceErrors);
      && (MissingClassError in l <==> !hasClass)
      && (MissingBeginError in l <==> !hasBegin)
      && (MissingEndError in l <==> !hasEnd)
      && (TooManyClosingError in l <==> TooManyClosingError in braceErrors)
      && (MissingClosingError in l <==> MissingClosingError in braceErrors)
  {
    StructuralMessagesDistinct();
  }

  /** For a non-blank document each check reports on its own: every marker
      error appears exactly when its marker is absent, "too many" exactly when
      some prefix overcloses, and "missing" exactly when none does and braces
      remain open. */
  lemma ChecksIndependent(s: string)
    requires !AllSpace(s)
    ensures MissingClassError in ValidationErrors(s) <==> !HasDocumentClass(s)
    ensures MissingBeginError in ValidationErrors(s) <==> !HasBegin(s)
    ensures MissingEndError in ValidationErrors(s) <==> !HasEnd(s)
    ensures TooManyClosingError in ValidationErrors(s) <==> Overclosed(s)
    ensures MissingClosingError in ValidationErrors(s) <==> !Overclosed(s) && Depth(s) > 0
  {
    assert ValidationErrors(s) == StructuralErrors(s) + UnsafeErrors(s, UnsafePatterns);
    StructuralMessagesDistinct();
    StructuralMembers(s);
    NotUnsafeMessage(s, MissingClassError);
    NotUnsafeMessage(s, MissingBeginError);
    NotUnsafeMessage(s, MissingEndError);
    NotUnsafeMessage(s, TooManyClosingError);
    NotUnsafeMessage(s, MissingClosingError);
  }

  /** `\\read` needs a word boundary: `\\readme` is not denylisted, `\\read x` is. */
  lemma ReadNeedsBoundary()
    ensures !UnsafeMatches(Read, "\\readme")
    ensures UnsafeMatches(Read, "\\read x")
  {
    var s := "\\readme";
    forall i: nat | i < |s| ensures !UnsafeAt(Read, s, i) {
      if i == 0 {
        assert !BoundaryAt(s, 5);
      } else {
        assert s[i] != '\\';
      }
    }
    assert UnsafeAt(Read, "\\read x", 0);
  }

  // ------------------------------------------------- well-formed documents

  /** No prefix goes below zero and the braces close at the end. */
  predicate Balanced(s: string) {
    !Overclosed(s) && Depth(s) == 0
  }

  predicate NoBraces(s: string) {
    forall i :: 0 <= i < |s| ==> s[i] != '{' && s[i] != '}'
  }

  lemma {:induction false} DepthConcat(a: string, b: string)
    ensures Depth(a + b) == Depth(a) + Depth(b)
    decreases |b|
  {
    if b == [] {
      assert a + b == a;
    } else {
      assert (a + b)[..|a + b| - 1] == a + b[..|b| - 1];
      DepthConcat(a, b[..|b| - 1]);
    }
  }

  lemma BalancedConcat(a: string, b: string)
    requires Balanced(a) && Balanced(b)
    ensures Balanced(a + b)
  {
    DepthConcat(a, b);
    forall k: nat | k <= |a + b| ensures Depth((a + b)[..k]) >= 0 {
      if k <= |a| {
        assert (a + b)[..k] == a[..k];
      } else {
        assert (a + b)[..k] == a + b[..k - |a|];
        DepthConcat(a, b[..k - |a|]);
      }
    }
  }

  lemma {:induction false} NoBracesBalanced(w: string)
    requires NoBraces(w)
    ensures Depth(w) == 0
    ensures forall k: nat :: k <= |w| ==> Depth(w[..k]) == 0
    decreases |w|
  {
    if w != [] {
      NoBracesBalanced(w[..|w| - 1]);
      assert w[..|w|] == w;
      forall k: nat | k < |w| ensures Depth(w[..k]) == 0 {
        assert w[..k] == w[..|w| - 1][..k];
      }
    }
  }

  lemma BracedBalanced(w: string)
    requires NoBraces(w)
    ensures Balanced("{" + w + "}")
  {
    var g := "{" + w + "}";
    NoBracesBalanced(w);
    DepthConcat("{", w);
    DepthConcat("{" + w, "}");
    assert Depth("{") == 1 && Depth("}") == -1;
    forall k: nat | k <= |g| ensures Depth(g[..k]) >= 0 {
      if k == 0 {
        assert g[..k] == [];
      } else if k <= |w| + 1 {
        assert g[..k] == "{" + w[..k - 1];
        DepthConcat("{", w[..k - 1]);
      } else {
        assert g[..k] == g;
      }
    }
  }

  /** A document with the class declaration, both markers, balanced braces and
      nothing denylisted validates with no errors. */
  lemma WellFormedValid(s: string)
    requires HasDocumentClass(s) && HasBegin(s) && HasEnd(s) && Balanced(s)
    requires forall p: Unsafe :: !UnsafeMatches(p, s)
    ensures ValidationErrors(s) == []
  {
    var i: nat :| i < |s| && DocumentClassAt(s, i);
    assert LowerChar(s[i + 0]) == "\\documentclass"[0] == '\\';
    assert !IsJsSpace(s[i]);
    forall k | 0 <= k < |UnsafePatterns| ensures !UnsafeMatches(UnsafePatterns[k], s) {
    }
    UnsafeErrorsNone(s, UnsafePatterns);
  }

  /** Every backslash is followed by `d`, `b` or `e`, so no denylisted command starts anywhere. */
  predicate TamedBackslashes(s: string) {
    forall i :: 0 <= i < |s| && s[i] == '\\' ==> i + 1 < |s| && (s[i + 1] == 'd' || s[i + 1] == 'b' || s[i + 1] == 'e')
  }

  lemma TamedConcat(a: string, b: string)
    requires TamedBackslashes(a) && TamedBackslashes(b)
    ensures TamedBackslashes(a + b)
  {
    forall i | 0 <= i < |a + b| && (a + b)[i] == '\\'
      ensures i + 1 < |a + b| && ((a + b)[i + 1] == 'd' || (a + b)[i + 1] == 'b' || (a + b)[i + 1] == 'e')
    {
      if i < |a| {
        assert a[i] == '\\';
      } else {
        assert b[i - |a|] == '\\';
      }
    }
  }

  lemma StartsAtFirstTwo(s: string, i: nat, lit: string)
    requires StartsAt(s, i, lit) && |lit| >= 2
    ensures s[i] == lit[0] && s[i + 1] == lit[1]
  {
    assert s[i..i + |lit|][0] == s[i] && s[i..i + |lit|][1] == s[i + 1];
  }

  lemma TamedNotUnsafe(s: string, p: Unsafe)
    requires TamedBackslashes(s)
    ensures !UnsafeMatches(p, s)
  {
    forall i: nat | i < |s| ensures !UnsafeAt(p, s, i) {
      if UnsafeAt(p, s, i) {
        match p
        case Write18 => StartsAtFirstTwo(s, i, "\\write18");
        case InputPipe => StartsAtFirstTwo(s, i, "\\input");
        case ImmediateWrite => StartsAtFirstTwo(s, i, "\\immediate\\write");
        case OpenOut => StartsAtFirstTwo(s, i, "\\openout");
        case Read => StartsAtFirstTwo(s, i, "\\read");
      }
    }
  }

  /** A case-insensitive match found in part of a document is found in the whole. */
  lemma StartsAtIgnoreCaseAppend(a: string, b: string, i: nat, p: string)
    requires StartsAtIgnoreCase(a, i, p)
    ensures StartsAtIgnoreCase(a + b, i, p)
  {
    forall k | 0 <= k < |p| ensures LowerChar((a + b)[i + k]) == p[k] {
      assert (a + b)[i + k] == a[i + k];
    }
  }

  lemma StartsAtIgnoreCasePrepend(a: string, b: string, i: nat, p: string)
    requires StartsAtIgnoreCase(a, i, p)
    ensures StartsAtIgnoreCase(b + a, |b| + i, p)
  {
    forall k | 0 <= k < |p| ensures LowerChar((b + a)[|b| + i + k]) == p[k] {
      assert (b + a)[|b| + i + k] == a[i + k];
    }
  }

  lemma DocumentClassAppend(a: string, b: string, i: nat)
    requires DocumentClassAt(a, i)
    ensures DocumentClassAt(a + b, i)
  {
    var j: nat :| i + 14 <= j < |a| && AllSpace(a[i + 14..j]) && ClosedArgumentAt(a, j);
    var k: nat :| j + 1 < k < |a| && a[k] == '}';
    StartsAtIgnoreCaseAppend(a, b, i, "\\documentclass");
    assert (a + b)[i + 14..j] == a[i + 14..j];
    assert (a + b)[j] == '{' && (a + b)[j + 1] == a[j + 1] && (a + b)[k] == '}';
    assert ClosedArgumentAt(a + b, j);
  }

  /** Whatever surrounds them, a class line, a begin line and an end line in this
      order supply all three markers. */
  lemma MarkersFromParts(cls: string, bgn: string, x: string, cl: string)
    requires DocumentClassAt(cls, 0)
    requires StartsAtIgnoreCase(bgn, 0, "\\begin{document}")
    requires StartsAtIgnoreCase(cl, 0, "\\end{document}")
    ensures HasDocumentClass(cls + bgn + x + cl)
    ensures HasBegin(cls + bgn + x + cl)
    ensures HasEnd(cls + bgn + x + cl)
  {
    var w := cls + bgn + x + cl;
    assert w == cls + (bgn + (x + cl)) && w == (cls + bgn + x) + cl;
    DocumentClassAppend(cls, bgn + (x + cl), 0);
    StartsAtIgnoreCaseAppend(bgn, x + cl, 0, "\\begin{document}");
    StartsAtIgnoreCasePrepend(bgn + (x + cl), cls, 0, "\\begin{document}");
    StartsAtIgnoreCasePrepend(cl, cls + bgn + x, 0, "\\end{document}");
    FoundIgnoreCase(w, |cls|, "\\begin{document}");
    FoundIgnoreCase(w, |cls + bgn + x|, "\\end{document}");
  }

  lemma FoundIgnoreCase(s: string, i: nat, p: string)
    requires StartsAtIgnoreCase(s, i, p)
    ensures ContainsIgnoreCase(s, p)
  {
  }

  const ClassLine := "\\documentclass{article}"
  const BeginLine := "\\begin{document}"
  const Preamble := ClassLine + BeginLine
  const Closing := "\\end{document}"

  lemma ClassLineMarker()
    ensures DocumentClassAt(ClassLine, 0)
  {
    assert ClassLine[14] == '{' && ClassLine[15] == 'a' && ClassLine[22] == '}';
    assert ClosedArgumentAt(ClassLine, 14);
    assert AllSpace(ClassLine[14..14]);
  }

  lemma SkeletonMarkers(x: string)
    ensures HasDocumentClass(Preamble + x + Closing)
    ensures HasBegin(Preamble + x + Closing)
    ensures HasEnd(Preamble + x + Closing)
  {
    ClassLineMarker();
    assert StartsAtIgnoreCase(BeginLine, 0, "\\begin{document}");
    assert StartsAtIgnoreCase(Closing, 0, "\\end{document}");
    MarkersFromParts(ClassLine, BeginLine, x, Closing);
  }

  /** A marker followed by one braced word is balanced. */
  lemma MarkerGroupBalanced(marker: string, word: string)
    requires NoBraces(marker) && NoBraces(word)
    ensures Balanced(marker + "{" + word + "}")
  {
    NoBracesBalanced(marker);
    BracedBalanced(word);
    BalancedConcat(marker, "{" + word + "}");
    assert marker + ("{" + word + "}") == marker + "{" + word + "}";
  }

  lemma ClassLineBalanced()
    ensures Balanced(ClassLine)
  {
    MarkerGroupBalanced("\\documentclass", "article");
    assert ClassLine == "\\documentclass" + "{" + "article" + "}";
  }

  lemma BeginLineBalanced()
    ensures Balanced(BeginLine)
  {
    MarkerGroupBalanced("\\begin", "document");
    assert BeginLine == "\\begin" + "{" + "document" + "}";
  }

  lemma ClosingBalanced()
    ensures Balanced(Closing)
  {
    MarkerGroupBalanced("\\end", "document");
    assert Closing == "\\end" + "{" + "document" + "}";
  }

  lemma SkeletonBalanced(x: string)
    requires Balanced(x)
    ensures Balanced(Preamble + x + Closing)
  {
    ClassLineBalanced();
    BeginLineBalanced();
    ClosingBalanced();
    BalancedConcat(ClassLine, BeginLine);
    BalancedConcat(Preamble, x);
    BalancedConcat(Preamble + x, Closing);
  }

  lemma ClassLineTamed()
    ensures TamedBackslashes(ClassLine)
  {
    var dc, art := "\\documentclass", "{article}";
    assert TamedBackslashes(dc) && TamedBackslashes(art);
    TamedConcat(dc, art);
    assert ClassLine == dc + art;
  }

  lemma BeginLineTamed()
    ensures TamedBackslashes(BeginLine)
  {
    var bg, dm := "\\begin", "{document}";
    assert TamedBackslashes(bg) && TamedBackslashes(dm);
    TamedConcat(bg, dm);
    assert BeginLine == bg + dm;
  }

  lemma ClosingTamed()
    ensures TamedBackslashes(Closing)
  {
    var en, dm := "\\end", "{document}";
    assert TamedBackslashes(en) && TamedBackslashes(dm);
    TamedConcat(en, dm);
    assert Closing == en + dm;
  }

  lemma SkeletonTamed(x: string)
    requires forall i :: 0 <= i < |x| ==> x[i] != '\\'
    ensures TamedBackslashes(Preamble + x + Closing)
  {
    ClassLineTamed();
    BeginLineTamed();
    ClosingTamed();
    TamedConcat(ClassLine, BeginLine);
    TamedConcat(Preamble, x);
    TamedConcat(Preamble + x, Closing);
  }

  /** The canonical skeleton around a body `x` that has balanced braces and no
      backslash validates with no errors. */
  lemma ArticleSkeletonValid(x: string)
    requires Balanced(x)
    requires forall i :: 0 <= i < |x| ==> x[i] != '\\'
    ensures ValidationErrors(Preamble + x + Closing) == []
  {
    var doc := Preamble + x + Closing;
    SkeletonMarkers(x);
    SkeletonBalanced(x);
    SkeletonTamed(x);
    forall p: Unsafe ensures !UnsafeMatches(p, doc) {
      TamedNotUnsafe(doc, p);
    }
    WellFormedValid(doc);
  }
}
