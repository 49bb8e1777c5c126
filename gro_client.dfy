/**
 * The client of the text-generation service. `BuildPrompts` lays out the two
 * prompts; in mock mode (the mock flag set, or no API key) a deterministic
 * keyword-rule editor rewrites the document instead; otherwise the service's
 * reply is checked for status and JSON and a proposal is extracted from it by
 * an ordered chain of shape checks ending in a depth-first scan.
 *
 * The HTTP exchange itself is not modelled: the reply is a parameter.
 */
module GroClient {
  import opened Wrappers
  import opened Text
  import opened Json
  import opened Errors

  // ---------------------------------------------------------------- prompts

  const SystemPrompt := "You are an AI resume editor. Modify the provided LaTeX (.tex) resume based on user instructions. Output only valid LaTeX with no commentary."
  const RequestLabel := "User request:\n"
  const ResumeLabel := "\n\nCurrent resume (.tex):\n"

  datatype Prompts = Prompts(systemPrompt: string, userPrompt: string)

  /** The user prompt is the request label, the message, the resume label and
      the document, in that order and with nothing else. */
  function BuildPrompts(message: string, currentTex: string): (p: Prompts)
    ensures p.systemPrompt == SystemPrompt
    ensures |p.userPrompt| == |RequestLabel| + |message| + |ResumeLabel| + |currentTex|
    ensures p.userPrompt[..|RequestLabel|] == RequestLabel
    ensures p.userPrompt[|RequestLabel|..|RequestLabel| + |message|] == message
    ensures p.userPrompt[|RequestLabel| + |message|..|p.userPrompt| - |currentTex|] == ResumeLabel
    ensures p.userPrompt[|p.userPrompt| - |currentTex|..] == currentTex
  {
    Prompts(SystemPrompt, RequestLabel + message + ResumeLabel + currentTex)
  }

  /** `config.gro`: the mock flag, the API key and the unused base URL and model. */
  datatype Config = Config(mock: bool, key: string, base: string, model: string)

  predicate UsesMock(c: Config) {
    c.mock || c.key == ""
  }

  // ------------------------------------------------------------ mock rules

  /** The rule triggers, tested on the lower-cased message. */
  predicate NameRule(lower: string) {
    && Contains(lower, "make") && Contains(lower, "name")
    && (Contains(lower, "big") || Contains(lower, "bigger") || Contains(lower, "huge") || Contains(lower, "larg"))
  }

  predicate MarginRule(lower: string) {
    (Contains(lower, "reduce") && Contains(lower, "margin")) || Contains(lower, "smaller margin") || Contains(lower, "narrow")
  }

  predicate BoldRule(lower: string) {
    (Contains(lower, "bold") && Contains(lower, "header")) || Contains(lower, "bold name")
  }

  /** The notes the mock pushes onto its explanation. */
  datatype Note = NameNote | MarginNote | BoldNote | SummaryNote | FallbackNote {
    function Text(): string {
      match this
      case NameNote => "Increased name size (\\LARGE -> \\Huge)"
      case MarginNote => "Reduced page margin to 0.5in"
      case BoldNote => "Bolded header/name"
      case SummaryNote => "Applied mock edit note to Summary section"
      case FallbackNote => "Mock fallback: preserved original documentclass"
    }
  }

  function Texts(notes: seq<Note>): (r: seq<string>)
    ensures |r| == |notes|
    ensures forall k :: 0 <= k < |notes| ==> r[k] == notes[k].Text()
  {
    seq(|notes|, k requires 0 <= k < |notes| => notes[k].Text())
  }
  const ClassMarker := "\\documentclass"

  /** The character classes the patterns repeat. */
  datatype CharClass = Space | WordChar | NumberChar

  predicate InClass(c: char, k: CharClass) {
    match k
    case Space => IsJsSpace(c)
    case WordChar => IsWordChar(c)
    case NumberChar => ('0' <= c <= '9') || c == '.'
  }

  /** The end of the longest run of class `k` starting at `i`. */
  function Skip(s: string, i: nat, k: CharClass): (j: nat)
    requires i <= |s|
    ensures i <= j <= |s|
    ensures forall t :: i <= t < j ==> InClass(s[t], k)
    ensures j < |s| ==> !InClass(s[j], k)
    decreases |s| - i
  {
    if i < |s| && InClass(s[i], k) then Skip(s, i + 1, k) else i
  }

  /** The three rewriting patterns. */
  datatype Pattern = Margin | Bold | Summary

  const SummaryHeader := "\\noindent\\textbf{Summary}\\\\"
  const SummaryEnd := "\\vspace{6pt}"

  /** `/margin\s*=\s*([0-9\.]+)in/` matches at `i` (the runs are maximal because
      the character after each run cannot continue it). */
  predicate MarginAt(s: string, i: nat) {
    && StartsAt(s, i, "margin")
    && var j := Skip(s, i + 6, Space);
       && j < |s| && s[j] == '='
       && var k := Skip(s, j + 1, Space);
          var m := Skip(s, k, NumberChar);
          m > k && StartsAt(s, m, "in")
  }

  /** `/(\\\w*\{)([^}]*John[^}]*)\}/` matches at `i`: a backslash, a word, a
      brace, then up to the first closing brace a stretch containing "John". */
  predicate BoldAt(s: string, i: nat) {
    && i < |s| && s[i] == '\\'
    && var j := Skip(s, i + 1, WordChar);
       && j < |s| && s[j] == '{'
       && var e := IndexOfFrom(s, j + 1, "}");
          e.Some? && Contains(s[j + 1..e.value], "John")
  }

  /** `/(\\noindent\\textbf\{Summary\}\\\\\s*)([\s\S]*?)(\\vspace\{6pt\})/`
      matches at `i`: the header, spaces, then anything up to a `\vspace{6pt}`. */
  predicate SummaryAt(s: string, i: nat) {
    && StartsAt(s, i, SummaryHeader)
    && IndexOfFrom(s, Skip(s, i + |SummaryHeader|, Space), SummaryEnd).Some?
  }

  predicate MatchAt(p: Pattern, s: string, i: nat) {
    match p
    case Margin => MarginAt(s, i)
    case Bold => BoldAt(s, i)
    case Summary => SummaryAt(s, i)
  }

  /** The leftmost match at or after `from`, as a non-global `replace` finds it. */
  function FirstMatch(p: Pattern, s: string, from: nat): (r: Option<nat>)
    decreases |s| - from
    ensures r.Some? ==> from <= r.value <= |s| && MatchAt(p, s, r.value)
    ensures r.Some? ==> forall t :: from <= t < r.value ==> !MatchAt(p, s, t)
    ensures r.None? ==> forall t :: from <= t <= |s| ==> !MatchAt(p, s, t)
  {
    if from > |s| then None
    else if MatchAt(p, s, from) then Some(from)
    else
      var r := FirstMatch(p, s, from + 1);
      NoMatchBefore(p, s, from, r);
      r
  }

  /** A miss at `from` extends the callee's "no match before" facts to `from`. */
  lemma NoMatchBefore(p: Pattern, s: string, from: nat, r: Option<nat>)
    requires from <= |s| && !MatchAt(p, s, from)
    requires r.Some? ==> from + 1 <= r.value <= |s| && MatchAt(p, s, r.value)
    requires r.Some? ==> forall t :: from + 1 <= t < r.value ==> !MatchAt(p, s, t)
    requires r.None? ==> forall t :: from + 1 <= t <= |s| ==> !MatchAt(p, s, t)
    ensures r.Some? ==> from <= r.value <= |s| && MatchAt(p, s, r.value)
    ensures r.Some? ==> forall t :: from <= t < r.value ==> !MatchAt(p, s, t)
    ensures r.None? ==> forall t :: from <= t <= |s| ==> !MatchAt(p, s, t)
  {
  }

  const LargeCommand := "\\LARGE"
  const HugeCommand := "\\Huge"

  /** `\LARGE` becomes `\Huge` everywhere; a document without one is unchanged. */
  function Enlarge(s: string): (r: string)
    ensures !Contains(s, LargeCommand) ==> r == s
  {
    ReplaceAll(s, LargeCommand, HugeCommand)
  }

  /** The first margin setting becomes `margin=0.5in`; without one the document
      is unchanged. */
  function ShrinkMargin(s: string): (r: string)
    ensures FirstMatch(Margin, s, 0).None? ==> r == s
    ensures FirstMatch(Margin, s, 0).Some? ==> Contains(r, NewMargin)
  {
    match FirstMatch(Margin, s, 0)
    case None => s
    case Some(i) =>
      StartsAtMiddle(s[..i], NewMargin, s[MarginEnd(s, i)..]);
      s[..i] + NewMargin + s[MarginEnd(s, i)..]
  }

  const NewMargin := "margin=0.5in"

  /** Where a margin setting matched at `i` ends: after the number and `in`. */
  function MarginEnd(s: string, i: nat): (e: nat)
    requires MarginAt(s, i)
    ensures i <= e <= |s|
  {
    Skip(s, Skip(s, Skip(s, i + 6, Space) + 1, Space), NumberChar) + 2
  }

  const BoldOpen := "\\textbf{"

  /** The first braced group containing "John" is wrapped in `\textbf{…}`.
      Without such a group the document is unchanged. */
  function Embolden(s: string): (r: string)
    ensures FirstMatch(Bold, s, 0).None? ==> r == s
    ensures FirstMatch(Bold, s, 0).Some? ==> r == EmboldenAt(s, FirstMatch(Bold, s, 0).value)
  {
    match FirstMatch(Bold, s, 0)
    case None => s
    case Some(i) => EmboldenAt(s, i)
  }

  /** The bold rewrite of the group matched at `i` is `s` wrapped at the
      group's opening brace and at the first closing brace after it. */
  function EmboldenAt(s: string, i: nat): (r: string)
    requires BoldAt(s, i)
    ensures BoldWrapped(s, r, BoldGroupStart(s, i), BoldGroupEnd(s, i))
  {
    BoldWrap(s, i, BoldGroupStart(s, i), BoldGroupEnd(s, i))
  }

  /** The opening brace of the group matched at `i`: after the backslash and
      the word. */
  function BoldGroupStart(s: string, i: nat): (j: nat)
    requires BoldAt(s, i)
    ensures i < j < |s| && s[j] == '{'
  {
    Skip(s, i + 1, WordChar)
  }

  /** The first closing brace after the opening one of the group matched at `i`. */
  function BoldGroupEnd(s: string, i: nat): (e: nat)
    requires BoldAt(s, i)
    ensures BoldGroupStart(s, i) < e < |s| && s[e] == '}'
    ensures e == IndexOfFrom(s, BoldGroupStart(s, i) + 1, "}").value
  {
    IndexOfFrom(s, BoldGroupStart(s, i) + 1, "}").value
  }

  /** `r` is `s` with its group from the brace at `j` to the brace at `e`
      bolded: the text up to the opening brace is kept and `\textbf{` follows
      it; then come the group's text, its closing brace and one more, and the
      rest. So `r` is longer by exactly that command and one `}`. */
  predicate BoldWrapped(s: string, r: string, j: nat, e: nat)
    requires j < e < |s|
  {
    && |r| == |s| + |BoldOpen| + 1
    && StartsAt(r, j + 1, BoldOpen)
    && r[..j + 1] == s[..j + 1]
    && r[j + 1 + |BoldOpen|..] == s[j + 1..e] + "}}" + s[e + 1..]
  }

  /** The rewrite does not look for an existing `\textbf`: a group that is
      already bold is matched with `\textbf{` as its command and wrapped again. */
  lemma EmboldenRewrapsBold(s: string, i: nat)
    requires BoldAt(s, i) && StartsAt(s, i, BoldOpen)
    ensures StartsAt(EmboldenAt(s, i), i, BoldOpen + BoldOpen)
  {
    BoldCommandBrace(s, i);
    var r := EmboldenAt(s, i);
    var j := BoldGroupStart(s, i);
    StartsAtKept(s, r, j + 1, i, BoldOpen);
    StartsAtAdjacent(r, i, BoldOpen, BoldOpen);
  }

  /** When the match at `i` starts with `\textbf{`, its opening brace is the
      one that ends `\textbf{`. */
  lemma BoldCommandBrace(s: string, i: nat)
    requires BoldAt(s, i) && StartsAt(s, i, BoldOpen)
    ensures BoldGroupStart(s, i) == i + |BoldOpen| - 1
  {
    var w := i + |BoldOpen| - 1;
    assert s[i..i + |BoldOpen|] == BoldOpen;
    forall t | i + 1 <= t < w ensures InClass(s[t], WordChar) {
      assert s[t] == BoldOpen[t - i];
    }
    assert s[w] == '{';
  }

  /** `s` with `\textbf{` after its brace at `j` and a second `}` after its
      brace at `e`, written as the regex replacement assembles it from the
      prefix, the two groups and the rest. */
  function BoldWrap(s: string, i: nat, j: nat, e: nat): (r: string)
    requires i <= j < e < |s|
    ensures BoldWrapped(s, r, j, e)
  {
    var front := s[..i] + s[i..j + 1];
    assert front == s[..j + 1];
    var back := s[j + 1..e] + "}}" + s[e + 1..];
    StartsAtMiddle(front, BoldOpen, back);
    assert (front + BoldOpen + back)[|front| + |BoldOpen|..] == back;
    front + BoldOpen + back
  }

  /** The first Summary paragraph gets its text trimmed and the mock note
      appended, as `AnnotateAt` says: the note, with the message, is placed
      right before its closing `\vspace{6pt}`. Without a Summary block the
      document is unchanged. */
  function AnnotateSummary(s: string, msg: string): (r: string)
    ensures FirstMatch(Summary, s, 0).None? ==> r == s
    ensures FirstMatch(Summary, s, 0).Some? ==> r == AnnotateAt(s, FirstMatch(Summary, s, 0).value, msg)
    ensures FirstMatch(Summary, s, 0).Some? ==> Contains(r, MockEditNote + msg + SummaryEnd)
  {
    match FirstMatch(Summary, s, 0)
    case None => s
    case Some(i) => AnnotateAt(s, i, msg)
  }

  /** The Summary rewrite of the block matched at `i`, whose text runs from the
      end of the spaces after the header to its closing `\vspace{6pt}`. */
  function AnnotateAt(s: string, i: nat, msg: string): (r: string)
    requires SummaryAt(s, i)
    ensures SummaryAnnotated(s, r, msg, SummaryTextStart(s, i), SummaryTextEnd(s, i))
    ensures Contains(r, MockEditNote + msg + SummaryEnd)
  {
    AnnotateText(s, msg, SummaryTextStart(s, i), SummaryTextEnd(s, i))
  }

  /** Where the spaces after the Summary header matched at `i` end. */
  function SummaryTextStart(s: string, i: nat): (j: nat)
    requires SummaryAt(s, i)
    ensures j <= |s|
  {
    Skip(s, i + |SummaryHeader|, Space)
  }

  /** Where the closing `\vspace{6pt}` of the Summary block matched at `i` starts. */
  function SummaryTextEnd(s: string, i: nat): (e: nat)
    requires SummaryAt(s, i)
    ensures SummaryTextStart(s, i) <= e && StartsAt(s, e, SummaryEnd)
  {
    IndexOfFrom(s, SummaryTextStart(s, i), SummaryEnd).value
  }

  /** `r` is `s` with the Summary text between `j` and its closing
      `\vspace{6pt}` at `e` annotated: everything up to `j` is kept, then come
      a space, the trimmed text, the note, the message, the closing
      `\vspace{6pt}` and everything after the old one. */
  predicate SummaryAnnotated(s: string, r: string, msg: string, j: nat, e: nat)
    requires j <= e && StartsAt(s, e, SummaryEnd)
  {
    && j <= |r|
    && r[..j] == s[..j]
    && r[j..] == " " + Trim(s[j..e]) + MockEditNote + msg + SummaryEnd + s[e + |SummaryEnd|..]
  }

  /** The replacement as the callback assembles it: the header and the spaces
      after it, a space, the trimmed text, the note, the message and the
      closing `\vspace{6pt}`, then the rest. */
  function AnnotateText(s: string, msg: string, j: nat, e: nat): (r: string)
    requires j <= e && StartsAt(s, e, SummaryEnd)
    ensures SummaryAnnotated(s, r, msg, j, e)
    ensures Contains(r, MockEditNote + msg + SummaryEnd)
  {
    var rest := s[e + |SummaryEnd|..];
    SplitAfterFirst(s[..j], " ", Trim(s[j..e]), MockEditNote, msg, SummaryEnd, rest);
    StartsAtThree(s[..j] + " " + Trim(s[j..e]), MockEditNote, msg, SummaryEnd, rest);
    s[..j] + " " + Trim(s[j..e]) + MockEditNote + msg + SummaryEnd + rest
  }

  const MockEditNote := "\n\\newline Mock edit: "

  /** The notes of the rules that fire, in rule order. */
  function RuleNotes(lower: string): seq<Note> {
    RuleList(NameRule(lower), MarginRule(lower), BoldRule(lower))
  }

  function RuleList(name: bool, margin: bool, bold: bool): seq<Note> {
    (if name then [NameNote] else [])
    + (if margin then [MarginNote] else [])
    + (if bold then [BoldNote] else [])
  }

  /** The notes for the given rule verdicts, with the Summary note when no rule
      fired and the fallback note when the draft was not kept. */
  function NoteList(name: bool, margin: bool, bold: bool, kept: bool): seq<Note> {
    var rules := RuleList(name, margin, bold);
    var notes := rules + (if rules == [] then [SummaryNote] else []);
    if kept then notes else notes + [FallbackNote]
  }

  lemma NoteListMembers(name: bool, margin: bool, bold: bool, kept: bool)
    ensures RuleList(name, margin, bold) == [] <==> !name && !margin && !bold
    ensures var l := NoteList(name, margin, bold, kept);
      && (NameNote in l <==> name)
      && (MarginNote in l <==> margin)
      && (BoldNote in l <==> bold)
      && (SummaryNote in l <==> !name && !margin && !bold)
      && (FallbackNote in l <==> !kept)
      && |l| >= 1
  {
    var rules := RuleList(name, margin, bold);
    assert forall x :: x in rules <==> (x == NameNote && name) || (x == MarginNote && margin) || (x == BoldNote && bold);
    var notes := rules + (if rules == [] then [SummaryNote] else []);
    assert forall x :: x in notes <==> x in rules || (x == SummaryNote && rules == []);
  }

  /** The rewrites of the rules that fire, applied in rule order; the Summary
      edit only when no rule fired. */
  function Edited(msg: string, tex: string): string {
    var lower := ToLower(msg);
    var p1 := if NameRule(lower) then Enlarge(tex) else tex;
    var p2 := if MarginRule(lower) then ShrinkMargin(p1) else p1;
    var p3 := if BoldRule(lower) then Embolden(p2) else p2;
    if RuleNotes(lower) == [] then AnnotateSummary(p3, msg) else p3
  }

  /** The document the mock returns: the edit, unless it lost `\documentclass`. */
  function MockProposal(msg: string, tex: string): string {
    if Contains(Edited(msg, tex), ClassMarker) then Edited(msg, tex) else tex
  }

  /** The notes behind the mock's explanation. */
  function MockNotes(msg: string, tex: string): seq<Note> {
    var lower := ToLower(msg);
    NoteList(NameRule(lower), MarginRule(lower), BoldRule(lower), Contains(Edited(msg, tex), ClassMarker))
  }

  /** The inner `mock(msg, tex)` editor: each firing rule rewrites the draft and
      pushes its note; the Summary edit runs when no note was pushed; a draft
      without `\documentclass` is discarded for the original. */
  method Mock(msg: string, tex: string) returns (proposed: string, explanation: string)
    ensures Contains(proposed, ClassMarker) || proposed == tex
    ensures proposed == MockProposal(msg, tex)
    ensures explanation == Join(Texts(MockNotes(msg, tex)), "; ")
  {
    var parts;
    proposed, parts := ApplyRules(msg, tex);
    if !Contains(proposed, ClassMarker) {
      proposed := tex;
      parts := parts + [FallbackNote];
    }
    explanation := Join(Texts(parts), "; ");
  }

  /** The rule-by-rule part of `mock`: the draft and the notes pushed before the
      `\documentclass` test. */
  method ApplyRules(msg: string, tex: string) returns (proposed: string, parts: seq<Note>)
    ensures proposed == Edited(msg, tex)
    ensures var lower := ToLower(msg);
      parts == NoteList(NameRule(lower), MarginRule(lower), BoldRule(lower), true)
  {
    proposed := tex;
    parts := [];
    var lower := ToLower(msg);
    var name, margin, bold := NameRule(lower), MarginRule(lower), BoldRule(lower);
    if name {
      proposed := Enlarge(proposed);
      parts := parts + [NameNote];
    }
    if margin {
      proposed := ShrinkMargin(proposed);
      parts := parts + [MarginNote];
    }
    if bold {
      proposed := Embolden(proposed);
      parts := parts + [BoldNote];
    }
    assert parts == RuleList(name, margin, bold);
    assert Edited(msg, tex) == if parts == [] then AnnotateSummary(proposed, msg) else proposed;
    if |parts| == 0 {
      proposed := AnnotateSummary(proposed, msg);
      parts := parts + [SummaryNote];
    }
  }

  // ------------------------------------------------------- mock properties

  /** Each rule's note is recorded exactly when its trigger fires, whatever the
      document and whatever the other rules do: the rules are independent. */
  lemma RulesIndependent(msg: string, tex: string)
    ensures var lower := ToLower(msg);
      && (NameNote in MockNotes(msg, tex) <==> NameRule(lower))
      && (MarginNote in MockNotes(msg, tex) <==> MarginRule(lower))
      && (BoldNote in MockNotes(msg, tex) <==> BoldRule(lower))
  {
    var lower := ToLower(msg);
    NoteListMembers(NameRule(lower), MarginRule(lower), BoldRule(lower), Contains(Edited(msg, tex), ClassMarker));
  }

  /** The Summary note is recorded exactly when no rule fired. */
  lemma SummaryOnlyWithoutRules(msg: string, tex: string)
    ensures SummaryNote in MockNotes(msg, tex) <==> RuleNotes(ToLower(msg)) == []
  {
    var lower := ToLower(msg);
    NoteListMembers(NameRule(lower), MarginRule(lower), BoldRule(lower), Contains(Edited(msg, tex), ClassMarker));
  }

  /** The fallback note is recorded exactly when the draft was discarded, and
      there is always at least one note. */
  lemma FallbackExactlyWhenReverted(msg: string, tex: string)
    ensures FallbackNote in MockNotes(msg, tex) <==> !Contains(Edited(msg, tex), ClassMarker)
    ensures |MockNotes(msg, tex)| >= 1
  {
    var lower := ToLower(msg);
    NoteListMembers(NameRule(lower), MarginRule(lower), BoldRule(lower), Contains(Edited(msg, tex), ClassMarker));
  }

  /** A document with `\documentclass` keeps it through the mock. */
  lemma MockKeepsClass(msg: string, tex: string)
    requires Contains(tex, ClassMarker)
    ensures Contains(MockProposal(msg, tex), ClassMarker)
  {
  }

  /** A document with no margin setting is left alone by the margin rule. */
  lemma ShrinkMarginNoMatch(s: string)
    requires forall i :: 0 <= i <= |s| ==> !MarginAt(s, i)
    ensures ShrinkMargin(s) == s
  {
  }

  /** After the margin rewrite the first margin setting reads `margin=0.5in`;
      the text before it and the text after it, later margin settings
      included, are kept. */
  lemma ShrinkMarginWrites(s: string, i: nat)
    requires FirstMatch(Margin, s, 0) == Some(i)
    ensures StartsAt(ShrinkMargin(s), i, NewMargin)
    ensures ShrinkMargin(s)[..i] == s[..i]
    ensures ShrinkMargin(s)[i + |NewMargin|..] == s[MarginEnd(s, i)..]
  {
    assert ShrinkMargin(s) == s[..i] + NewMargin + s[MarginEnd(s, i)..];
    StartsAtMiddle(s[..i], NewMargin, s[MarginEnd(s, i)..]);
  }

  /** The name rule leaves no `\LARGE` behind: every one became `\Huge`. */
  lemma EnlargeRemovesLarge(s: string)
    ensures !Contains(Enlarge(s), LargeCommand)
  {
    assert LargeCommand[1..] == "LARGE" && HugeCommand[1..] == "Huge";
    ReplaceAllRemoves(s, LargeCommand, HugeCommand);
  }

  /** The name rule scans left to right: the text before the first `\LARGE` is
      kept, that occurrence becomes `\Huge`, and the rest is rewritten in turn. */
  lemma EnlargeAtFirst(s: string, i: nat)
    requires StartsAt(s, i, LargeCommand)
    requires forall j: nat :: j < i ==> !StartsAt(s, j, LargeCommand)
    ensures Enlarge(s) == s[..i] + HugeCommand + Enlarge(s[i + |LargeCommand|..])
  {
    ReplaceAllAtFirst(s, LargeCommand, HugeCommand, i);
  }

  /** When no rule fires and the document has a Summary block, the edit carries
      the mock note with the message. */
  lemma FallbackEditNotes(msg: string, tex: string)
    requires RuleNotes(ToLower(msg)) == []
    requires FirstMatch(Summary, tex, 0).Some?
    ensures Edited(msg, tex) == AnnotateSummary(tex, msg)
    ensures Contains(Edited(msg, tex), MockEditNote + msg)
  {
    var lower := ToLower(msg);
    NoteListMembers(NameRule(lower), MarginRule(lower), BoldRule(lower), true);
    var w: nat :| w <= |Edited(msg, tex)| && StartsAt(Edited(msg, tex), w, MockEditNote + msg + SummaryEnd);
    ContainsPrefix(Edited(msg, tex), w, MockEditNote + msg, SummaryEnd);
  }

  /** A request the name rule fires on gets the name note first; when it is the
      only rule firing (as for "make the name bigger"), the edit is exactly the
      enlarged document. */
  lemma NameRuleEdits(msg: string, tex: string)
    requires NameRule(ToLower(msg))
    ensures MockNotes(msg, tex)[0] == NameNote
    ensures !MarginRule(ToLower(msg)) && !BoldRule(ToLower(msg)) ==> Edited(msg, tex) == Enlarge(tex)
  {
    var lower := ToLower(msg);
    NoteListMembers(true, MarginRule(lower), BoldRule(lower), Contains(Edited(msg, tex), ClassMarker));
  }

  // ------------------------------------------------------------------ scan

  /** `scan(obj)`: for an object or array, the values in key order; a string
      containing `\documentclass` is returned, a nested object or array is
      searched in turn. Anything else yields null. */
  function Scan(j: Json): (r: Option<string>)
    decreases j
    ensures r.Some? ==> Contains(r.value, ClassMarker)
  {
    match j
    case JArray(items) => ScanItems(items)
    case JObject(props) => ScanProps(props)
    case _ => None
  }

  function ScanItems(items: seq<Json>): (r: Option<string>)
    decreases items
    ensures r.Some? ==> Contains(r.value, ClassMarker)
  {
    if items == [] then None
    else
      var v := items[0];
      var found := if v.JString? then (if Contains(v.s, ClassMarker) then Some(v.s) else None) else Scan(v);
      if found.Some? then found else ScanItems(items[1..])
  }

  function ScanProps(props: seq<Property>): (r: Option<string>)
    decreases props
    ensures r.Some? ==> Contains(r.value, ClassMarker)
  {
    if props == [] then None
    else
      var v := props[0].value;
      var found := if v.JString? then (if Contains(v.s, ClassMarker) then Some(v.s) else None) else Scan(v);
      if found.Some? then found else ScanProps(props[1..])
  }

  /** The reference reading: all the strings inside containers, in depth-first order. */
  function Strings(j: Json): seq<string>
    decreases j
  {
    match j
    case JArray(items) => ItemStrings(items)
    case JObject(props) => PropStrings(props)
    case _ => []
  }

  function ItemStrings(items: seq<Json>): seq<string>
    decreases items
  {
    if items == [] then [] else (if items[0].JString? then [items[0].s] else Strings(items[0])) + ItemStrings(items[1..])
  }

  function PropStrings(props: seq<Property>): seq<string>
    decreases props
  {
    if props == [] then [] else (if props[0].value.JString? then [props[0].value.s] else Strings(props[0].value)) + PropStrings(props[1..])
  }

  /** The first string of the list containing `\documentclass`. */
  function FirstMarked(ss: seq<string>): (r: Option<string>)
    ensures r.Some? ==> r.value in ss && Contains(r.value, ClassMarker)
    ensures r.None? ==> forall k :: 0 <= k < |ss| ==> !Contains(ss[k], ClassMarker)
  {
    if ss == [] then None
    else if Contains(ss[0], ClassMarker) then Some(ss[0])
    else
      var r := FirstMarked(ss[1..]);
      assert forall k :: 1 <= k < |ss| ==> ss[k] == ss[1..][k - 1];
      r
  }

  lemma {:induction false} FirstMarkedConcat(a: seq<string>, b: seq<string>)
    ensures FirstMarked(a + b) == if FirstMarked(a).Some? then FirstMarked(a) else FirstMarked(b)
  {
    if a == [] {
      assert a + b == b;
    } else {
      assert (a + b)[0] == a[0] && (a + b)[1..] == a[1..] + b;
      FirstMarkedConcat(a[1..], b);
    }
  }

  /** The scan finds exactly the first marked string in depth-first order. */
  lemma {:induction false} ScanIsFirstMarked(j: Json)
    ensures Scan(j) == FirstMarked(Strings(j))
    decreases j
  {
    match j
    case JArray(items) => ScanItemsIsFirstMarked(items);
    case JObject(props) => ScanPropsIsFirstMarked(props);
    case _ =>
  }

  lemma {:induction false} ScanItemsIsFirstMarked(items: seq<Json>)
    ensures ScanItems(items) == FirstMarked(ItemStrings(items))
    decreases items
  {
    if items != [] {
      var v := items[0];
      if !v.JString? {
        ScanIsFirstMarked(v);
      }
      ScanItemsIsFirstMarked(items[1..]);
      FirstMarkedConcat(if v.JString? then [v.s] else Strings(v), ItemStrings(items[1..]));
    }
  }

  lemma {:induction false} ScanPropsIsFirstMarked(props: seq<Property>)
    ensures ScanProps(props) == FirstMarked(PropStrings(props))
    decreases props
  {
    if props != [] {
      var v := props[0].value;
      if !v.JString? {
        ScanIsFirstMarked(v);
      }
      ScanPropsIsFirstMarked(props[1..]);
      FirstMarkedConcat(if v.JString? then [v.s] else Strings(v), PropStrings(props[1..]));
    }
  }

  // ------------------------------------------------------------ extraction

  /** What `proposeUpdate` resolves to. */
  datatype Generated = Generated(proposedTex: string, explanation: Json)

  /** `typeof o.proposedTex === 'string'`. */
  function StringField(o: Json, key: string): Option<string> {
    match Field(o, key)
    case Some(JString(s)) => Some(s)
    case _ => None
  }

  /** The shapes tried, in order. */
  datatype Shape = TopLevel | Nested(key: string) | DeepScan

  /** The proposal and explanation a shape yields, when the response has that shape. */
  function Candidate(json: Json, shape: Shape): Option<Generated> {
    match shape
    case TopLevel =>
      (match StringField(json, "proposedTex")
       case Some(t) => Some(Generated(t, FieldOrEmpty(json, "explanation")))
       case None => None)
    case Nested(key) =>
      (match Field(json, key)
       case Some(inner) =>
         if Truthy(inner) && StringField(inner, "proposedTex").Some? then
           Some(Generated(StringField(inner, "proposedTex").value, FieldOrEmpty(inner, "explanation")))
         else None
       case None => None)
    case DeepScan =>
      (match Scan(json)
       case Some(found) => Some(Generated(found, FieldOrEmpty(json, "explanation")))
       case None => None)
  }

  /** The candidate of the first shape that applies, tried in the order
      top level, `output`, `content`, deep scan. */
  function Chosen(json: Json): Option<Generated> {
    if Candidate(json, TopLevel).Some? then Candidate(json, TopLevel)
    else if Candidate(json, Nested("output")).Some? then Candidate(json, Nested("output"))
    else if Candidate(json, Nested("content")).Some? then Candidate(json, Nested("content"))
    else Candidate(json, DeepScan)
  }

  /** The first 1000 characters of `JSON.stringify(json)`. */
  function Snapshot(json: Json): (r: string)
    ensures |r| == if |Stringify(json)| <= 1000 then |Stringify(json)| else 1000
    ensures r == Stringify(json)[..|r|]
  {
    Take(Stringify(json), 1000)
  }

  /** The outcome of extraction: the first applicable shape decides; an empty or
      missing proposal is an error carrying the snapshot. */
  function Extraction(json: Json): (r: Result<Generated, Error>)
    ensures r.Success? ==> r.value.proposedTex != ""
    ensures r.Failure? ==> r.error == MissingProposal(Snapshot(json))
  {
    match Chosen(json)
    case Some(g) => if g.proposedTex != "" then Success(g) else Failure(MissingProposal(Snapshot(json)))
    case None => Failure(MissingProposal(Snapshot(json)))
  }

  /** The extraction chain as the client runs it: each branch assigns the
      proposal and explanation, and a falsy proposal is rejected at the end. */
  method Extract(json: Json) returns (r: Result<Generated, Error>)
    ensures r == Extraction(json)
  {
    var proposedTex: Option<string> := None;
    var explanation := JString("");
    var output := Field(json, "output");
    var content := Field(json, "content");
    if StringField(json, "proposedTex").Some? {
      proposedTex := StringField(json, "proposedTex");
      explanation := FieldOrEmpty(json, "explanation");
    } else if output.Some? && Truthy(output.value) && StringField(output.value, "proposedTex").Some? {
      proposedTex := StringField(output.value, "proposedTex");
      explanation := FieldOrEmpty(output.value, "explanation");
    } else if content.Some? && Truthy(content.value) && StringField(content.value, "proposedTex").Some? {
      proposedTex := StringField(content.value, "proposedTex");
      explanation := FieldOrEmpty(content.value, "explanation");
    } else {
      var found := Scan(json);
      if found.Some? {
        proposedTex := found;
        explanation := FieldOrEmpty(json, "explanation");
      }
    }
    if proposedTex.None? || proposedTex.value == "" {
      return Failure(MissingProposal(Take(Stringify(json), 1000)));
    }
    r := Success(Generated(proposedTex.value, explanation));
  }

  /** A top-level string proposal decides, even over nested ones; when it is
      empty the response is rejected without looking further. */
  lemma TopLevelDecides(json: Json, t: string)
    requires StringField(json, "proposedTex") == Some(t)
    ensures t != "" ==> Extraction(json) == Success(Generated(t, FieldOrEmpty(json, "explanation")))
    ensures t == "" ==> Extraction(json) == Failure(MissingProposal(Snapshot(json)))
  {
  }

  /** Without a top-level string proposal, a truthy `output` holding one
      decides before `content` and before the scan, with its own explanation. */
  lemma OutputBeforeContent(json: Json, inner: Json, t: string)
    requires StringField(json, "proposedTex").None?
    requires Field(json, "output") == Some(inner) && StringField(inner, "proposedTex") == Some(t)
    ensures t != "" ==> Extraction(json) == Success(Generated(t, FieldOrEmpty(inner, "explanation")))
    ensures t == "" ==> Extraction(json) == Failure(MissingProposal(Snapshot(json)))
  {
    assert Truthy(inner);
  }

  /** Without any of the three named shapes, the proposal is the first string
      containing `\documentclass` in depth-first order, with the top-level explanation. */
  lemma DeepScanFallback(json: Json)
    requires StringField(json, "proposedTex").None?
    requires Candidate(json, Nested("output")).None? && Candidate(json, Nested("content")).None?
    ensures FirstMarked(Strings(json)).Some? ==>
      Extraction(json) == Success(Generated(FirstMarked(Strings(json)).value, FieldOrEmpty(json, "explanation")))
    ensures FirstMarked(Strings(json)).None? ==> Extraction(json) == Failure(MissingProposal(Snapshot(json)))
  {
    ScanIsFirstMarked(json);
    if FirstMarked(Strings(json)).Some? {
      var f := FirstMarked(Strings(json)).value;
      assert Contains(f, ClassMarker);
      var i: nat :| i <= |f| && StartsAt(f, i, ClassMarker);
      assert f != "";
    }
  }

  // --------------------------------------------------------- proposeUpdate

  /** The service's HTTP reply, as far as the client reads it: a network
      failure, or a status with optional JSON body (None when it does not parse). */
  datatype Reply =
    | NetworkError(message: string)
    | Response(ok: bool, status: nat, statusText: string, text: string, json: Option<Json>)

  /** `proposeUpdate(message, currentTex)`: the mock in mock mode; otherwise a
      non-ok status, an unparsable or falsy body, or a missing proposal fails. */
  method ProposeUpdate(cfg: Config, message: string, currentTex: string, reply: Reply) returns (r: Result<Generated, Error>)
    ensures UsesMock(cfg) ==>
      r == Success(Generated(MockProposal(message, currentTex), JString(Join(Texts(MockNotes(message, currentTex)), "; "))))
    ensures !UsesMock(cfg) && reply.NetworkError? ==> r == Failure(Foreign(reply.message))
    ensures !UsesMock(cfg) && reply.Response? && !reply.ok ==>
      r == Failure(UpstreamStatus(reply.status, reply.statusText, reply.text)) && r.error.Status() == Some(reply.status)
    ensures !UsesMock(cfg) && reply.Response? && reply.ok && (reply.json.None? || !Truthy(reply.json.value)) ==>
      r == Failure(InvalidJson)
    ensures !UsesMock(cfg) && reply.Response? && reply.ok && reply.json.Some? && Truthy(reply.json.value) ==>
      r == Extraction(reply.json.value)
  {
    var prompts := BuildPrompts(message, currentTex);
    if UsesMock(cfg) {
      var proposed, explanation := Mock(message, currentTex);
      return Success(Generated(proposed, JString(explanation)));
    }
    match reply
    case NetworkError(m) =>
      r := Failure(Foreign(m));
    case Response(ok, status, statusText, text, json) =>
      if !ok {
        return Failure(UpstreamStatus(status, statusText, text));
      }
      if json.None? || !Truthy(json.value) {
        return Failure(InvalidJson);
      }
      r := Extract(json.value);
  }
}
