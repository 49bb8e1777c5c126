/**
 * Two helpers of the browser chat widget: HTML escaping of chat text and the
 * canned reply chosen by keywords.
 */
module ChatClient {
  import opened Text

  predicate Special(c: char) {
    c == '&' || c == '<' || c == '>' || c == '"' || c == '\''
  }

  /** The replacement of one character by `escapeHtml`. */
  function EscapeChar(c: char): string {
    if c == '&' then "&amp;"
    else if c == '<' then "&lt;"
    else if c == '>' then "&gt;"
    else if c == '"' then "&quot;"
    else if c == '\'' then "&#39;"
    else [c]
  }

  /** `escapeHtml(str)`: every special character replaced, everything else kept. */
  function EscapeHtml(s: string): (r: string)
    ensures forall i :: 0 <= i < |r| ==> r[i] != '<' && r[i] != '>' && r[i] != '"' && r[i] != '\''
  {
    if s == [] then [] else EscapeChar(s[0]) + EscapeHtml(s[1..])
  }

  /** Text without special characters is left as it is. */
  lemma {:induction false} EscapePlain(s: string)
    requires forall i :: 0 <= i < |s| ==> !Special(s[i])
    ensures EscapeHtml(s) == s
  {
    if s != [] {
      EscapePlain(s[1..]);
    }
  }

  /** Escaping distributes over concatenation, so each character is replaced on its own. */
  lemma {:induction false} EscapeConcat(a: string, b: string)
    ensures EscapeHtml(a + b) == EscapeHtml(a) + EscapeHtml(b)
  {
    if a == [] {
      assert a + b == b;
    } else {
      assert (a + b)[0] == a[0] && (a + b)[1..] == a[1..] + b;
      EscapeConcat(a[1..], b);
    }
  }

  /** The decoding of the five entities; any other character stands for itself.
      It is an independent reading of escaped text. */
  function Unescape(t: string): string
    decreases |t|
  {
    if t == [] then []
    else if |t| >= 5 && t[..5] == "&amp;" then "&" + Unescape(t[5..])
    else if |t| >= 4 && t[..4] == "&lt;" then "<" + Unescape(t[4..])
    else if |t| >= 4 && t[..4] == "&gt;" then ">" + Unescape(t[4..])
    else if |t| >= 6 && t[..6] == "&quot;" then "\"" + Unescape(t[6..])
    else if |t| >= 5 && t[..5] == "&#39;" then "'" + Unescape(t[5..])
    else [t[0]] + Unescape(t[1..])
  }

  /** Where an entity starts, no other entity starts: they differ in their second character. */
  lemma UnescapeChar(c: char, rest: string)
    ensures Unescape(EscapeChar(c) + rest) == [c] + Unescape(rest)
  {
    if c == '&' {
      UnescapeAmp(rest);
    } else if c == '<' {
      UnescapeLt(rest);
    } else if c == '>' {
      UnescapeGt(rest);
    } else if c == '"' {
      UnescapeQuot(rest);
    } else if c == '\'' {
      UnescapeApos(rest);
    } else {
      UnescapePlain(c, rest);
    }
  }

  lemma UnescapePlain(c: char, rest: string)
    requires c != '&'
    ensures Unescape([c] + rest) == [c] + Unescape(rest)
  {
    var t := [c] + rest;
    assert t[0] == c && t[1..] == rest;
    assert |t| >= 4 ==> t[..4][0] == c;
    assert |t| >= 5 ==> t[..5][0] == c;
    assert |t| >= 6 ==> t[..6][0] == c;
  }

  lemma UnescapeAmp(rest: string)
    ensures Unescape("&amp;" + rest) == "&" + Unescape(rest)
  {
    var t := "&amp;" + rest;
    assert t[..5] == "&amp;" && t[5..] == rest;
  }

  lemma UnescapeLt(rest: string)
    ensures Unescape("&lt;" + rest) == "<" + Unescape(rest)
  {
    var t := "&lt;" + rest;
    assert t[..4] == "&lt;" && t[4..] == rest;
    assert |t| >= 5 ==> t[..5][1] == 'l';
  }

  lemma UnescapeGt(rest: string)
    ensures Unescape("&gt;" + rest) == ">" + Unescape(rest)
  {
    var t := "&gt;" + rest;
    assert t[..4] == "&gt;" && t[4..] == rest;
    assert |t| >= 5 ==> t[..5][1] == 'g';
  }

  lemma UnescapeQuot(rest: string)
    ensures Unescape("&quot;" + rest) == "\"" + Unescape(rest)
  {
    var t := "&quot;" + rest;
    assert t[..6] == "&quot;" && t[6..] == rest;
    assert t[..5][1] == 'q' && t[..4][1] == 'q';
  }

  lemma UnescapeApos(rest: string)
    ensures Unescape("&#39;" + rest) == "'" + Unescape(rest)
  {
    var t := "&#39;" + rest;
    assert t[..5] == "&#39;" && t[5..] == rest;
    assert t[..4][1] == '#' && (|t| >= 6 ==> t[..6][1] == '#');
  }

  /** Decoding recovers the original text: escaping loses nothing. */
  lemma {:induction false} EscapeRoundTrip(s: string)
    ensures Unescape(EscapeHtml(s)) == s
  {
    if s != [] {
      EscapeRoundTrip(s[1..]);
      UnescapeChar(s[0], EscapeHtml(s[1..]));
    }
  }

  /** The four canned replies. */
  datatype Reply = Greeting | ResumeHelp | Welcome | Fallback {
    function Text(): string {
      match this
      case Greeting => "Hello \U{2014} how can I assist you today?"
      case ResumeHelp => "I can help improve your resume. Tell me the job title and your experience."
      case Welcome => "You're welcome \U{2014} happy to help!"
      case Fallback => "I'm Sir \U{2014} I can answer questions, improve your resume, or give tips. Try asking me for a resume summary."
    }
  }

  /** The reply for a lower-cased question: the first keyword group found wins. */
  function Pick(q: string): Reply {
    if Contains(q, "hello") || Contains(q, "hi") then Greeting
    else if Contains(q, "resume") then ResumeHelp
    else if Contains(q, "thanks") || Contains(q, "thank") then Welcome
    else Fallback
  }

  /** `getBotReply(question)`: the question is lower-cased first, so a greeting
      in any letter case gets the greeting, and a question with none of the
      keywords gets the fallback. */
  function GetBotReply(question: string): (r: string)
    ensures Contains(ToLower(question), "hello") || Contains(ToLower(question), "hi") ==> r == Greeting.Text()
    ensures (&& !Contains(ToLower(question), "hello") && !Contains(ToLower(question), "hi")
             && !Contains(ToLower(question), "resume") && !Contains(ToLower(question), "thank"))
            ==> r == Fallback.Text()
  {
    var q := ToLower(question);
    ThanksImpliesThank(q);
    Pick(q).Text()
  }

  /** Matching ignores (ASCII) case: questions that lower-case alike get the same reply. */
  lemma ReplyIgnoresCase(a: string, b: string)
    requires ToLower(a) == ToLower(b)
    ensures GetBotReply(a) == GetBotReply(b)
  {
  }

  /** "thanks" contains "thank", so the first of the two alternatives never decides anything. */
  lemma ThanksImpliesThank(q: string)
    ensures Contains(q, "thanks") ==> Contains(q, "thank")
  {
    if Contains(q, "thanks") {
      var i: nat :| i <= |q| && StartsAt(q, i, "thanks");
      assert q[i..i + 5] == q[i..i + 6][..5];
      assert StartsAt(q, i, "thank");
    }
  }

  /** The reply for each keyword group, first match winning; the thank-you reply
      needs only "thank". */
  lemma ReplyPriority(q: string)
    ensures Pick(q) == Greeting <==> Contains(q, "hello") || Contains(q, "hi")
    ensures Pick(q) == ResumeHelp <==> !Contains(q, "hello") && !Contains(q, "hi") && Contains(q, "resume")
    ensures Pick(q) == Welcome <==> !Contains(q, "hello") && !Contains(q, "hi") && !Contains(q, "resume") && Contains(q, "thank")
  {
    ThanksImpliesThank(q);
  }
}
