/**
 * `escapeHtml` of the contact endpoint (app/api/contact/route.ts): five `replaceAll` calls,
 * ampersand first. The model proves the chain equal to a one-pass escape, proves that it
 * can be decoded back, and counts characters to show what it removes.
 */
module HtmlEscape {
  /** `s.replaceAll(c, rep)` for a one-character pattern: every occurrence of c becomes rep. */
  function ReplaceAll(s: string, c: char, rep: string): (r: string)
    ensures c !in s ==> r == s
    ensures c !in rep ==> c !in r
  {
    if s == [] then []
    else (if s[0] == c then rep else [s[0]]) + ReplaceAll(s[1..], c, rep)
  }

  /** A character absent from the input and from the replacement is absent from the output. */
  lemma {:induction false} ReplaceAllKeepsAbsent(s: string, c: char, rep: string, x: char)
    requires x !in s && x !in rep
    ensures x !in ReplaceAll(s, c, rep)
  {
    if s != [] {
      assert s == [s[0]] + s[1..];
      ReplaceAllKeepsAbsent(s[1..], c, rep, x);
    }
  }

  lemma {:induction false} ReplaceAllConcat(a: string, b: string, c: char, rep: string)
    ensures ReplaceAll(a + b, c, rep) == ReplaceAll(a, c, rep) + ReplaceAll(b, c, rep)
  {
    if a != [] {
      var h := if a[0] == c then rep else [a[0]];
      assert (a + b)[0] == a[0] && (a + b)[1..] == a[1..] + b;
      assert ReplaceAll(a + b, c, rep) == h + ReplaceAll(a[1..] + b, c, rep);
      ReplaceAllConcat(a[1..], b, c, rep);
    } else {
      assert a + b == b;
    }
  }

  /** `escapeHtml`: the five replacements, ampersand first. */
  function EscapeHtml(s: string): (r: string)
    ensures '<' !in r && '>' !in r && '"' !in r && '\'' !in r
  {
    var s2 := ReplaceAll(ReplaceAll(s, '&', "&amp;"), '<', "&lt;");
    var s3 := ReplaceAll(s2, '>', "&gt;");
    var s4 := ReplaceAll(s3, '"', "&quot;");
    GtStepKeeps(s2);
    QuotStepKeeps(s3);
    AposStepKeeps(s4);
    ReplaceAll(s4, '\'', "&#039;")
  }

  /** Each later replacement keeps out the characters the earlier ones removed. */
  lemma GtStepKeeps(s2: string)
    requires '<' !in s2
    ensures var s3 := ReplaceAll(s2, '>', "&gt;"); '<' !in s3 && '>' !in s3
  {
    ReplaceAllKeepsAbsent(s2, '>', "&gt;", '<');
  }

  lemma QuotStepKeeps(s3: string)
    requires '<' !in s3 && '>' !in s3
    ensures var s4 := ReplaceAll(s3, '"', "&quot;"); '<' !in s4 && '>' !in s4 && '"' !in s4
  {
    ReplaceAllKeepsAbsent(s3, '"', "&quot;", '<');
    ReplaceAllKeepsAbsent(s3, '"', "&quot;", '>');
  }

  lemma AposStepKeeps(s4: string)
    requires '<' !in s4 && '>' !in s4 && '"' !in s4
    ensures var s5 := ReplaceAll(s4, '\'', "&#039;"); '<' !in s5 && '>' !in s5 && '"' !in s5 && '\'' !in s5
  {
    ReplaceAllKeepsAbsent(s4, '\'', "&#039;", '<');
    ReplaceAllKeepsAbsent(s4, '\'', "&#039;", '>');
    ReplaceAllKeepsAbsent(s4, '\'', "&#039;", '"');
  }

  /** The entity each character stands for in the output. */
  function EscapeChar(c: char): string {
    match c
    case '&' => "&amp;"
    case '<' => "&lt;"
    case '>' => "&gt;"
    case '"' => "&quot;"
    case '\'' => "&#039;"
    case _ => [c]
  }

  /** Reference definition: every character replaced by its entity, in one pass. */
  function EscapeMap(s: string): string {
    if s == [] then [] else EscapeChar(s[0]) + EscapeMap(s[1..])
  }

  lemma EscapeHtmlConcat(a: string, b: string)
    ensures EscapeHtml(a + b) == EscapeHtml(a) + EscapeHtml(b)
  {
    ReplaceAllConcat(a, b, '&', "&amp;");
    var a1, b1 := ReplaceAll(a, '&', "&amp;"), ReplaceAll(b, '&', "&amp;");
    ReplaceAllConcat(a1, b1, '<', "&lt;");
    var a2, b2 := ReplaceAll(a1, '<', "&lt;"), ReplaceAll(b1, '<', "&lt;");
    ReplaceAllConcat(a2, b2, '>', "&gt;");
    var a3, b3 := ReplaceAll(a2, '>', "&gt;"), ReplaceAll(b2, '>', "&gt;");
    ReplaceAllConcat(a3, b3, '"', "&quot;");
    var a4, b4 := ReplaceAll(a3, '"', "&quot;"), ReplaceAll(b3, '"', "&quot;");
    ReplaceAllConcat(a4, b4, '\'', "&#039;");
  }

  lemma ReplaceAllSingle(x: char, c: char, rep: string)
    ensures ReplaceAll([x], c, rep) == if x == c then rep else [x]
  {
    assert [x][1..] == [];
  }

  /** One replacement applied to a one-character string, or to a string it does not touch. */
  lemma StageOnSingle(x: string, c: char, ch: char, rep: string)
    requires x == [c] || ch !in x
    ensures ReplaceAll(x, ch, rep) == if x == [c] && c == ch then rep else x
  {
    if x == [c] {
      ReplaceAllSingle(c, ch, rep);
    }
  }

  /** The stages after the k-th leave alone a string without their characters. */
  lemma StagesFrom2(e: string)
    requires '<' !in e && '>' !in e && '"' !in e && '\'' !in e
    ensures ReplaceAll(ReplaceAll(ReplaceAll(ReplaceAll(e, '<', "&lt;"), '>', "&gt;"), '"', "&quot;"), '\'', "&#039;") == e
  {
  }

  lemma StagesFrom3(e: string)
    requires '>' !in e && '"' !in e && '\'' !in e
    ensures ReplaceAll(ReplaceAll(ReplaceAll(e, '>', "&gt;"), '"', "&quot;"), '\'', "&#039;") == e
  {
  }

  lemma StagesFrom4(e: string)
    requires '"' !in e && '\'' !in e
    ensures ReplaceAll(ReplaceAll(e, '"', "&quot;"), '\'', "&#039;") == e
  {
  }

  lemma StagesFrom5(e: string)
    requires '\'' !in e
    ensures ReplaceAll(e, '\'', "&#039;") == e
  {
  }

  /** Each special character on its own: one stage inserts its entity, the others pass. */
  lemma EscapeAmpChar(c: char)
    requires c == '&'
    ensures EscapeHtml([c]) == "&amp;"
  {
    var s0 := [c];
    StageOnSingle(s0, c, '&', "&amp;");
    var s1 := ReplaceAll(s0, '&', "&amp;");
    StagesFrom2(s1);
  }

  lemma EscapeLtChar(c: char)
    requires c == '<'
    ensures EscapeHtml([c]) == "&lt;"
  {
    var s0 := [c];
    StageOnSingle(s0, c, '&', "&amp;");
    var s1 := ReplaceAll(s0, '&', "&amp;");
    StageOnSingle(s1, c, '<', "&lt;");
    var s2 := ReplaceAll(s1, '<', "&lt;");
    StagesFrom3(s2);
  }

  lemma EscapeGtChar(c: char)
    requires c == '>'
    ensures EscapeHtml([c]) == "&gt;"
  {
    var s0 := [c];
    StageOnSingle(s0, c, '&', "&amp;");
    var s1 := ReplaceAll(s0, '&', "&amp;");
    StageOnSingle(s1, c, '<', "&lt;");
    var s2 := ReplaceAll(s1, '<', "&lt;");
    StageOnSingle(s2, c, '>', "&gt;");
    var s3 := ReplaceAll(s2, '>', "&gt;");
    StagesFrom4(s3);
  }

  lemma EscapeQuotChar(c: char)
    requires c == '"'
    ensures EscapeHtml([c]) == "&quot;"
  {
    var s0 := [c];
    StageOnSingle(s0, c, '&', "&amp;");
    var s1 := ReplaceAll(s0, '&', "&amp;");
    StageOnSingle(s1, c, '<', "&lt;");
    var s2 := ReplaceAll(s1, '<', "&lt;");
    StageOnSingle(s2, c, '>', "&gt;");
    var s3 := ReplaceAll(s2, '>', "&gt;");
    StageOnSingle(s3, c, '"', "&quot;");
    var s4 := ReplaceAll(s3, '"', "&quot;");
    StagesFrom5(s4);
  }

  lemma EscapeAposChar(c: char)
    requires c == '\''
    ensures EscapeHtml([c]) == "&#039;"
  {
    var s0 := [c];
    StageOnSingle(s0, c, '&', "&amp;");
    var s1 := ReplaceAll(s0, '&', "&amp;");
    StageOnSingle(s1, c, '<', "&lt;");
    var s2 := ReplaceAll(s1, '<', "&lt;");
    StageOnSingle(s2, c, '>', "&gt;");
    var s3 := ReplaceAll(s2, '>', "&gt;");
    StageOnSingle(s3, c, '"', "&quot;");
    var s4 := ReplaceAll(s3, '"', "&quot;");
    StageOnSingle(s4, c, '\'', "&#039;");
    var s5 := ReplaceAll(s4, '\'', "&#039;");
  }

  /** Because `&` goes first, the `&` of an inserted entity is never escaped again. */
  lemma EscapeHtmlChar(c: char)
    ensures EscapeHtml([c]) == EscapeChar(c)
  {
    if c == '&' { EscapeAmpChar(c); }
    else if c == '<' { EscapeLtChar(c); }
    else if c == '>' { EscapeGtChar(c); }
    else if c == '"' { EscapeQuotChar(c); }
    else if c == '\'' { EscapeAposChar(c); }
    else { EscapeHtmlPlain([c]); }
  }

  /** A string without the five special characters is left as it is. */
  lemma EscapeHtmlPlain(s: string)
    requires '&' !in s && '<' !in s && '>' !in s && '"' !in s && '\'' !in s
    ensures EscapeHtml(s) == s
  {
    var s1 := ReplaceAll(s, '&', "&amp;");
    assert s1 == s;
    var s2 := ReplaceAll(s1, '<', "&lt;");
    assert s2 == s;
    var s3 := ReplaceAll(s2, '>', "&gt;");
    assert s3 == s;
    var s4 := ReplaceAll(s3, '"', "&quot;");
    assert s4 == s;
  }

  /** The chain of replacements is the one-pass character escape. */
  lemma {:induction false} EscapeHtmlIsEscapeMap(s: string)
    ensures EscapeHtml(s) == EscapeMap(s)
  {
    if s != [] {
      assert s == [s[0]] + s[1..];
      EscapeHtmlConcat([s[0]], s[1..]);
      EscapeHtmlChar(s[0]);
      EscapeHtmlIsEscapeMap(s[1..]);
    }
  }

  /**
   * The character a string starts with once entities are decoded, and how many characters
   * it takes: one of the five entities, or else the first character itself.
   */
  function DecodeFirst(s: string): (d: (char, nat))
    requires s != []
    ensures 1 <= d.1 <= |s|
  {
    if s[0] != '&' then (s[0], 1)
    else if |s| >= 5 && s[1] == 'a' && s[2] == 'm' && s[3] == 'p' && s[4] == ';' then ('&', 5)
    else if |s| >= 4 && s[1] == 'l' && s[2] == 't' && s[3] == ';' then ('<', 4)
    else if |s| >= 4 && s[1] == 'g' && s[2] == 't' && s[3] == ';' then ('>', 4)
    else if |s| >= 6 && s[1] == 'q' && s[2] == 'u' && s[3] == 'o' && s[4] == 't' && s[5] == ';' then ('"', 6)
    else if |s| >= 6 && s[1] == '#' && s[2] == '0' && s[3] == '3' && s[4] == '9' && s[5] == ';' then ('\'', 6)
    else ('&', 1)
  }

  /** Decoding the five entities, the inverse of the escape. */
  function UnescapeHtml(s: string): string
    decreases |s|
  {
    if s == [] then [] else [DecodeFirst(s).0] + UnescapeHtml(s[DecodeFirst(s).1..])
  }

  lemma UnescapeEscapeChar(c: char, t: string)
    ensures UnescapeHtml(EscapeChar(c) + t) == [c] + UnescapeHtml(t)
  {
    var e := EscapeChar(c) + t;
    var n := |EscapeChar(c)|;
    assert e[..n] == EscapeChar(c) && e[n..] == t;
    assert DecodeFirst(e) == (c, n);
  }

  /** What the mail shows can be decoded back to exactly what was posted. */
  lemma {:induction false} UnescapeEscapeHtml(s: string)
    ensures UnescapeHtml(EscapeHtml(s)) == s
  {
    EscapeHtmlIsEscapeMap(s);
    EscapeMapRoundTrip(s);
  }

  lemma {:induction false} EscapeMapRoundTrip(s: string)
    ensures UnescapeHtml(EscapeMap(s)) == s
  {
    if s != [] {
      UnescapeEscapeChar(s[0], EscapeMap(s[1..]));
      EscapeMapRoundTrip(s[1..]);
    }
  }

  /** So two different field values never give the same markup. */
  lemma EscapeHtmlInjective(a: string, b: string)
    ensures EscapeHtml(a) == EscapeHtml(b) ==> a == b
  {
    UnescapeEscapeHtml(a);
    UnescapeEscapeHtml(b);
  }

  // ----- counting characters -----

  function Count(s: string, c: char): nat {
    if s == [] then 0 else (if s[0] == c then 1 else 0) + Count(s[1..], c)
  }

  lemma {:induction false} CountConcat(a: string, b: string, c: char)
    ensures Count(a + b, c) == Count(a, c) + Count(b, c)
  {
    if a != [] {
      assert (a + b)[0] == a[0] && (a + b)[1..] == a[1..] + b;
      CountConcat(a[1..], b, c);
    } else {
      assert a + b == b;
    }
  }

  lemma {:induction false} CountAbsent(s: string, c: char)
    requires c !in s
    ensures Count(s, c) == 0
  {
    if s != [] {
      assert s == [s[0]] + s[1..];
      CountAbsent(s[1..], c);
    }
  }

  lemma CountEscaped(s: string, c: char)
    requires c == '<' || c == '>' || c == '"' || c == '\''
    ensures Count(EscapeHtml(s), c) == 0
  {
    CountAbsent(EscapeHtml(s), c);
  }

  /** Each special character grows by the length of its entity minus one. */
  lemma EscapeCharLength(c: char)
    ensures |EscapeChar(c)| == 1 + (if c == '&' then 4 else if c == '<' || c == '>' then 3
                                    else if c == '"' || c == '\'' then 5 else 0)
  {
  }

  /** The escaped length: four more per `&`, three per `<` or `>`, five per `"` or `'`. */
  lemma {:induction false} EscapeHtmlLength(s: string)
    ensures |EscapeHtml(s)| == |s| + 4 * Count(s, '&') + 3 * Count(s, '<') + 3 * Count(s, '>')
                                   + 5 * Count(s, '"') + 5 * Count(s, '\'')
  {
    EscapeHtmlIsEscapeMap(s);
    EscapeMapLength(s);
  }

  lemma {:induction false} EscapeMapLength(s: string)
    ensures |EscapeMap(s)| == |s| + 4 * Count(s, '&') + 3 * Count(s, '<') + 3 * Count(s, '>')
                                  + 5 * Count(s, '"') + 5 * Count(s, '\'')
  {
    if s != [] {
      EscapeCharLength(s[0]);
      EscapeMapLength(s[1..]);
    }
  }
}
