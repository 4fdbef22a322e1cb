/**
 * The mail the contact endpoint (app/api/contact/route.ts) sends: its subject, its HTML
 * body with the escaped fields, and its plain-text body.
 */
module ContactMail {
  import opened HtmlEscape

  const SubjectPrefix: string := "BLUEPMS Callback Request \U{2013} "

  /** `BLUEPMS Callback Request – ${name}`: the en dash separator, then the name as posted, unescaped. */
  function Subject(name: string): (s: string)
    ensures |s| == |SubjectPrefix| + |name|
    ensures s[..|SubjectPrefix|] == SubjectPrefix && s[|SubjectPrefix|..] == name
    ensures s[|SubjectPrefix| - 2] == '\U{2013}'
  {
    SubjectPrefix + name
  }

  /** The pieces of the html template around the three fields. */
  const HtmlOpen: string :=
    "\n      <div style=\"font-family: ui-sans-serif, system-ui; line-height:1.6\">\n"
    + "        <h2>Callback request from BLUEPMS site</h2>\n"
    + "        <p><strong>Name:</strong> "
  const HtmlAfterName: string := "</p>\n        <p><strong>Email:</strong> "
  const HtmlAfterEmail: string :=
    "</p>\n        <p><strong>Message:</strong></p>\n        <pre style=\"white-space:pre-wrap\">"
  const HtmlClose: string := "</pre>\n      </div>\n    "

  /**
   * The HTML body, kept as the three fields it is made of; `Render` gives the markup: the
   * template with the escaped fields spliced in.
   */
  datatype HtmlBody = CallbackHtml(name: string, email: string, message: string)
  {
    /** The markup: the template with the escaped fields spliced in. */
    function Render(): string {
      HtmlOpen + EscapeHtml(name) + HtmlAfterName + EscapeHtml(email) + HtmlAfterEmail
      + EscapeHtml(message) + HtmlClose
    }
  }

  /** The markup opens with the template, then the escaped name; it ends with the escaped message and the template's close. */
  lemma RenderParts(b: HtmlBody)
    ensures var r := b.Render();
      && r[..|HtmlOpen|] == HtmlOpen
      && r[|HtmlOpen|..|HtmlOpen| + |EscapeHtml(b.name)|] == EscapeHtml(b.name)
      && r[|r| - |HtmlClose|..] == HtmlClose
      && r[|r| - |HtmlClose| - |EscapeHtml(b.message)|..|r| - |HtmlClose|] == EscapeHtml(b.message)
  {
    SplicedParts(HtmlOpen, EscapeHtml(b.name), HtmlAfterName, EscapeHtml(b.email), HtmlAfterEmail,
                 EscapeHtml(b.message), HtmlClose, b.Render());
  }

  /** Where the first and the last two pieces of a seven-piece splice sit. */
  lemma SplicedParts(a: string, x: string, b: string, y: string, d: string, z: string, e: string, r: string)
    requires r == a + x + b + y + d + z + e
    ensures |r| == |a| + |x| + |b| + |y| + |d| + |z| + |e|
    ensures r[..|a|] == a && r[|a|..|a| + |x|] == x
    ensures r[|r| - |e|..] == e && r[|r| - |e| - |z|..|r| - |e|] == z
  {
    var head := a + x;
    var tail := z + e;
    assert r == head + (b + y + d) + tail;
    assert r[..|head|] == head;
    assert r[|r| - |tail|..] == tail;
  }

  const TextNameLabel: string := "Name: "

  /** The plain-text body: the fields as posted, unescaped, after their labels. */
  function Text(name: string, email: string, message: string): (t: string)
    ensures |t| == |TextNameLabel| + |name| + |email| + |message| + 19
    ensures t[..|TextNameLabel|] == TextNameLabel
    ensures t[|TextNameLabel|..|TextNameLabel| + |name|] == name
    ensures t[|t| - |message|..] == message
  {
    TextNameLabel + name + "\nEmail: " + email + "\n\nMessage:\n" + message
  }

  /** Splicing strings without c into a skeleton leaves the number of c's that of the skeleton. */
  lemma CountSpliced(a: string, x: string, b: string, y: string, d: string, z: string, e: string, c: char)
    requires Count(x, c) == 0 && Count(y, c) == 0 && Count(z, c) == 0
    ensures Count(a + x + b + y + d + z + e, c) == Count(a + b + d + e, c)
  {
    CountConcat(a, x, c);
    CountConcat(a + x, b, c);
    CountConcat(a + x + b, y, c);
    CountConcat(a + x + b + y, d, c);
    CountConcat(a + x + b + y + d, z, c);
    CountConcat(a + x + b + y + d + z, e, c);
    CountConcat(a, b, c);
    CountConcat(a + b, d, c);
    CountConcat(a + b + d, e, c);
  }

  /**
   * No field can add markup: whatever was posted, the message has as many `<`, `>`, `"`
   * and `'` characters as with any other fields, that is as the template itself.
   */
  lemma HtmlMarkupFixed(b1: HtmlBody, b2: HtmlBody, c: char)
    requires c == '<' || c == '>' || c == '"' || c == '\''
    ensures Count(b1.Render(), c) == Count(b2.Render(), c)
  {
    var name1, email1, message1 := b1.name, b1.email, b1.message;
    var name2, email2, message2 := b2.name, b2.email, b2.message;
    var open, afterName, afterEmail, close := HtmlOpen, HtmlAfterName, HtmlAfterEmail, HtmlClose;
    CountEscaped(name1, c);
    CountEscaped(email1, c);
    CountEscaped(message1, c);
    CountSpliced(open, EscapeHtml(name1), afterName, EscapeHtml(email1), afterEmail,
                 EscapeHtml(message1), close, c);
    CountEscaped(name2, c);
    CountEscaped(email2, c);
    CountEscaped(message2, c);
    CountSpliced(open, EscapeHtml(name2), afterName, EscapeHtml(email2), afterEmail,
                 EscapeHtml(message2), close, c);
  }
}
