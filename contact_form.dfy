/**
 * The contact page (app/contact/page.tsx): the e-mail check, the submit guard, when the
 * e-mail error is shown, and the form state the handlers update. The request the page
 * posts is the `Request` of the contact endpoint, so the two sides can be related.
 */
module ContactForm {
  import opened Wrappers
  import opened JsText
  import opened ContactApi

  // ----- the e-mail pattern /^[^\s@]+@[^\s@]+\.[^\s@]+$/ -----

  /** `[^\s@]`: neither white space nor `@`. */
  predicate EmailChar(c: char) {
    !IsJsWhitespace(c) && c != '@'
  }

  predicate AllEmailChars(s: string) {
    forall i :: 0 <= i < |s| ==> EmailChar(s[i])
  }

  /** Reference definition: the whole string is `a@b.c` with `a`, `b`, `c` non-empty runs of `[^\s@]`. */
  ghost predicate MatchesEmailPattern(s: string) {
    exists a: string, b: string, c: string ::
      s == a + "@" + b + "." + c && a != [] && b != [] && c != []
      && AllEmailChars(a) && AllEmailChars(b) && AllEmailChars(c)
  }

  /** The position of the first `c` in `s`. */
  function IndexOf(s: string, c: char): (i: nat)
    requires c in s
    ensures i < |s| && s[i] == c && forall j :: 0 <= j < i ==> s[j] != c
  {
    if s[0] == c then 0 else IndexOf(s[1..], c) + 1
  }

  /**
   * The pattern read as conditions on the string: no white space, exactly one `@`, with
   * a non-empty part before it, and a `.` after it that is neither the first character
   * after the `@` nor the last one.
   */
  predicate EmailShape(s: string) {
    && (forall i :: 0 <= i < |s| ==> !IsJsWhitespace(s[i]))
    && '@' in s
    && var at := IndexOf(s, '@');
       && (forall j :: at < j < |s| ==> s[j] != '@')
       && 0 < at && at + 2 < |s|
       && '.' in s[at + 2..|s| - 1]
  }

  /** The conditions and the pattern agree on every string, in both directions. */
  lemma EmailShapeIsPattern(s: string)
    ensures EmailShape(s) <==> MatchesEmailPattern(s)
  {
    if EmailShape(s) {
      ShapeToPattern(s);
    }
    if MatchesEmailPattern(s) {
      var a: string, b: string, c: string :|
        s == a + "@" + b + "." + c && a != [] && b != [] && c != []
        && AllEmailChars(a) && AllEmailChars(b) && AllEmailChars(c);
      PatternToShape(s, a, b, c);
    }
  }

  lemma ShapeToPattern(s: string)
    requires EmailShape(s)
    ensures MatchesEmailPattern(s)
  {
    var at := IndexOf(s, '@');
    var tail := s[at + 2..|s| - 1];
    var k := IndexOf(tail, '.');
    var dot := at + 2 + k;
    assert s[dot] == tail[k];
    SplitAround(s, at, dot);
    assert forall i :: 0 <= i < |s| && i != at ==> EmailChar(s[i]);
    EmailCharsBetween(s, 0, at);
    EmailCharsBetween(s, at + 1, dot);
    EmailCharsBetween(s, dot + 1, |s|);
    var a, b, c := s[..at], s[at + 1..dot], s[dot + 1..];
    assert s == a + "@" + b + "." + c && a != [] && b != [] && c != []
      && AllEmailChars(a) && AllEmailChars(b) && AllEmailChars(c);
  }

  /** A string cut around an `@` and a later `.`. */
  lemma SplitAround(s: string, at: nat, dot: nat)
    requires at < dot < |s| && s[at] == '@' && s[dot] == '.'
    ensures s == s[..at] + "@" + s[at + 1..dot] + "." + s[dot + 1..]
  {
    assert s == s[..at] + [s[at]] + s[at + 1..dot] + [s[dot]] + s[dot + 1..];
  }

  lemma EmailCharsBetween(s: string, lo: nat, hi: nat)
    requires lo <= hi <= |s| && forall i :: lo <= i < hi ==> EmailChar(s[i])
    ensures AllEmailChars(s[lo..hi])
  {
    assert forall i :: 0 <= i < hi - lo ==> s[lo..hi][i] == s[lo + i];
  }

  lemma PatternToShape(s: string, a: string, b: string, c: string)
    requires s == a + "@" + b + "." + c && a != [] && b != [] && c != []
    requires AllEmailChars(a) && AllEmailChars(b) && AllEmailChars(c)
    ensures EmailShape(s)
  {
    var at := |a|;
    var dot := |a| + 1 + |b|;
    assert s[at] == '@' && s[dot] == '.';
    forall i | 0 <= i < |s| ensures !IsJsWhitespace(s[i]) && (s[i] == '@' ==> i == at) {
      if i < at {
        assert s[i] == a[i];
      } else if at < i < dot {
        assert s[i] == b[i - at - 1];
      } else if dot < i {
        assert s[i] == c[i - dot - 1];
      }
    }
    IndexOfFirst(s, '@', at);
    assert s[at + 2..|s| - 1][dot - at - 2] == '.';
  }

  /** The first occurrence is the only index before which `c` does not occur. */
  lemma IndexOfFirst(s: string, c: char, k: nat)
    requires k < |s| && s[k] == c && forall i :: 0 <= i < k ==> s[i] != c
    ensures c in s && IndexOf(s, c) == k
  {
  }

  /** `isValidEmail`: the pattern tested on the trimmed value. */
  predicate IsValidEmail(v: string) {
    EmailShape(Trim(v))
  }

  /** `isValidEmail` accepts exactly the trimmed values that match the pattern. */
  lemma IsValidEmailMatchesPattern(v: string)
    ensures IsValidEmail(v) <==> MatchesEmailPattern(Trim(v))
  {
    EmailShapeIsPattern(Trim(v));
  }

  /** Leading and trailing white space never changes the verdict. */
  lemma IsValidEmailTrimInsensitive(v: string, lead: string, trail: string)
    requires AllWhitespace(lead) && AllWhitespace(trail)
    ensures IsValidEmail(lead + v + trail) == IsValidEmail(v)
  {
    TrimPadded(v, lead, trail);
  }

  lemma IsValidEmailOfTrim(v: string)
    ensures IsValidEmail(Trim(v)) == IsValidEmail(v)
  {
    TrimIdempotent(v);
  }

  /** A string of the e-mail shape has no white space, one `@` after a non-empty part, and a `.` inside its domain. */
  lemma EmailShapeParts(s: string)
    requires EmailShape(s)
    ensures forall i :: 0 <= i < |s| ==> !IsJsWhitespace(s[i])
    ensures exists at :: (0 < at < |s| && s[at] == '@'
                          && (forall i :: 0 <= i < |s| && s[i] == '@' ==> i == at)
                          && (exists d :: at + 1 < d < |s| - 1 && s[d] == '.'))
  {
    var at := IndexOf(s, '@');
    var tail := s[at + 2..|s| - 1];
    var k := IndexOf(tail, '.');
    assert s[at + 2 + k] == '.';
  }

  // ----- the submit guard and the error message -----

  /** `canSubmit`: a name and a message that are not blank, and a valid e-mail. */
  function CanSubmitFields(name: string, email: string, message: string): (b: bool)
    ensures b ==> !AllWhitespace(name) && IsValidEmail(email) && !AllWhitespace(message)
    ensures !AllWhitespace(name) && IsValidEmail(email) && !AllWhitespace(message) ==> b
  {
    |Trim(name)| > 0 && IsValidEmail(email) && |Trim(message)| > 0
  }

  /** The error below the e-mail field: only after a blur, and never for an empty field. */
  function EmailErrorVisible(emailTouched: bool, email: string): (b: bool)
    ensures !emailTouched || email == [] ==> !b
    ensures IsValidEmail(email) ==> !b
    ensures emailTouched && email != [] && !IsValidEmail(email) ==> b
  {
    emailTouched && |email| > 0 && !IsValidEmail(email)
  }

  /** A cleared form can be submitted no more. */
  lemma EmptyFormBlocked()
    ensures !CanSubmitFields([], [], []) && !EmailErrorVisible(false, [])
  {
    assert Trim([]) == [];
  }

  /** The error and the submit guard never disagree about the e-mail: a submittable form shows no error. */
  lemma SubmittableShowsNoError(name: string, email: string, message: string, touched: bool)
    requires CanSubmitFields(name, email, message)
    ensures !EmailErrorVisible(touched, email)
  {
  }

  /** `JSON.stringify({ name, email, message })` as the endpoint parses it. */
  function Payload(name: string, email: string, message: string): (r: Request)
    ensures r.name == Some(name) && r.email == Some(email) && r.message == Some(message)
  {
    Request(Some(name), Some(email), Some(message))
  }

  /** Whatever the page lets through passes the endpoint's missing-field check. */
  lemma SubmittablePassesServerCheck(name: string, email: string, message: string, env: Env, sent: SendResult)
    requires CanSubmitFields(name, email, message)
    ensures FieldsPresent(Payload(name, email, message))
    ensures Post(Json(Payload(name, email, message)), env, sent).status != 400
  {
    SubmittableFieldsNonEmpty(name, email, message);
  }

  lemma SubmittableFieldsNonEmpty(name: string, email: string, message: string)
    requires CanSubmitFields(name, email, message)
    ensures name != [] && email != [] && message != []
  {
    assert Trim(email) != [];
  }

  /** The WhatsApp message, before it is percent-encoded into the link. */
  function WhatsAppText(name: string, email: string, message: string): (t: string)
    ensures |t| == |WhatsAppGreeting| + |name| + |email| + |message| + 20
    ensures t[..|WhatsAppGreeting|] == WhatsAppGreeting
    ensures t[|t| - |message|..] == message
  {
    WhatsAppGreeting + name + ".\nEmail: " + email + "\n\nMessage:\n" + message
  }

  const WhatsAppGreeting: string := "Hi BLUEPMS,\n\nMy name is "

  const WhatsAppNumber: string := "14258940847"

  /** `https://wa.me/${WA_NUMBER}?text=${text}`, with the message text not percent-encoded. */
  function WhatsAppLink(text: string): (link: string)
    ensures |link| == |WhatsAppLinkPrefix| + |text|
    ensures link[..|WhatsAppLinkPrefix|] == WhatsAppLinkPrefix
    ensures link[|WhatsAppLinkPrefix|..] == text
  {
    WhatsAppLinkPrefix + text
  }

  const WhatsAppLinkPrefix: string := "https://wa.me/" + WhatsAppNumber + "?text="

  /** `res.ok`: a status in 200..299. */
  predicate Ok(status: int) {
    200 <= status <= 299
  }

  const ThanksNotice: string := "Thanks! We’ll reach out shortly."

  function FailureNotice(responseText: string): string {
    "Something went wrong: " + responseText
  }

  // ----- the form state -----

  /** The four `useState` values of the page. */
  class Form {
    var name: string
    var email: string
    var emailTouched: bool
    var message: string

    constructor()
      ensures name == [] && email == [] && !emailTouched && message == []
      ensures !CanSubmit() && !ShowEmailError()
    {
      name, email, emailTouched, message := [], [], false, [];
    }

    predicate CanSubmit()
      reads this
    {
      CanSubmitFields(name, email, message)
    }

    predicate ShowEmailError()
      reads this
    {
      EmailErrorVisible(emailTouched, email)
    }

    /** `onChange` of the name field. */
    method ChangeName(v: string)
      modifies this
      ensures name == v && email == old(email) && emailTouched == old(emailTouched) && message == old(message)
    {
      name := v;
    }

    /** `onChange` of the e-mail field: typing does not mark the field as touched. */
    method ChangeEmail(v: string)
      modifies this
      ensures email == v && name == old(name) && emailTouched == old(emailTouched) && message == old(message)
      ensures !emailTouched ==> !ShowEmailError()
    {
      email := v;
    }

    /** `onBlur` of the e-mail field. */
    method BlurEmail()
      modifies this
      ensures emailTouched && name == old(name) && email == old(email) && message == old(message)
      ensures ShowEmailError() <==> email != [] && !IsValidEmail(email)
    {
      emailTouched := true;
    }

    /** `onChange` of the message field. */
    method ChangeMessage(v: string)
      modifies this
      ensures message == v && name == old(name) && email == old(email) && emailTouched == old(emailTouched)
    {
      message := v;
    }

    /** The reset after a successful submit: every field back to its initial value. */
    method Reset()
      modifies this
      ensures name == [] && email == [] && message == [] && !emailTouched
      ensures !CanSubmit() && !ShowEmailError()
    {
      EmptyFormBlocked();
      name, email, message := [], [], [];
      emailTouched := false;
    }

    /**
     * `onSubmit`, with what `fetch` and `res.text()` deliver as input: nothing happens
     * unless the form can be submitted; otherwise the fields are posted; a 2xx reply thanks
     * the user and clears the form, any other reply shows its text and keeps the form as
     * it was, and a rejected `fetch` or `res.text()` (None) shows nothing and keeps it too.
     */
    method OnSubmit(reply: Option<Response>) returns (posted: Option<Request>, notice: Option<string>)
      modifies this
      ensures !old(CanSubmit()) ==> posted == None && notice == None && unchanged(this)
      ensures old(CanSubmit()) ==> posted == Some(Payload(old(name), old(email), old(message)))
      ensures old(CanSubmit()) && reply.Some? && Ok(reply.value.status) ==>
                notice == Some(ThanksNotice)
                && name == [] && email == [] && message == [] && !emailTouched
                && !CanSubmit() && !ShowEmailError()
      ensures old(CanSubmit()) && reply.Some? && !Ok(reply.value.status) ==>
                notice == Some(FailureNotice(reply.value.body)) && unchanged(this)
      ensures old(CanSubmit()) && reply.None? ==> notice == None && unchanged(this)
    {
      if !CanSubmit() {
        return None, None;
      }
      posted := Some(Payload(name, email, message));
      if reply.None? {
        notice := None;
      } else if Ok(reply.value.status) {
        notice := Some(ThanksNotice);
        Reset();
      } else {
        notice := Some(FailureNotice(reply.value.body));
      }
    }

    /** `onWhatsApp`: the link opened in WhatsApp, or nothing when the form cannot be submitted. */
    method OnWhatsApp() returns (link: Option<string>)
      ensures !CanSubmit() ==> link == None
      ensures CanSubmit() ==> link == Some(WhatsAppLink(WhatsAppText(name, email, message)))
    {
      if !CanSubmit() {
        return None;
      }
      link := Some(WhatsAppLink(WhatsAppText(name, email, message)));
    }
  }

  /** How the endpoint answers a request whose fields are all present. */
  lemma PostOfPresentFields(req: Request, env: Env, sent: SendResult)
    requires FieldsPresent(req)
    ensures CredentialsPresent(env) && sent == Sent ==> Ok(Post(Json(req), env, sent).status)
    ensures CredentialsPresent(env) && sent.Threw? ==>
              Post(Json(req), env, sent) == Response(500, ErrorBody(sent.message))
    ensures !CredentialsPresent(env) ==> Post(Json(req), env, sent) == Response(500, "SMTP credentials missing")
  {
  }

  /**
   * A form posted to the endpoint, which answers as `Post` does: a submittable form is
   * thanked and cleared when the mail goes out, and otherwise shows the endpoint's error
   * text and keeps its fields.
   */
  method SubmitToEndpoint(form: Form, env: Env, sent: SendResult) returns (notice: Option<string>)
    modifies form
    ensures !old(form.CanSubmit()) ==> notice == None && unchanged(form)
    ensures old(form.CanSubmit()) && CredentialsPresent(env) && sent == Sent ==>
              notice == Some(ThanksNotice) && !form.CanSubmit()
              && form.name == [] && form.email == [] && form.message == [] && !form.emailTouched
    ensures old(form.CanSubmit()) && CredentialsPresent(env) && sent.Threw? ==>
              notice == Some(FailureNotice(ErrorBody(sent.message))) && unchanged(form)
    ensures old(form.CanSubmit()) && !CredentialsPresent(env) ==>
              notice == Some(FailureNotice("SMTP credentials missing")) && unchanged(form)
  {
    var reply := Response(400, "Missing fields");
    if form.CanSubmit() {
      var payload := Payload(form.name, form.email, form.message);
      SubmittableFieldsNonEmpty(form.name, form.email, form.message);
      reply := Post(Json(payload), env, sent);
      PostOfPresentFields(payload, env, sent);
    }
    var posted;
    posted, notice := form.OnSubmit(Some(reply));
  }
}
