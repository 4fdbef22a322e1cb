/**
 * The contact endpoint (app/api/contact/route.ts): validation of the posted fields, the
 * SMTP settings read from the environment, the mail it plans and the response it returns.
 * Reading the request body, the environment and the SMTP exchange are inputs of the model.
 */
module ContactApi {
  import opened Wrappers
  import opened JsText
  import opened ContactMail

  /** The three fields of the posted JSON object; an absent field is None. */
  datatype Request = Request(name: Option<string>, email: Option<string>, message: Option<string>)

  /**
   * What `await req.json()` gives: a parse error with its message; the value `null`, whose
   * destructuring throws a TypeError with the given message; or any other value, read as
   * its three fields (a value that is not an object has none of them).
   */
  datatype Body = Malformed(error: string) | Null(error: string) | Json(request: Request)

  /** The environment variables SMTP_HOST, SMTP_PORT, SMTP_USER, SMTP_PASS, MAIL_FROM, MAIL_TO. */
  datatype Env = Env(
    smtpHost: Option<string>, smtpPort: Option<string>,
    smtpUser: Option<string>, smtpPass: Option<string>,
    mailFrom: Option<string>, mailTo: Option<string>)

  /** A string value is truthy when present and non-empty. */
  predicate Truthy(v: Option<string>) {
    v.Some? && v.value != ""
  }

  /** `v || fallback`. */
  function OrElse(v: Option<string>, fallback: string): string {
    if Truthy(v) then v.value else fallback
  }

  predicate FieldsPresent(req: Request) {
    Truthy(req.name) && Truthy(req.email) && Truthy(req.message)
  }

  predicate CredentialsPresent(env: Env) {
    Truthy(env.smtpUser) && Truthy(env.smtpPass)
  }

  /** A JavaScript number, as far as the port needs one. */
  datatype Num = Finite(value: int) | NaN

  /** The value of an optionally signed string of decimal digits. */
  function SignedDecimal(t: string): (n: Num)
    ensures AllDigits(t) && t != [] ==> n == Finite(DecimalValue(t))
  {
    if t != [] && AllDigits(t) then Finite(DecimalValue(t))
    else if |t| >= 2 && t[0] == '+' && AllDigits(t[1..]) then Finite(DecimalValue(t[1..]))
    else if |t| >= 2 && t[0] == '-' && AllDigits(t[1..]) then Finite(-(DecimalValue(t[1..]) as int))
    else NaN
  }

  /** `Number(s)` for decimal integer strings: blank is 0, surrounding white space is ignored. */
  function ToNumber(s: string): (n: Num)
    ensures AllWhitespace(s) ==> n == Finite(0)
  {
    var t := Trim(s);
    if t == [] then Finite(0) else SignedDecimal(t)
  }

  /** A port number written out is read back as that number, even with white space around it. */
  lemma ToNumberOfNumeral(p: nat, lead: string, trail: string)
    requires AllWhitespace(lead) && AllWhitespace(trail)
    ensures ToNumber(lead + NatToString(p) + trail) == Finite(p)
  {
    TrimOfCore(lead, NatToString(p), trail);
    DecimalValueOfNatToString(p);
  }

  /** `Number(process.env.SMTP_PORT || 587)`. */
  function SmtpPort(env: Env): (p: Num)
    ensures !Truthy(env.smtpPort) ==> p == Finite(587)
  {
    if Truthy(env.smtpPort) then ToNumber(env.smtpPort.value) else Finite(587)
  }

  datatype Transport = Transport(host: string, port: Num, secure: bool, requireTLS: bool,
                                 user: string, pass: string)

  datatype Mail = Mail(from: string, to: string, subject: string, replyTo: string,
                       html: HtmlBody, text: string)

  datatype Response = Response(status: int, body: string)

  /** What the handler does with a parsed request: answer at once, or send a mail. */
  datatype Plan = Reject(response: Response) | Deliver(transport: Transport, mail: Mail)

  const DefaultHost: string := "smtp.gmail.com"
  const DefaultFrom: string := "connect@bluepms.com"
  const DefaultTo: string := "karthickpk@bluepms.com"

  /** The transport options: TLS from the start on 465, STARTTLS required on 587, neither otherwise. */
  function TransportFor(env: Env): (t: Transport)
    requires CredentialsPresent(env)
    ensures t.host == OrElse(env.smtpHost, DefaultHost) && t.port == SmtpPort(env)
    ensures t.secure <==> t.port == Finite(465)
    ensures t.requireTLS <==> t.port == Finite(587)
    ensures !(t.secure && t.requireTLS)
    ensures !Truthy(env.smtpPort) ==> t.requireTLS && !t.secure
    ensures t.user == env.smtpUser.value && t.pass == env.smtpPass.value
  {
    var port := SmtpPort(env);
    Transport(OrElse(env.smtpHost, DefaultHost), port, port == Finite(465), port == Finite(587),
              env.smtpUser.value, env.smtpPass.value)
  }

  /**
   * The mail: its sender is MAIL_FROM or else the SMTP user; the built-in sender is never
   * used, because a request without a user has already been answered.
   */
  function MailFor(req: Request, env: Env): (m: Mail)
    requires FieldsPresent(req) && CredentialsPresent(env)
    ensures m.from == (if Truthy(env.mailFrom) then env.mailFrom.value else env.smtpUser.value)
    ensures m.to == OrElse(env.mailTo, DefaultTo)
    ensures m.replyTo == req.email.value
    ensures m.subject == Subject(req.name.value)
    ensures m.html == CallbackHtml(req.name.value, req.email.value, req.message.value)
    ensures m.text == Text(req.name.value, req.email.value, req.message.value)
  {
    var name, email, message := req.name.value, req.email.value, req.message.value;
    var from := OrElse(env.mailFrom, OrElse(env.smtpUser, DefaultFrom));
    Mail(from, OrElse(env.mailTo, DefaultTo), Subject(name), email, CallbackHtml(name, email, message),
         Text(name, email, message))
  }

  /**
   * The checks of the handler: missing fields are answered with 400 before the environment
   * is looked at, missing credentials with 500, and otherwise a mail is sent.
   */
  function PlanRequest(req: Request, env: Env): (p: Plan)
    ensures p.Reject? ==> p.response.status == 400 || p.response.status == 500
    ensures p.Reject? && p.response.status == 400 <==> !FieldsPresent(req)
    ensures p.Reject? && p.response.status == 400 ==> p.response.body == "Missing fields"
    ensures p.Reject? && p.response.status == 500 <==> FieldsPresent(req) && !CredentialsPresent(env)
    ensures p.Reject? && p.response.status == 500 ==> p.response.body == "SMTP credentials missing"
    ensures p.Deliver? <==> FieldsPresent(req) && CredentialsPresent(env)
    ensures p.Deliver? ==> p.transport == TransportFor(env) && p.mail == MailFor(req, env)
  {
    if !Truthy(req.name) || !Truthy(req.email) || !Truthy(req.message) then
      Reject(Response(400, "Missing fields"))
    else if !Truthy(env.smtpUser) || !Truthy(env.smtpPass) then
      Reject(Response(500, "SMTP credentials missing"))
    else
      Deliver(TransportFor(env), MailFor(req, env))
  }

  /** How creating the transport and sending the mail ends: sent, or an error with its message (empty when it has none). */
  datatype SendResult = Sent | Threw(message: string)

  /** `err?.message || "Email failed"`. */
  function ErrorBody(message: string): (b: string)
    ensures b != ""
    ensures message != "" ==> b == message
  {
    if message != "" then message else "Email failed"
  }

  /**
   * `POST`: 200 "OK" exactly when the body parsed, the fields and credentials are present
   * and the mail went out; 400 for missing fields; 500 for everything else, with a
   * non-empty body.
   */
  function Post(body: Body, env: Env, sent: SendResult): (r: Response)
    ensures r.status == 200 || r.status == 400 || r.status == 500
    ensures r.body != ""
    ensures r.status == 200 <==>
              body.Json? && FieldsPresent(body.request) && CredentialsPresent(env) && sent == Sent
    ensures r.status == 200 ==> r.body == "OK"
    ensures r.status == 400 <==> body.Json? && !FieldsPresent(body.request)
    ensures body.Malformed? || body.Null? ==> r == Response(500, ErrorBody(body.error))
    ensures body.Json? && FieldsPresent(body.request) && CredentialsPresent(env) && sent.Threw? ==>
              r == Response(500, ErrorBody(sent.message))
  {
    match body
    case Malformed(error) => Response(500, ErrorBody(error))
    case Null(error) => Response(500, ErrorBody(error))
    case Json(req) =>
      match PlanRequest(req, env)
      case Reject(response) => response
      case Deliver(_, _) =>
        if sent == Sent then Response(200, "OK") else Response(500, ErrorBody(sent.message))
  }

  /** A request with a missing field gets the same 400 whatever the environment and the mail server do. */
  lemma MissingFieldsIgnoreServer(req: Request, env1: Env, env2: Env, s1: SendResult, s2: SendResult)
    requires !FieldsPresent(req)
    ensures Post(Json(req), env1, s1) == Post(Json(req), env2, s2) == Response(400, "Missing fields")
  {
  }
}
