/** emailService.js: the messages the two form senders compile, the subject
    labels, the outcome of a send, and the mailto link of the fallback. The
    EmailJS call, the clock (`toLocaleString`) and `encodeURIComponent` are not
    modelled: the send's success, the timestamp text and the encoder are
    parameters. */
module EmailService {

  const TargetEmail := "contact@scaleiot.org"
  const SentMessage := "Email sent successfully"
  const FailedMessage := "Failed to send email. Please try again."

  datatype BetaForm = BetaForm(name: string, email: string, phone: string, vehicle: string)
  datatype OrgForm = OrgForm(name: string, company: string, email: string, phone: string,
                             facilityType: string, message: string)

  /** `value || fallback` on a string: an empty string is falsy. */
  function OrElse(value: string, fallback: string): (r: string)
    ensures value != "" ==> r == value
    ensures value == "" ==> r == fallback
  {
    if value != "" then value else fallback
  }

  /** The subject label: "beta test" exactly for the type "beta". */
  function Subject(kind: string): (s: string)
    ensures s == "beta test" <==> kind == "beta"
    ensures s == "org contact" <==> kind != "beta"
  {
    if kind == "beta" then "beta test" else "org contact"
  }

  /* ---------------- compiled messages ---------------- */

  /** The message `sendBetaSignupEmail` compiles, ending with the submission time. */
  function BetaMessage(f: BetaForm, submittedAt: string): string {
    "BETA TEST SIGNUP\n\nName: " + f.name + "\nEmail: " + f.email
    + "\nPhone: " + OrElse(f.phone, "Not provided") + "\nVehicle: " + OrElse(f.vehicle, "Not specified")
    + "\n\nForm submitted at: " + submittedAt
  }

  /** The message `sendOrganizationContactEmail` compiles. */
  function OrgMessage(f: OrgForm, submittedAt: string): string {
    "ORGANIZATION CONTACT\n\nName: " + f.name + "\nCompany: " + f.company + "\nEmail: " + f.email
    + "\nPhone: " + f.phone + "\nFacility Type: " + f.facilityType + "\nMessage: " + f.message
    + "\n\nForm submitted at: " + submittedAt
  }

  /** The fallback's body for a beta signup. */
  function BetaFallbackBody(f: BetaForm): string {
    "BETA TEST SIGNUP\n\nName: " + f.name + "\nEmail: " + f.email
    + "\nPhone: " + OrElse(f.phone, "Not provided") + "\nVehicle: " + OrElse(f.vehicle, "Not specified")
  }

  /** The fallback's body for an organisation contact. */
  function OrgFallbackBody(f: OrgForm): string {
    "ORGANIZATION CONTACT\n\nName: " + f.name + "\nCompany: " + f.company + "\nEmail: " + f.email
    + "\nPhone: " + f.phone + "\nFacility Type: " + f.facilityType + "\nMessage: " + f.message
  }

  /** The fallback body is the sent message without its timestamp block. */
  lemma FallbackIsMessagePrefix(b: BetaForm, o: OrgForm, submittedAt: string)
    ensures BetaMessage(b, submittedAt) == BetaFallbackBody(b) + "\n\nForm submitted at: " + submittedAt
    ensures OrgMessage(o, submittedAt) == OrgFallbackBody(o) + "\n\nForm submitted at: " + submittedAt
  {
  }

  /** An empty phone or vehicle reads exactly like one filled in with the
      default text, and a filled-in one is kept as typed. */
  lemma BetaDefaults(f: BetaForm, submittedAt: string)
    ensures f.phone == "" ==> BetaMessage(f, submittedAt) == BetaMessage(f.(phone := "Not provided"), submittedAt)
    ensures f.vehicle == "" ==> BetaMessage(f, submittedAt) == BetaMessage(f.(vehicle := "Not specified"), submittedAt)
    ensures f.phone != "" && f.vehicle != "" ==>
              BetaMessage(f, submittedAt) == "BETA TEST SIGNUP\n\nName: " + f.name + "\nEmail: " + f.email
                                             + "\nPhone: " + f.phone + "\nVehicle: " + f.vehicle
                                             + "\n\nForm submitted at: " + submittedAt
  {
  }

  /* ---------------- sending ---------------- */

  /** The two template variables sent to EmailJS. */
  datatype TemplateParams = TemplateParams(subject: string, message: string)

  /** A sender's result: the success object, or the error it throws. */
  datatype Outcome = Success(message: string) | Failure(error: string)

  /** What a send hands to EmailJS and what it returns, given whether the
      send resolved. */
  datatype Sent = Sent(params: TemplateParams, outcome: Outcome)

  function Settle(delivered: bool): (o: Outcome)
    ensures o.Success? <==> delivered
    ensures o.Success? ==> o.message == SentMessage
    ensures o.Failure? ==> o.error == FailedMessage
  {
    if delivered then Success(SentMessage) else Failure(FailedMessage)
  }

  /** `sendBetaSignupEmail(formData)`. */
  function SendBetaSignup(f: BetaForm, submittedAt: string, delivered: bool): (s: Sent)
    ensures s.params.subject == Subject("beta")
    ensures s.params.message == BetaMessage(f, submittedAt)
    ensures s.outcome == Settle(delivered)
  {
    Sent(TemplateParams("beta test", BetaMessage(f, submittedAt)), Settle(delivered))
  }

  /** `sendOrganizationContactEmail(formData)`. */
  function SendOrganizationContact(f: OrgForm, submittedAt: string, delivered: bool): (s: Sent)
    ensures s.params.subject == "org contact" == Subject("org")
    ensures s.params.message == OrgMessage(f, submittedAt)
    ensures s.outcome == Settle(delivered)
  {
    Sent(TemplateParams("org contact", OrgMessage(f, submittedAt)), Settle(delivered))
  }

  /* ---------------- mailto fallback ---------------- */

  /** The head of every fallback link: the fixed mailbox and the subject key. */
  const MailtoHead := "mailto:" + TargetEmail + "?subject="

  /** The fallback's body for the form type. */
  function FallbackBody(kind: string, b: BetaForm, o: OrgForm): string {
    if kind == "beta" then BetaFallbackBody(b) else OrgFallbackBody(o)
  }

  /** `sendFallbackEmail(formData, type)`: the link it opens, with
      `encodeURIComponent` as the parameter `enc`. The form is read as a beta
      signup when `kind` is "beta" and as an organisation contact otherwise. */
  function FallbackLink(kind: string, b: BetaForm, o: OrgForm, enc: string -> string): string {
    MailtoHead + enc(Subject(kind)) + "&body=" + enc(FallbackBody(kind, b, o))
  }

  /** The text before the first `c` (all of it when there is none). */
  function TakeUntil(s: string, c: char): (r: string)
    ensures |r| <= |s| && r == s[..|r|] && c !in r
  {
    if |s| == 0 || s[0] == c then "" else [s[0]] + TakeUntil(s[1..], c)
  }

  lemma {:induction false} TakeUntilPrefix(a: string, c: char, b: string)
    requires c !in a
    ensures TakeUntil(a + [c] + b, c) == a
    decreases |a|
  {
    if |a| > 0 {
      assert (a + [c] + b)[0] == a[0] && (a + [c] + b)[1..] == a[1..] + [c] + b;
      TakeUntilPrefix(a[1..], c, b);
    } else {
      assert (a + [c] + b)[0] == c;
    }
  }

  /** In `head + subject + "&body=" + body`, the subject is the text between
      the head and the first '&' when it holds no '&' itself. */
  lemma SubjectField(head: string, subject: string, body: string)
    requires '&' !in subject
    ensures var link := head + subject + "&body=" + body;
            && link[..|head|] == head
            && TakeUntil(link[|head|..], '&') == subject
  {
    var rest := subject + "&body=" + body;
    assert head + subject + "&body=" + body == head + rest;
    assert (head + rest)[|head|..] == rest;
    assert rest == subject + ['&'] + ("body=" + body);
    TakeUntilPrefix(subject, '&', "body=" + body);
  }

  /** The link is addressed to the fixed mailbox, and when the encoder never
      writes a bare '&' (percent-encoding writes it as %26) the subject can be
      read back as the text up to the first '&' after the head. */
  lemma FallbackLinkShape(kind: string, b: BetaForm, o: OrgForm, enc: string -> string)
    requires forall s :: '&' !in enc(s)
    ensures var link := FallbackLink(kind, b, o, enc);
            && link[..|MailtoHead|] == MailtoHead
            && TakeUntil(link[|MailtoHead|..], '&') == enc(Subject(kind))
  {
    SubjectField(MailtoHead, enc(Subject(kind)), enc(FallbackBody(kind, b, o)));
  }
}
