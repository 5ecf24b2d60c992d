/**
  The credential authorizer of the wallet's sign-in (apps/user-app/lib/auth.ts): the
  `authorize` callback of the credentials provider, with its email and OTP schemas, and the
  `session` callback.

  `authorize` is modelled as a function of the credentials and of the collaborators it
  consults: zod's email check, the user lookup and the two endpoints of the OTP service.
  Besides the outcome it returns the calls it made, in order, so that "nothing is consulted
  before validation" and "verify is not called for an unknown user" can be stated.
 */
module Auth {
  import opened Wrappers
  import opened Users
  import Decimal

  const OtpLength := 6
  const OtpGeneratedMessage := "OTP is generated and sent to your email"
  const OtpVerifiedMessage := "OTP is verified"
  const UserMissingMessage := "User does not exist. Please sign up."
  const RequestOtpFlag := "true"
  const PendingId := "pending"
  const OtpSentStatus := "otp_sent"

  /** The body posted to the OTP service's generate endpoint. */
  datatype OtpRequest = OtpRequest(email: string, kind: string, organization: string, subject: string)

  function GenerateRequest(email: string): OtpRequest {
    OtpRequest(email, "numeric", "Finx", "OTP Verification")
  }

  /** What an OTP endpoint gives back: a body whose `message` field may be missing, or a thrown transport error. */
  datatype Reply = Replied(message: Option<string>) | TransportFailed

  /** What `prisma.user.findFirst` gives back: a row, no row, or a thrown error. */
  datatype Lookup = Found(user: User) | NotFound | LookupFailed

  /** One call to a collaborator. */
  datatype Call =
    | Generate(request: OtpRequest)
    | FindFirst(email: string)
    | Verify(email: string, otp: string)
  {
    /** The email the call forwards to the collaborator. */
    function Email(): string {
      if Generate? then request.email else email
    }
  }

  /** The collaborators, as the answers they would give. */
  datatype Services = Services(
    isEmail: string -> bool,
    findFirst: string -> Lookup,
    generate: OtpRequest -> Reply,
    verify: (string, string) -> Reply)

  /** The submitted credential fields; an absent field is `undefined`. */
  datatype Credentials = Credentials(email: Option<string>, otp: Option<string>, requestOtp: Option<string>)

  /** The two user objects `authorize` can return. */
  datatype AuthUser =
    | PendingUser(email: string)                        // { id: "pending", email, status: "otp_sent" }
    | SignedInUser(id: string, name: string, email: string)
  {
    function Id(): string {
      if PendingUser? then PendingId else id
    }
  }

  /** Returning a user, returning `null`, or throwing an error with a message. */
  datatype Outcome = Returned(user: AuthUser) | ReturnedNull | Threw(message: string)

  datatype Run = Run(outcome: Outcome, calls: seq<Call>)

  /** `emailSchema.parse`: the email when it is a string zod accepts, otherwise a thrown error (`None`). */
  function ParseEmail(svc: Services, raw: Option<string>): (r: Option<string>)
    ensures r.Some? <==> raw.Some? && svc.isEmail(raw.value)
    ensures r.Some? ==> r == raw
  {
    if raw.Some? && svc.isEmail(raw.value) then raw else None
  }

  /** `otpSchema.parse`: a string of exactly six characters, each a decimal digit. */
  function ParseOtp(raw: Option<string>): (r: Option<string>)
    ensures r.Some? <==> raw.Some? && |raw.value| == OtpLength && Decimal.AllDigits(raw.value)
    ensures r.Some? ==> r == raw
  {
    match raw
    case None => None
    case Some(s) => if |s| == OtpLength && Decimal.AllDigits(s) then raw else None
  }

  /** A numeric code below 10^6, written with leading zeros to six digits. */
  function NumericCode(n: nat): string
    requires n < Decimal.Pow10(OtpLength)
  {
    Decimal.NatToStringLength(n, OtpLength);
    var digits := Decimal.NatToString(n);
    seq(OtpLength - |digits|, _ => '0') + digits
  }

  /** The OTP schema accepts every six-digit numeric code, leading zeros included. */
  lemma OtpSchemaAcceptsNumericCodes(n: nat)
    requires n < Decimal.Pow10(OtpLength)
    ensures ParseOtp(Some(NumericCode(n))) == Some(NumericCode(n))
  {
    Decimal.NatToStringLength(n, OtpLength);
    var digits := Decimal.NatToString(n);
    var code := NumericCode(n);
    assert |code| == OtpLength;
    forall i | 0 <= i < |code|
      ensures Decimal.IsDigit(code[i])
    {
      if i >= OtpLength - |digits| {
        assert code[i] == digits[i - (OtpLength - |digits|)];
      }
    }
  }

  /** The branch taken when `requestOtp === "true"`: validate the email, ask the service to send a code. */
  function RequestOtp(svc: Services, c: Credentials): (r: Run)
    ensures !r.outcome.Threw?
    ensures r.outcome.Returned? <==>
      c.email.Some? && svc.isEmail(c.email.value)
      && svc.generate(GenerateRequest(c.email.value)) == Replied(Some(OtpGeneratedMessage))
    ensures r.outcome.Returned? ==> r.outcome.user == PendingUser(c.email.value)
    ensures r.calls == [] <==> c.email.None? || !svc.isEmail(c.email.value)
    ensures r.calls != [] ==> c.email.Some? && r.calls == [Generate(GenerateRequest(c.email.value))]
  {
    match ParseEmail(svc, c.email)
    case None => Run(ReturnedNull, [])
    case Some(email) =>
      var request := GenerateRequest(email);
      var outcome := if svc.generate(request) == Replied(Some(OtpGeneratedMessage))
                     then Returned(PendingUser(email)) else ReturnedNull;
      Run(outcome, [Generate(request)])
  }

  /** True when both submitted fields pass their schemas. */
  predicate InputsValid(svc: Services, c: Credentials) {
    ParseEmail(svc, c.email).Some? && ParseOtp(c.otp).Some?
  }

  /**
    The verification branch: validate email and OTP, look the user up, then ask the service
    to verify the code. A missing user raises the one error that escapes `authorize`;
    every other failure, thrown or replied, ends in `null`.
   */
  function VerifyOtp(svc: Services, c: Credentials): (r: Run)
    ensures !InputsValid(svc, c) ==> r == Run(ReturnedNull, [])
    ensures r.outcome.Threw? <==> InputsValid(svc, c) && svc.findFirst(c.email.value) == NotFound
    ensures r.outcome.Threw? ==> r.outcome.message == UserMissingMessage && r.calls == [FindFirst(c.email.value)]
    ensures r.outcome.Returned? <==>
      InputsValid(svc, c) && svc.findFirst(c.email.value).Found?
      && svc.verify(c.email.value, c.otp.value) == Replied(Some(OtpVerifiedMessage))
    ensures r.outcome.Returned? ==>
      var u := svc.findFirst(c.email.value).user;
      && r.outcome.user == SignedInUser(Decimal.NatToString(u.id), u.name, u.email)
      && r.outcome.user.Id() != PendingId
    ensures forall call :: call in r.calls && call.Verify? ==>
      InputsValid(svc, c) && svc.findFirst(c.email.value).Found?
      && r.calls == [FindFirst(c.email.value), Verify(c.email.value, c.otp.value)]
    ensures InputsValid(svc, c) && svc.findFirst(c.email.value).Found? ==>
      r.calls == [FindFirst(c.email.value), Verify(c.email.value, c.otp.value)]
    ensures InputsValid(svc, c) && !svc.findFirst(c.email.value).Found? ==>
      r.calls == [FindFirst(c.email.value)]
    ensures forall call :: call in r.calls ==> InputsValid(svc, c) && call.Email() == c.email.value
  {
    if !InputsValid(svc, c) then Run(ReturnedNull, [])
    else
      var email, otp := c.email.value, c.otp.value;
      match svc.findFirst(email)
      case LookupFailed => Run(ReturnedNull, [FindFirst(email)])
      case NotFound => Run(Threw(UserMissingMessage), [FindFirst(email)])
      case Found(user) =>
        var outcome := if svc.verify(email, otp) == Replied(Some(OtpVerifiedMessage))
                       then Returned(SignedInUser(Decimal.NatToString(user.id), user.name, user.email))
                       else ReturnedNull;
        assert Decimal.NatToString(user.id)[0] != PendingId[0];
        Run(outcome, [FindFirst(email), Verify(email, otp)])
  }

  /** `authorize(credentials)`: no credentials, the OTP-request branch, or the verification branch. */
  function Authorize(svc: Services, credentials: Option<Credentials>): (r: Run)
    ensures credentials.None? ==> r == Run(ReturnedNull, [])
    ensures credentials.Some? && credentials.value.requestOtp == Some(RequestOtpFlag) ==>
      r == RequestOtp(svc, credentials.value)
    ensures credentials.Some? && credentials.value.requestOtp != Some(RequestOtpFlag) ==>
      r == VerifyOtp(svc, credentials.value)
    ensures r.outcome.Threw? ==> r.outcome.message == UserMissingMessage
    ensures r.outcome.Returned? && r.outcome.user.PendingUser? <==>
      && credentials.Some? && credentials.value.requestOtp == Some(RequestOtpFlag)
      && RequestOtp(svc, credentials.value).outcome.Returned?
    ensures r.outcome.Threw? || (r.outcome.Returned? && r.outcome.user.SignedInUser?) ==>
      credentials.Some? && credentials.value.requestOtp != Some(RequestOtpFlag)
    ensures forall call :: call in r.calls ==>
      && credentials.Some?
      && (call.Generate? <==> credentials.value.requestOtp == Some(RequestOtpFlag))
      && credentials.value.email == Some(call.Email())
      && svc.isEmail(call.Email())
  {
    match credentials
    case None => Run(ReturnedNull, [])
    case Some(c) => if c.requestOtp == Some(RequestOtpFlag) then RequestOtp(svc, c) else VerifyOtp(svc, c)
  }

  /** `session.user` as NextAuth hands it to the callback. */
  class SessionUser {
    var id: Option<string>
    var name: Option<string>
    var email: Option<string>

    constructor (name: Option<string>, email: Option<string>)
      ensures this.id == None && this.name == name && this.email == email
    {
      this.id := None;
      this.name := name;
      this.email := email;
    }
  }

  class Session {
    var user: SessionUser?
    var expires: string

    constructor (user: SessionUser?, expires: string)
      ensures this.user == user && this.expires == expires
    {
      this.user := user;
      this.expires := expires;
    }
  }

  /** The JWT claims handed to the callback; `sub` is the subject, possibly absent. */
  datatype Token = Token(sub: Option<string>)

  /** The `session` callback: copy the token's subject into `session.user.id` and return the same session. */
  method SessionCallback(session: Session, token: Token) returns (r: Session)
    modifies session.user
    ensures r == session
    ensures unchanged(session)
    ensures session.user != null ==>
      session.user.id == token.sub && session.user.name == old(session.user.name)
      && session.user.email == old(session.user.email)
  {
    if session.user != null {
      session.user.id := token.sub;
    }
    r := session;
  }
}
