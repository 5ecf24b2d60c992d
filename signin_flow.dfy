/**
  The two core files working on one user table: a user created by the signup handler is
  the user the credential authorizer later finds, and the id string the authorizer returns
  (which the session callback copies into `session.user.id`) names exactly one user.
 */
module SignInFlow {
  import opened Wrappers
  import opened Users
  import Decimal
  import Auth
  import Signup

  /** `prisma.user.findFirst({ where: { email } })` answered from the table. */
  function FindFirstIn(users: map<string, User>): string -> Auth.Lookup {
    e => if e in users then Auth.Found(users[e]) else Auth.NotFound
  }

  /** The credentials the login page submits to verify a code. */
  function VerifyCredentials(email: string, otp: string): Option<Auth.Credentials> {
    Some(Auth.Credentials(Some(email), Some(otp), None))
  }

  /**
    An email that is not on file is sent to signup (the distinguished error), the verify
    endpoint untouched; once the signup handler has created it, the same credentials sign in
    as the new user, with the decimal rendering of its id.
   */
  lemma SignupThenSignIn(users: map<string, User>, nextId: nat, svc: Auth.Services,
                         email: string, name: string, number: string, otp: string)
    requires WellFormed(users, nextId)
    requires email !in users && email != "" && name != "" && number != ""
    requires svc.isEmail(email) && Auth.ParseOtp(Some(otp)).Some?
    requires svc.verify(email, otp) == Auth.Replied(Some(Auth.OtpVerifiedMessage))
    ensures var before := Auth.Authorize(svc.(findFirst := FindFirstIn(users)), VerifyCredentials(email, otp));
      before == Auth.Run(Auth.Threw(Auth.UserMissingMessage), [Auth.FindFirst(email)])
    ensures var body := Signup.Fields(Some(Signup.JString(email)), Some(Signup.JString(name)), Some(Signup.JString(number)));
      var step := Signup.Handle(users, nextId, body, Signup.Healthy);
      var after := Auth.Authorize(svc.(findFirst := FindFirstIn(step.users)), VerifyCredentials(email, otp));
      && step.response == Signup.Created
      && after.outcome == Auth.Returned(Auth.SignedInUser(Decimal.NatToString(nextId), name, email))
      && Decimal.ParseDecimal(after.outcome.user.id) == nextId
  {
    Decimal.ParseNatToString(nextId);
  }

  /** The id string of a signed-in user (the session's `user.id`) belongs to one user of a well-formed table. */
  lemma SessionIdNamesOneUser(users: map<string, User>, nextId: nat, a: string, b: string)
    requires WellFormed(users, nextId)
    requires a in users && b in users
    requires Decimal.NatToString(users[a].id) == Decimal.NatToString(users[b].id)
    ensures a == b && users[a] == users[b]
  {
    Decimal.NatToStringInjective(users[a].id, users[b].id);
  }
}
