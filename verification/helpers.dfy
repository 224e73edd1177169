/** The shared helpers of the verification flows: code generation, session
    token issue, the public projection of a user, and the dispatch of the
    verification email (backend/utils/emailVerificationHelpers.js). */
module VerificationHelpers {
  import opened Wrappers
  import opened Text
  import opened Identity

  /** `randomInt(min, max)` draws from the half-open range [min, max). */
  const CODE_MIN := 100000
  const CODE_BOUND := 999999

  /** A verification code stays valid for 15 minutes. */
  const VERIFICATION_WINDOW_MS := 15 * 60 * 1000

  /** Default session-token lifetime. */
  const DEFAULT_EXPIRES_IN := "24h"

  /** The value of `NODE_ENV` under which no email is sent. */
  const DEVELOPMENT := "development"

  /** `randomInt(100000, 999999).toString()`, with the drawn integer as
      `random`: always six decimal digits that read back as the draw, so the
      code 999999 is never issued. */
  function GenerateVerificationCode(random: int): (code: string)
    requires CODE_MIN <= random < CODE_BOUND
    ensures |code| == 6
    ensures AllDigits(code) && DecimalValue(code) == random
  {
    assert Pow10(5) == 100000 && Pow10(6) == 1000000 by {
      assert Pow10(2) == 100;
      assert Pow10(4) == 10000;
    }
    DecimalLength(random, 6);
    DecimalRoundTrip(random);
    NatToDecimal(random)
  }

  // ---------------------------------------------------------------------------
  // Session tokens
  // ---------------------------------------------------------------------------

  /** A signed session token over the payload `{ user: { id } }`. The
      signature itself (RFC 7519) is not modelled: the token is the pair it
      binds. */
  datatype Jwt = Jwt(subject: Id, expiresIn: string)

  datatype SignError = SignerFailed

  /** `generateJWT(userId, expiresIn)`: rejects exactly when the signer reports
      an error (`signerUp` false); otherwise the token names `userId`. */
  function GenerateJWT(userId: Id, expiresIn: string, signerUp: bool): (r: Result<Jwt, SignError>)
    ensures r.Success? <==> signerUp
    ensures r.Success? ==> r.value.subject == userId && r.value.expiresIn == expiresIn
  {
    if signerUp then Success(Jwt(userId, expiresIn)) else Failure(SignerFailed)
  }

  /** The token the handlers issue: default lifetime. */
  function IssueSessionToken(userId: Id, signerUp: bool): (r: Result<Jwt, SignError>)
    ensures r.Success? <==> signerUp
    ensures r.Success? ==> r.value.subject == userId && r.value.expiresIn == "24h"
  {
    GenerateJWT(userId, DEFAULT_EXPIRES_IN, signerUp)
  }

  // ---------------------------------------------------------------------------
  // Public projection
  // ---------------------------------------------------------------------------

  /** The user as responses show it. There is no password field to fill. */
  datatype UserView = UserView(
    id: Id,
    name: string,
    email: Option<string>,
    avatar: Option<string>,
    isEmailVerified: bool)

  function FormatUserResponse(u: User): UserView {
    UserView(u.id, u.name, u.email, u.avatar, u.isEmailVerified)
  }

  /** Two users agree on everything a response may reveal. */
  predicate SamePublicFields(u1: User, u2: User) {
    && u1.id == u2.id && u1.name == u2.name && u1.email == u2.email
    && u1.avatar == u2.avatar && u1.isEmailVerified == u2.isEmailVerified
  }

  /** The projection reveals exactly the five public fields: users that differ
      only in password, OAuth link or tokens project identically, and users
      that project identically agree on those five fields. */
  lemma ProjectionIsPublicFieldsOnly(u1: User, u2: User)
    ensures FormatUserResponse(u1) == FormatUserResponse(u2) <==> SamePublicFields(u1, u2)
  {
  }

  // ---------------------------------------------------------------------------
  // Verification codes on a user
  // ---------------------------------------------------------------------------

  /** A user together with the code just stored on it. */
  datatype Issued = Issued(user: User, code: string)

  /** Everything but the two verification-code fields is equal. */
  predicate SameExceptVerificationCode(u1: User, u2: User) {
    u2 == u1.(emailVerificationToken := u2.emailVerificationToken,
              emailVerificationExpires := u2.emailVerificationExpires)
  }

  /** `setVerificationToken(user)` at time `now`: a fresh six-digit code
      becomes the pending code, valid until `now` + 15 minutes; no other field
      moves. Persisting the user is the caller's store update. */
  function SetVerificationToken(u: User, random: int, now: Millis): (r: Issued)
    requires CODE_MIN <= random < CODE_BOUND
    ensures |r.code| == 6 && AllDigits(r.code) && DecimalValue(r.code) == random
    ensures r.user.emailVerificationToken == Some(r.code)
    ensures r.user.emailVerificationExpires == Some(now + 900000)
    ensures SameExceptVerificationCode(u, r.user)
  {
    var code := GenerateVerificationCode(random);
    Issued(u.(emailVerificationToken := Some(code),
              emailVerificationExpires := Some(now + VERIFICATION_WINDOW_MS)), code)
  }

  // ---------------------------------------------------------------------------
  // Email dispatch
  // ---------------------------------------------------------------------------

  /** The messages the backend sends. */
  datatype Mail =
    | VerificationMail(to: Option<string>, code: string)
    | PasswordResetMail(to: Option<string>, link: string)

  /** How the mail transport treats the next message: delivers it, or rejects
      it with an error message. */
  datatype Transport = Delivers | Rejects(message: string)

  /** What became of one dispatch attempt. */
  datatype Dispatch = LoggedOnly | Sent(mail: Mail) | SendFailed(message: string)

  /** Hands `m` to the transport; a rejection is returned, not swallowed. */
  function Send(t: Transport, m: Mail): (d: Dispatch)
    ensures d.Sent? <==> t.Delivers?
    ensures d.Sent? ==> d.mail == m
    ensures t.Rejects? ==> d == SendFailed(t.message)
  {
    match t
    case Delivers => Sent(m)
    case Rejects(msg) => SendFailed(msg)
  }

  /** `handleVerificationEmail(email, code)`: in development the code is only
      logged and nothing is sent; otherwise the verification mail goes to the
      transport and a transport failure propagates to the caller. */
  function HandleVerificationEmail(nodeEnv: string, email: Option<string>, code: string, t: Transport): (d: Dispatch)
    ensures nodeEnv == DEVELOPMENT <==> d.LoggedOnly?
    ensures d.Sent? ==> d.mail == VerificationMail(email, code)
    ensures d.SendFailed? <==> nodeEnv != DEVELOPMENT && t.Rejects?
  {
    if nodeEnv == DEVELOPMENT then LoggedOnly else Send(t, VerificationMail(email, code))
  }
}
