/** The authentication routes (backend/routes/auth.js): register,
    forgot-password, reset-password, verify-email, resend-verification, login,
    and the OAuth callback's redirect. Every handler is a pure function from
    the store and the request to the new store and the response it sends. */
module AuthRoutes {
  import opened Wrappers
  import opened Text
  import opened Uri
  import opened Identity
  import opened VerificationHelpers
  import opened Passport

  /** A reset token stays valid for one hour. */
  const RESET_WINDOW_MS := 3600000

  /** The fewest characters `isLength` accepts for a new password. */
  const MIN_PASSWORD_LENGTH := 6

  /** The one error message the register handler answers with 400 rather than 500. */
  const INVALID_EMAIL_ID := "Invalid Email ID"

  const AVATAR_BASE := "https://api.dicebear.com/6.x/micah/svg?seed="

  /** What a handler sees besides the store and the request. */
  datatype Env = Env(
    now: Millis,               // Date.now() during the request
    nodeEnv: string,           // NODE_ENV
    clientUrl: string,         // CLIENT_URL
    signerUp: bool,            // whether signing a session token succeeds
    transport: Transport,      // how the mail transport treats the next message
    saveFault: Option<string>, // the error every save in this request raises, if any
    isEmail: string -> bool)   // the request validator's email syntax check

  // ---------------------------------------------------------------------------
  // Avatar
  // ---------------------------------------------------------------------------

  /** `email || name || "user"`: the first non-empty of the three. */
  function AvatarSeed(email: string, name: string): (seed: string)
    ensures seed != ""
    ensures email != "" ==> seed == email
    ensures email == "" && name != "" ==> seed == name
    ensures email == "" && name == "" ==> seed == "user"
  {
    if email != "" then email else if name != "" then name else "user"
  }

  /** `generateAvatarUrl(email, name)`: the avatar service URL whose only query
      parameter is the URI-encoded seed, so the seed cannot add parameters. */
  function GenerateAvatarUrl(email: string, name: string): (url: string)
    ensures StartsWith(url, AVATAR_BASE)
    ensures url[|AVATAR_BASE|..] == EncodeURIComponent(AvatarSeed(email, name))
    ensures forall i :: |AVATAR_BASE| <= i < |url| ==> url[i] == '%' || IsUnreserved(url[i])
  {
    var url := AVATAR_BASE + EncodeURIComponent(AvatarSeed(email, name));
    assert url[..|AVATAR_BASE|] == AVATAR_BASE;
    url
  }

  // ---------------------------------------------------------------------------
  // Request validation
  // ---------------------------------------------------------------------------

  /** A failed request check, reported with its message. */
  datatype FieldError = NameRequired | InvalidEmail | PasswordTooShort | PasswordRequired
  {
    function Message(): string {
      match this
      case NameRequired => "Name is required"
      case InvalidEmail => "Please include a valid email"
      case PasswordTooShort => "Password must be at least 6 characters"
      case PasswordRequired => "Password is required"
    }
  }

  // ---------------------------------------------------------------------------
  // Register
  // ---------------------------------------------------------------------------

  datatype RegisterOutcome =
    | RegisterRejected(errors: seq<FieldError>)
    | VerificationResent(userId: Id)
    | Created(userId: Id, email: string)
    | AlreadyExists
    | InvalidEmailId
    | RegisterServerError
  {
    function Status(): int {
      match this
      case RegisterRejected(_) => 400
      case VerificationResent(_) => 200
      case Created(_, _) => 201
      case AlreadyExists => 500
      case InvalidEmailId => 400
      case RegisterServerError => 500
    }

    /** The response carries `needsVerification: true`. */
    predicate NeedsVerification() {
      VerificationResent? || Created?
    }
  }

  /** The request checks, one message per failing check, in declaration order. */
  function RegisterErrors(name: string, email: string, password: string, isEmail: string -> bool): (errors: seq<FieldError>)
    ensures NameRequired in errors <==> name == ""
    ensures InvalidEmail in errors <==> !isEmail(email)
    ensures PasswordTooShort in errors <==> ValidatorLength(password) < MIN_PASSWORD_LENGTH
    ensures PasswordRequired !in errors
    ensures errors == [] <==> name != "" && isEmail(email) && ValidatorLength(password) >= MIN_PASSWORD_LENGTH
    ensures |errors| <= 3
  {
    (if name == "" then [NameRequired] else [])
    + (if !isEmail(email) then [InvalidEmail] else [])
    + (if ValidatorLength(password) < MIN_PASSWORD_LENGTH then [PasswordTooShort] else [])
  }

  /** The catch block: an error whose message is exactly "Invalid Email ID" is
      a client error, anything else a server error. */
  function RegisterFailure(message: string): (o: RegisterOutcome)
    ensures o.Status() == (if message == INVALID_EMAIL_ID then 400 else 500)
  {
    if message == INVALID_EMAIL_ID then InvalidEmailId else RegisterServerError
  }

  /** The document a fresh registration creates. */
  function NewLocalUser(id: Id, name: string, email: string, password: string, salt: nat, code: string, now: Millis): User {
    User(id, name, Some(email), Some(Hash(password, salt)), Some(GenerateAvatarUrl(email, name)), None,
         false, Some(code), Some(now + VERIFICATION_WINDOW_MS), None, None)
  }

  /** `POST /register`. `random` is the draw behind the verification code,
      `salt` the hash salt, `newId` the id the database assigns. */
  function Register(store: Store, name: string, email: string, password: string, env: Env,
                    random: int, salt: nat, newId: Id): (r: Step<RegisterOutcome>)
    requires CODE_MIN <= random < CODE_BOUND
    ensures r.outcome.RegisterRejected? <==> !(name != "" && env.isEmail(email) && ValidatorLength(password) >= MIN_PASSWORD_LENGTH)
    ensures r.outcome.RegisterRejected? || r.outcome.AlreadyExists? ==> r.store == store
    ensures r.outcome.Created? ==> |r.store| == |store| + 1 && r.store[..|store|] == store && r.outcome.userId == newId
    ensures |r.store| == |store| || |r.store| == |store| + 1
    ensures forall j :: 0 <= j < |store| ==> r.store[j].id == store[j].id && r.store[j].email == store[j].email
  {
    var errors := RegisterErrors(name, email, password, env.isEmail);
    if errors != [] then Step(store, RegisterRejected(errors))
    else
      match FindOne(store, ByEmail(email))
      case Some(i) =>
        if store[i].isEmailVerified then Step(store, AlreadyExists)
        else
          var issued := SetVerificationToken(store[i], random, env.now);
          (match Update(store, i, issued.user, env.saveFault)
           case Failure(message) => Step(store, RegisterFailure(message))
           case Success(s') =>
             match HandleVerificationEmail(env.nodeEnv, Some(email), issued.code, env.transport)
             case SendFailed(message) => Step(s', RegisterFailure(message))
             case _ => Step(s', VerificationResent(store[i].id)))
      case None =>
        var code := GenerateVerificationCode(random);
        match Insert(store, NewLocalUser(newId, name, email, password, salt, code, env.now), env.saveFault)
        case Failure(message) => Step(store, RegisterFailure(message))
        case Success(s') =>
          match HandleVerificationEmail(env.nodeEnv, Some(email), code, env.transport)
          case SendFailed(message) => Step(s', RegisterFailure(message))
          case _ => Step(s', Created(newId, email))
  }

  // ---------------------------------------------------------------------------
  // Forgot / reset password
  // ---------------------------------------------------------------------------

  datatype ForgotOutcome = ForgotUserNotFound | ResetLinkSent(mail: Mail) | ForgotServerError
  {
    function Status(): int {
      match this
      case ForgotUserNotFound => 404
      case ResetLinkSent(_) => 200
      case ForgotServerError => 500
    }
  }

  /** The client page that consumes a reset token. */
  function ResetLink(clientUrl: string, token: string): (link: string)
    ensures EndsWith(link, token)
  {
    clientUrl + "/reset-password/" + token
  }

  /** The reset-mail subject that the handler passes as its second argument. */
  const RESET_SUBJECT := "Password Reset Request"

  /** The mail the forgot-password handler hands to the transport as written:
      the verification-mail sender receives the subject line where it expects
      a code, and the message that carries the link is dropped. */
  function ResetMailAsWritten(to: Option<string>, link: string): (m: Mail)
    ensures m.VerificationMail? && m.to == to
    ensures m.code == RESET_SUBJECT
  {
    VerificationMail(to, RESET_SUBJECT)
  }

  /** The mail the handler evidently intends: the reset link to the account's
      address. */
  function ResetMail(to: Option<string>, link: string): (m: Mail)
    ensures m.PasswordResetMail? && m.to == to && m.link == link
  {
    PasswordResetMail(to, link)
  }

  /** Which sender the forgot-password handler calls: `sendVerificationEmail`,
      as the route is written, or `sendPasswordResetEmail`, as intended. */
  datatype ResetSender = ViaVerificationSender | ViaResetSender
  {
    function Compose(to: Option<string>, link: string): Mail {
      match this
      case ViaVerificationSender => ResetMailAsWritten(to, link)
      case ViaResetSender => ResetMail(to, link)
    }
  }

  /** The body of `POST /forgot-password`, for either sender. `bytes` are the
      32 random bytes behind the token. The token is stored before the mail is
      sent, so a failing transport leaves the new token in place and answers
      500. */
  function IssueResetToken(store: Store, email: string, env: Env, bytes: seq<Byte>, sender: ResetSender): Step<ForgotOutcome>
    requires |bytes| == 32
  {
    match FindOne(store, ByEmail(email))
    case None => Step(store, ForgotUserNotFound)
    case Some(i) =>
      var token := HexEncode(bytes);
      var u := store[i].(resetPasswordToken := Some(token), resetPasswordExpires := Some(env.now + RESET_WINDOW_MS));
      match Update(store, i, u, env.saveFault)
      case Failure(_) => Step(store, ForgotServerError)
      case Success(s') =>
        match Send(env.transport, sender.Compose(u.email, ResetLink(env.clientUrl, token)))
        case Sent(m) => Step(s', ResetLinkSent(m))
        case _ => Step(s', ForgotServerError)
  }

  /** `POST /forgot-password` as written: the mail that goes out is a
      verification mail whose code is the subject line. */
  function ForgotPassword(store: Store, email: string, env: Env, bytes: seq<Byte>): (r: Step<ForgotOutcome>)
    requires |bytes| == 32
    ensures r.outcome.ForgotUserNotFound? <==> forall j :: 0 <= j < |store| ==> store[j].email != Some(email)
    ensures r.outcome.ForgotUserNotFound? ==> r.store == store
    ensures |r.store| == |store|
    ensures r.outcome.ResetLinkSent? ==> r.outcome.mail.VerificationMail? && r.outcome.mail.code == RESET_SUBJECT
  {
    IssueResetToken(store, email, env, bytes, ViaVerificationSender)
  }

  /** `POST /forgot-password` with the reset-mail sender: the mail that goes
      out is a reset mail. */
  function ForgotPasswordIntended(store: Store, email: string, env: Env, bytes: seq<Byte>): (r: Step<ForgotOutcome>)
    requires |bytes| == 32
    ensures r.outcome.ForgotUserNotFound? <==> forall j :: 0 <= j < |store| ==> store[j].email != Some(email)
    ensures r.outcome.ForgotUserNotFound? ==> r.store == store
    ensures |r.store| == |store|
    ensures r.outcome.ResetLinkSent? ==> r.outcome.mail.PasswordResetMail?
  {
    IssueResetToken(store, email, env, bytes, ViaResetSender)
  }

  datatype ResetOutcome = InvalidOrExpiredToken | PasswordReset | ResetServerError
  {
    function Status(): int {
      match this
      case InvalidOrExpiredToken => 400
      case PasswordReset => 200
      case ResetServerError => 500
    }
  }

  /** `POST /reset-password/:token`. The lookup itself is the validity check:
      the token must match exactly and its expiry lie strictly after `now`.
      A missing new password makes the hash call throw: 500, nothing written. */
  function ResetPassword(store: Store, token: string, password: Option<string>, env: Env, salt: nat): (r: Step<ResetOutcome>)
    ensures !r.outcome.PasswordReset? ==> r.store == store
    ensures r.outcome.InvalidOrExpiredToken? <==> forall j :: 0 <= j < |store| ==> !Matches(store[j], ByLiveResetToken(token, env.now))
    ensures |r.store| == |store|
  {
    match FindOne(store, ByLiveResetToken(token, env.now))
    case None => Step(store, InvalidOrExpiredToken)
    case Some(i) =>
      if password.None? then Step(store, ResetServerError)
      else
        var u := store[i].(password := Some(Hash(password.value, salt)),
                           resetPasswordToken := None, resetPasswordExpires := None);
        match Update(store, i, u, env.saveFault)
        case Failure(_) => Step(store, ResetServerError)
        case Success(s') => Step(s', PasswordReset)
  }

  // ---------------------------------------------------------------------------
  // Verify email / resend
  // ---------------------------------------------------------------------------

  datatype VerifyOutcome =
    | VerifyMissingFields
    | VerifyUserNotFound
    | AlreadyVerified
    | InvalidCode
    | CodeExpired
    | Verified(token: Jwt, user: UserView)
    | VerifyTokenError
    | VerifyServerError
  {
    function Status(): int {
      match this
      case Verified(_, _) => 200
      case VerifyTokenError => 500
      case VerifyServerError => 500
      case _ => 400
    }

    /** One of the five rejections the handler checks for before writing. */
    predicate IsRejection() {
      VerifyMissingFields? || VerifyUserNotFound? || AlreadyVerified? || InvalidCode? || CodeExpired?
    }
  }

  /** `expires < Date.now()`: strict, so a code is still good at the exact
      instant it expires; a missing expiry never compares as earlier. */
  predicate Expired(expires: Option<Millis>, now: Millis) {
    expires.Some? && expires.value < now
  }

  /** `POST /verify-email`: the checks run in a fixed order, and only a request
      that passes all five writes to the store. */
  function VerifyEmail(store: Store, userId: Option<Id>, code: string, env: Env): (r: Step<VerifyOutcome>)
    ensures r.outcome.IsRejection() || r.outcome.VerifyServerError? ==> r.store == store
    ensures r.outcome.Verified? ==> r.outcome.user.isEmailVerified && Some(r.outcome.user.id) == userId
    ensures r.outcome.Verified? ==> r.outcome.token.subject == userId.value
    ensures |r.store| == |store|
  {
    if userId.None? || code == "" then Step(store, VerifyMissingFields)
    else
      match FindOne(store, ById(userId.value))
      case None => Step(store, VerifyUserNotFound)
      case Some(i) =>
        var u := store[i];
        if u.isEmailVerified then Step(store, AlreadyVerified)
        else if u.emailVerificationToken != Some(code) then Step(store, InvalidCode)
        else if Expired(u.emailVerificationExpires, env.now) then Step(store, CodeExpired)
        else
          var v := u.(isEmailVerified := true, emailVerificationToken := None, emailVerificationExpires := None);
          match Update(store, i, v, env.saveFault)
          case Failure(_) => Step(store, VerifyServerError)
          case Success(s') =>
            match IssueSessionToken(v.id, env.signerUp)
            case Failure(_) => Step(s', VerifyTokenError)
            case Success(token) => Step(s', Verified(token, FormatUserResponse(v)))
  }

  datatype ResendOutcome = ResendUserNotFound | ResendAlreadyVerified | CodeSent | ResendMailFailed | ResendServerError
  {
    function Status(): int {
      match this
      case ResendUserNotFound => 400
      case ResendAlreadyVerified => 400
      case CodeSent => 200
      case ResendMailFailed => 500
      case ResendServerError => 500
    }
  }

  /** `POST /resend-verification`: a new code replaces the pending one before
      the mail goes out, so a failing transport still invalidates the old code. */
  function ResendVerification(store: Store, userId: Option<Id>, env: Env, random: int): (r: Step<ResendOutcome>)
    requires CODE_MIN <= random < CODE_BOUND
    ensures r.outcome.ResendUserNotFound? || r.outcome.ResendAlreadyVerified? || r.outcome.ResendServerError? ==> r.store == store
    ensures |r.store| == |store|
  {
    var found := if userId.None? then None else FindOne(store, ById(userId.value));
    match found
    case None => Step(store, ResendUserNotFound)
    case Some(i) =>
      if store[i].isEmailVerified then Step(store, ResendAlreadyVerified)
      else
        var issued := SetVerificationToken(store[i], random, env.now);
        match Update(store, i, issued.user, env.saveFault)
        case Failure(_) => Step(store, ResendServerError)
        case Success(s') =>
          match HandleVerificationEmail(env.nodeEnv, store[i].email, issued.code, env.transport)
          case SendFailed(_) => Step(s', ResendMailFailed)
          case _ => Step(s', CodeSent)
  }

  // ---------------------------------------------------------------------------
  // Login
  // ---------------------------------------------------------------------------

  /** A field of the JSON request body: missing, a JSON string, or any other
      JSON value (`null`, a number, a boolean, an object or an array). */
  datatype BodyField = Absent | JsonString(value: string) | NonString

  datatype LoginOutcome =
    | LoginRejected(errors: seq<FieldError>)
    | LoginUserNotFound
    | InvalidCredentials
    | RequiresVerification(userId: Id, email: Option<string>)
    | LoggedIn(token: Jwt, user: UserView)
    | LoginTokenError
    | LoginServerError
  {
    function Status(): int {
      match this
      case LoggedIn(_, _) => 200
      case LoginTokenError => 500
      case LoginServerError => 500
      case _ => 400
    }
  }

  /** The request checks: a syntactically valid email, and a password field
      that is present. `exists()` rejects only a missing field, so an empty
      string, `null` or a number passes. */
  function LoginErrors(email: string, password: BodyField, isEmail: string -> bool): (errors: seq<FieldError>)
    ensures InvalidEmail in errors <==> !isEmail(email)
    ensures PasswordRequired in errors <==> password.Absent?
    ensures NameRequired !in errors && PasswordTooShort !in errors
    ensures errors == [] <==> isEmail(email) && !password.Absent?
  {
    (if !isEmail(email) then [InvalidEmail] else [])
    + (if password.Absent? then [PasswordRequired] else [])
  }

  /** `POST /login`. Login reads the store and never writes it. bcrypt's
      comparison throws, and the route answers 500, when the account has no
      stored hash (a Google account) or the submitted password is not a string. */
  function Login(store: Store, email: string, password: BodyField, env: Env): (r: LoginOutcome)
    ensures r.LoggedIn? ==> r.user.isEmailVerified && r.user.email == Some(email)
    ensures r.RequiresVerification? ==> r.email == Some(email)
    ensures r.InvalidCredentials? || r.RequiresVerification? || r.LoggedIn? ==> password.JsonString?
  {
    var errors := LoginErrors(email, password, env.isEmail);
    if errors != [] then LoginRejected(errors)
    else
      match FindOne(store, ByEmail(email))
      case None => LoginUserNotFound
      case Some(i) =>
        var u := store[i];
        if u.password.None? || !password.JsonString? then LoginServerError
        else if !Compare(password.value, u.password.value) then InvalidCredentials
        else if !u.isEmailVerified then RequiresVerification(u.id, u.email)
        else
          match IssueSessionToken(u.id, env.signerUp)
          case Failure(_) => LoginTokenError
          case Success(token) => LoggedIn(token, FormatUserResponse(u))
  }

  // ---------------------------------------------------------------------------
  // OAuth callback
  // ---------------------------------------------------------------------------

  /** Where the browser is sent after the Google callback. */
  datatype Redirect =
      /** `<client>/dashboard?token=<encodeURIComponent(token)>`. */
    | ToDashboard(clientUrl: string, token: Jwt)
      /** `<client>/login`, with `?error=<error>` when one is given. */
    | ToLogin(clientUrl: string, error: Option<string>)
  {
    /** The redirect location of the login-page variants. */
    function LoginLocation(): string
      requires ToLogin?
    {
      clientUrl + "/login" + (if error.Some? then "?error=" + error.value else "")
    }
  }

  /** The `/callback` chain: a declined sign-in goes to the failure redirect, a
      strategy error to the error handler, and an authenticated user gets a
      session token, unless signing it fails. The verification flag is never
      consulted. */
  function OAuthCallback(auth: Authentication, env: Env): (r: Redirect)
    ensures r.ToDashboard? <==> auth.Done? && env.signerUp
    ensures r.ToDashboard? ==> r.token == Jwt(auth.user.id, "24h") && r.clientUrl == env.clientUrl
    ensures auth.Done? && !env.signerUp ==> r == ToLogin(env.clientUrl, Some("oauth_token_failed"))
    ensures auth.Errored? ==> r == ToLogin(env.clientUrl, Some("oauth_failed"))
    ensures auth.Denied? ==> r == ToLogin(env.clientUrl, None)
  {
    match auth
    case Denied => ToLogin(env.clientUrl, None)
    case Errored(_) => ToLogin(env.clientUrl, Some("oauth_failed"))
    case Done(u) =>
      match IssueSessionToken(u.id, env.signerUp)
      case Failure(_) => ToLogin(env.clientUrl, Some("oauth_token_failed"))
      case Success(token) => ToDashboard(env.clientUrl, token)
  }
}
