/** What the authentication handlers guarantee, one call at a time and across
    calls: the register cases, the order of the verify-email checks and the
    strictness of its expiry, single use of codes and reset tokens, the login
    outcome order, and the OAuth path's bypass of the verification gate. */
module AuthProperties {
  import opened Wrappers
  import opened Text
  import opened Uri
  import opened Identity
  import opened VerificationHelpers
  import opened Passport
  import opened AuthRoutes

  /** The user with a freshly issued verification code. */
  function WithCode(u: User, code: string, now: Millis): User {
    u.(emailVerificationToken := Some(code), emailVerificationExpires := Some(now + VERIFICATION_WINDOW_MS))
  }

  // ---------------------------------------------------------------------------
  // Register
  // ---------------------------------------------------------------------------

  /** Six characters are not always long enough: a trailing emoji
      presentation selector is not counted, so "abcde" followed by U+FE0F is
      refused as too short. */
  lemma SelectorPaddedPasswordTooShort(name: string, email: string, isEmail: string -> bool)
    ensures |"abcde" + ['\U{FE0F}']| == MIN_PASSWORD_LENGTH
    ensures PasswordTooShort in RegisterErrors(name, email, "abcde" + ['\U{FE0F}'], isEmail)
  {
    SelectorIsNotCounted("abcde", '\U{FE0F}');
  }

  /** Registering again with the email of an unverified account creates no
      document: it replaces that account's code and expiry and answers
      `needsVerification` with the account's id, unless the save or the mail
      fails. A failing save writes nothing. */
  lemma RegisterUnverifiedEmailResends(store: Store, i: nat, name: string, email: string, password: string,
                                       env: Env, random: int, salt: nat, newId: Id)
    requires WellFormed(store)
    requires i < |store| && store[i].email == Some(email) && !store[i].isEmailVerified
    requires name != "" && env.isEmail(email) && ValidatorLength(password) >= MIN_PASSWORD_LENGTH
    requires CODE_MIN <= random < CODE_BOUND
    ensures var r := Register(store, name, email, password, env, random, salt, newId);
      && |r.store| == |store|
      && (env.saveFault.None? ==> r.store == store[i := WithCode(store[i], GenerateVerificationCode(random), env.now)])
      && (env.saveFault.Some? ==> r.store == store && !r.outcome.NeedsVerification())
      && (r.outcome.NeedsVerification() ==> r.outcome == VerificationResent(store[i].id))
      && (r.outcome.NeedsVerification() <==>
            env.saveFault.None? && (env.nodeEnv == DEVELOPMENT || env.transport.Delivers?))
  {
    FindByEmailExact(store, i);
  }

  /** Registering with the email of a verified account is refused with 500
      "User already exists" and changes nothing. */
  lemma RegisterVerifiedEmailRejected(store: Store, i: nat, name: string, email: string, password: string,
                                      env: Env, random: int, salt: nat, newId: Id)
    requires WellFormed(store)
    requires i < |store| && store[i].email == Some(email) && store[i].isEmailVerified
    requires name != "" && env.isEmail(email) && ValidatorLength(password) >= MIN_PASSWORD_LENGTH
    requires CODE_MIN <= random < CODE_BOUND
    ensures Register(store, name, email, password, env, random, salt, newId) == Step(store, AlreadyExists)
    ensures AlreadyExists.Status() == 500
  {
    FindByEmailExact(store, i);
  }

  /** Registering a new email appends exactly one unverified document holding
      the issued six-digit code, an expiry 15 minutes out and only the hash of
      the password; the answer is 201 with the new id unless the mail fails,
      which leaves the document in place. */
  lemma RegisterFreshEmailCreates(store: Store, name: string, email: string, password: string,
                                  env: Env, random: int, salt: nat, newId: Id)
    requires forall j :: 0 <= j < |store| ==> store[j].email != Some(email)
    requires forall j :: 0 <= j < |store| ==> store[j].id != newId
    requires name != "" && env.isEmail(email) && ValidatorLength(password) >= MIN_PASSWORD_LENGTH
    requires env.saveFault.None?
    requires CODE_MIN <= random < CODE_BOUND
    ensures var r := Register(store, name, email, password, env, random, salt, newId);
      && |r.store| == |store| + 1 && r.store[..|store|] == store
      && var u := r.store[|store|];
      && u.id == newId && u.name == name && u.email == Some(email)
      && !u.isEmailVerified
      && u.emailVerificationToken == Some(GenerateVerificationCode(random))
      && |u.emailVerificationToken.value| == 6
      && u.emailVerificationExpires == Some(env.now + 900000)
      && u.password.Some? && Compare(password, u.password.value) && u.password.value == Hash(password, salt)
      && u.googleId.None? && u.resetPasswordToken.None?
      && (r.outcome == Created(newId, email) <==> env.nodeEnv == DEVELOPMENT || env.transport.Delivers?)
  {
    var u := NewLocalUser(newId, name, email, password, salt, GenerateVerificationCode(random), env.now);
    RegisterFreshEmailAppends(store, name, email, password, env, random, salt, newId);
    assert (store + [u])[..|store|] == store;
  }

  /** The path a fresh email takes: the new document is appended, and the
      answer is 201 unless the mail fails. */
  lemma RegisterFreshEmailAppends(store: Store, name: string, email: string, password: string,
                                  env: Env, random: int, salt: nat, newId: Id)
    requires forall j :: 0 <= j < |store| ==> store[j].email != Some(email)
    requires forall j :: 0 <= j < |store| ==> store[j].id != newId
    requires name != "" && env.isEmail(email) && ValidatorLength(password) >= MIN_PASSWORD_LENGTH
    requires env.saveFault.None?
    requires CODE_MIN <= random < CODE_BOUND
    ensures var r := Register(store, name, email, password, env, random, salt, newId);
      && r.store == store + [NewLocalUser(newId, name, email, password, salt, GenerateVerificationCode(random), env.now)]
      && (r.outcome == Created(newId, email) <==> env.nodeEnv == DEVELOPMENT || env.transport.Delivers?)
  {
    assert FindOne(store, ByEmail(email)).None?;
  }

  /** Registration keeps ids and emails unique. */
  lemma RegisterPreservesWellFormed(store: Store, name: string, email: string, password: string,
                                    env: Env, random: int, salt: nat, newId: Id)
    requires WellFormed(store)
    requires CODE_MIN <= random < CODE_BOUND
    ensures WellFormed(Register(store, name, email, password, env, random, salt, newId).store)
  {
    var r := Register(store, name, email, password, env, random, salt, newId);
    if |r.store| == |store| + 1 {
      assert FindOne(store, ByEmail(email)).None?;
      var u := r.store[|store|];
      assert r.store == store + [u];
      assert u.email == Some(email);
      AppendKeepsWellFormed(store, u);
    } else {
      SameKeysKeepWellFormed(store, r.store);
    }
  }

  // ---------------------------------------------------------------------------
  // Verify email
  // ---------------------------------------------------------------------------

  /** The account after a successful verification. */
  function MarkVerified(u: User): User {
    u.(isEmailVerified := true, emailVerificationToken := None, emailVerificationExpires := None)
  }

  /** The checks of verify-email run in a fixed order: missing fields, unknown
      id, already verified, wrong code, expired code. Each rejection leaves the
      store as it was. */
  lemma VerifyEmailCheckOrder(store: Store, i: nat, code: string, env: Env)
    requires IdsDistinct(store) && i < |store|
    ensures var r := VerifyEmail(store, Some(store[i].id), code, env); var u := store[i];
      && (code == "" ==> r == Step(store, VerifyMissingFields))
      && (code != "" && u.isEmailVerified ==> r == Step(store, AlreadyVerified))
      && (code != "" && !u.isEmailVerified && u.emailVerificationToken != Some(code) ==> r == Step(store, InvalidCode))
      && ((code != "" && !u.isEmailVerified && u.emailVerificationToken == Some(code)
            && Expired(u.emailVerificationExpires, env.now)) ==> r == Step(store, CodeExpired))
  {
    FindByIdExact(store, i);
  }

  /** Verification with an id no account has is "User not found"; with no id at
      all it is "required fields". */
  lemma VerifyEmailUnknownUser(store: Store, id: Id, code: string, env: Env)
    requires code != ""
    requires forall j :: 0 <= j < |store| ==> store[j].id != id
    ensures VerifyEmail(store, Some(id), code, env) == Step(store, VerifyUserNotFound)
    ensures VerifyEmail(store, None, code, env) == Step(store, VerifyMissingFields)
  {
    assert FindOne(store, ById(id)).None?;
  }

  /** Verification succeeds exactly when the account is unverified, the code
      equals the stored one character for character, the expiry has not
      passed, and saving and signing work; then the account is verified, both
      code fields are cleared, nothing else moves, and the answer carries a
      token for that account and its public projection. */
  lemma VerifyEmailSucceedsIff(store: Store, i: nat, code: string, env: Env)
    requires IdsDistinct(store) && i < |store|
    ensures var r := VerifyEmail(store, Some(store[i].id), code, env); var u := store[i];
      && (r.outcome.Verified? <==>
            code != "" && !u.isEmailVerified && u.emailVerificationToken == Some(code)
            && !Expired(u.emailVerificationExpires, env.now) && env.saveFault.None? && env.signerUp)
      && (r.outcome.Verified? ==>
            r == Step(store[i := MarkVerified(u)], Verified(Jwt(u.id, "24h"), FormatUserResponse(MarkVerified(u)))))
  {
    FindByIdExact(store, i);
  }

  /** The expiry comparison is strict: a code submitted at the exact
      millisecond it expires is accepted, one millisecond later it is not. */
  lemma VerifyEmailExpiryBoundary(store: Store, i: nat, code: string, env: Env)
    requires IdsDistinct(store) && i < |store|
    requires code != "" && !store[i].isEmailVerified && store[i].emailVerificationToken == Some(code)
    requires store[i].emailVerificationExpires.Some?
    ensures var expiry := store[i].emailVerificationExpires.value;
      && VerifyEmail(store, Some(store[i].id), code, env.(now := expiry)).outcome != CodeExpired
      && VerifyEmail(store, Some(store[i].id), code, env.(now := expiry + 1)).outcome == CodeExpired
  {
    FindByIdExact(store, i);
  }

  /** A code is single use: after a successful verification the same request
      answers "already verified". */
  lemma VerifyEmailSingleUse(store: Store, i: nat, code: string, env: Env, later: Env)
    requires IdsDistinct(store) && i < |store|
    requires VerifyEmail(store, Some(store[i].id), code, env).outcome.Verified?
    ensures var s1 := VerifyEmail(store, Some(store[i].id), code, env).store;
      VerifyEmail(s1, Some(store[i].id), code, later) == Step(s1, AlreadyVerified)
  {
    VerifyEmailSucceedsIff(store, i, code, env);
    var s1 := store[i := MarkVerified(store[i])];
    assert IdsDistinct(s1);
    FindByIdExact(s1, i);
  }

  // ---------------------------------------------------------------------------
  // Resend verification
  // ---------------------------------------------------------------------------

  /** Resending to an unverified account replaces its code and expiry (even if
      the mail then fails); a verified or unknown account is refused unchanged. */
  lemma ResendReplacesCode(store: Store, i: nat, env: Env, random: int)
    requires IdsDistinct(store) && i < |store|
    requires CODE_MIN <= random < CODE_BOUND
    ensures var r := ResendVerification(store, Some(store[i].id), env, random);
      && (store[i].isEmailVerified ==> r == Step(store, ResendAlreadyVerified))
      && (!store[i].isEmailVerified && env.saveFault.None? ==>
            r.store == store[i := WithCode(store[i], GenerateVerificationCode(random), env.now)]
            && (r.outcome == CodeSent <==> env.nodeEnv == DEVELOPMENT || env.transport.Delivers?))
  {
    FindByIdExact(store, i);
  }

  /** Distinct draws give distinct codes. */
  lemma CodesDiffer(r1: int, r2: int)
    requires CODE_MIN <= r1 < CODE_BOUND && CODE_MIN <= r2 < CODE_BOUND
    requires r1 != r2
    ensures GenerateVerificationCode(r1) != GenerateVerificationCode(r2)
  {
    var c1 := GenerateVerificationCode(r1);
    var c2 := GenerateVerificationCode(r2);
    assert DecimalValue(c1) != DecimalValue(c2);
  }

  /** Only the latest code verifies: after a second resend with a different
      draw, the first code is rejected as invalid. */
  lemma ResendInvalidatesEarlierCode(store: Store, i: nat, env: Env, r1: int, r2: int, later: Env)
    requires IdsDistinct(store) && i < |store| && !store[i].isEmailVerified
    requires env.saveFault.None?
    requires CODE_MIN <= r1 < CODE_BOUND && CODE_MIN <= r2 < CODE_BOUND && r1 != r2
    ensures var s1 := ResendVerification(store, Some(store[i].id), env, r1).store;
      var s2 := ResendVerification(s1, Some(store[i].id), env, r2).store;
      VerifyEmail(s2, Some(store[i].id), GenerateVerificationCode(r1), later).outcome == InvalidCode
  {
    ResendReplacesCode(store, i, env, r1);
    var s1 := store[i := WithCode(store[i], GenerateVerificationCode(r1), env.now)];
    assert IdsDistinct(s1);
    ResendReplacesCode(s1, i, env, r2);
    var s2 := s1[i := WithCode(s1[i], GenerateVerificationCode(r2), env.now)];
    assert IdsDistinct(s2);
    CodesDiffer(r1, r2);
    VerifyEmailCheckOrder(s2, i, GenerateVerificationCode(r1), later);
  }

  // ---------------------------------------------------------------------------
  // Login
  // ---------------------------------------------------------------------------

  /** Login answers in a fixed order for a well-formed request: no account,
      then wrong password, then "requires verification" (with the id and email
      and no token), then a token with the public projection. */
  lemma LoginOutcomeOrder(store: Store, i: nat, email: string, password: string, env: Env)
    requires EmailsDistinct(store)
    requires i < |store| && store[i].email == Some(email) && store[i].password.Some?
    requires env.isEmail(email)
    ensures var r := Login(store, email, JsonString(password), env); var u := store[i];
      && (!Compare(password, u.password.value) ==> r == InvalidCredentials)
      && (Compare(password, u.password.value) && !u.isEmailVerified ==> r == RequiresVerification(u.id, Some(email)))
      && (Compare(password, u.password.value) && u.isEmailVerified && env.signerUp ==>
            r == LoggedIn(Jwt(u.id, "24h"), FormatUserResponse(u)))
  {
    FindByEmailExact(store, i);
  }

  /** bcrypt reads only 72 UTF-8 octets: an account registered with a long
      password also lets in every password that shares its first 72 octets. */
  lemma LoginAcceptsSharedPrefix(store: Store, i: nat, email: string, p: string, x: string, y: string,
                                 salt: nat, env: Env)
    requires EmailsDistinct(store)
    requires i < |store| && store[i].email == Some(email) && store[i].password == Some(Hash(p + x, salt))
    requires store[i].isEmailVerified && env.isEmail(email) && env.signerUp
    requires |Utf8Encode(p)| >= BCRYPT_KEY_OCTETS
    ensures Login(store, email, JsonString(p + y), env) == LoggedIn(Jwt(store[i].id, "24h"), FormatUserResponse(store[i]))
  {
    LongPasswordsCollide(p, x, y, salt);
    LoginOutcomeOrder(store, i, email, p + y, env);
  }

  /** `exists()` lets a `null` or other non-string password through; bcrypt
      then throws on it, so a known account answers 500 "Server error", never
      "Invalid credentials". */
  lemma LoginNonStringPasswordIsServerError(store: Store, i: nat, email: string, env: Env)
    requires EmailsDistinct(store)
    requires i < |store| && store[i].email == Some(email)
    requires env.isEmail(email)
    ensures Login(store, email, NonString, env) == LoginServerError
    ensures Login(store, email, NonString, env).Status() == 500
  {
    FindByEmailExact(store, i);
  }

  /** An email no account has is "User not found" whatever the password. */
  lemma LoginUnknownEmail(store: Store, email: string, password: BodyField, env: Env)
    requires env.isEmail(email) && !password.Absent?
    requires forall j :: 0 <= j < |store| ==> store[j].email != Some(email)
    ensures Login(store, email, password, env) == LoginUserNotFound
  {
    assert FindOne(store, ByEmail(email)).None?;
  }

  /** A session token is issued only for a verified account with that email
      whose stored hash matches the submitted password. */
  lemma LoginGateHolds(store: Store, email: string, password: BodyField, env: Env)
    ensures Login(store, email, password, env).LoggedIn? ==>
      exists j :: 0 <= j < |store| && store[j].email == Some(email) && store[j].isEmailVerified
        && password.JsonString? && store[j].password.Some? && Compare(password.value, store[j].password.value)
  {
    var r := Login(store, email, password, env);
    if r.LoggedIn? {
      var k := FindOne(store, ByEmail(email)).value;
      assert store[k].email == Some(email) && store[k].isEmailVerified;
    }
  }

  // ---------------------------------------------------------------------------
  // Forgot / reset password
  // ---------------------------------------------------------------------------

  /** The account after a reset token is issued at `now`. */
  function WithResetToken(u: User, token: string, now: Millis): User {
    u.(resetPasswordToken := Some(token), resetPasswordExpires := Some(now + RESET_WINDOW_MS))
  }

  /** Forgot-password on a known email stores a 64-character lower-case hex
      token valid for one hour, replacing any earlier one; no other field or
      account moves. When the transport delivers, the mail that goes out is the
      verification mail with the subject line for a code: it holds no link. */
  lemma ForgotPasswordIssuesToken(store: Store, i: nat, email: string, env: Env, bytes: seq<Byte>)
    requires EmailsDistinct(store)
    requires i < |store| && store[i].email == Some(email)
    requires |bytes| == 32
    requires env.saveFault.None?
    ensures var r := ForgotPassword(store, email, env, bytes); var token := HexEncode(bytes);
      && r.store == store[i := WithResetToken(store[i], token, env.now)]
      && |token| == 64 && (forall k :: 0 <= k < |token| ==> IsLowerHex(token[k]))
      && (r.outcome.ResetLinkSent? <==> env.transport.Delivers?)
      && (r.outcome.ResetLinkSent? ==>
            r.outcome.mail == ResetMailAsWritten(Some(email), ResetLink(env.clientUrl, token)))
  {
    FindByEmailExact(store, i);
  }

  /** With the reset-mail sender, the same request stores the same token, and
      the mail that goes out is a reset mail to the account whose link ends in
      exactly the token now stored on it. */
  lemma ForgotPasswordIntendedSendsLink(store: Store, i: nat, email: string, env: Env, bytes: seq<Byte>)
    requires EmailsDistinct(store)
    requires i < |store| && store[i].email == Some(email)
    requires |bytes| == 32
    requires env.saveFault.None?
    ensures var r := ForgotPasswordIntended(store, email, env, bytes); var token := HexEncode(bytes);
      && r.store == ForgotPassword(store, email, env, bytes).store
      && (r.outcome.ResetLinkSent? <==> env.transport.Delivers?)
      && (r.outcome.ResetLinkSent? ==>
            && r.outcome.mail == ResetMail(Some(email), ResetLink(env.clientUrl, token))
            && r.store[i].resetPasswordToken == Some(token)
            && EndsWith(r.outcome.mail.link, token))
  {
    FindByEmailExact(store, i);
  }

  /** No other account holds `token`. */
  predicate TokenHeldOnlyBy(store: Store, i: nat, token: string) {
    forall j :: 0 <= j < |store| && j != i ==> store[j].resetPasswordToken != Some(token)
  }

  /** A reset token issued at time T is accepted strictly before T + 1 hour and
      refused from then on. */
  lemma ResetTokenWindow(store: Store, i: nat, email: string, env: Env, bytes: seq<Byte>,
                         password: string, later: Env, salt: nat)
    requires EmailsDistinct(store)
    requires i < |store| && store[i].email == Some(email)
    requires |bytes| == 32
    requires env.saveFault.None? && later.saveFault.None?
    requires TokenHeldOnlyBy(store, i, HexEncode(bytes))
    ensures var s1 := ForgotPassword(store, email, env, bytes).store;
      (ResetPassword(s1, HexEncode(bytes), Some(password), later, salt).outcome == PasswordReset) <==>
      (later.now < env.now + 3600000)
  {
    ForgotPasswordIssuesToken(store, i, email, env, bytes);
    var token := HexEncode(bytes);
    var s1 := store[i := WithResetToken(store[i], token, env.now)];
    var q := ByLiveResetToken(token, later.now);
    if later.now < env.now + RESET_WINDOW_MS {
      assert Matches(s1[i], q);
      assert FindOne(s1, q) == Some(i);
    } else {
      assert forall j :: 0 <= j < |s1| ==> !Matches(s1[j], q);
    }
  }

  /** A successful reset stores the hash of the new password and clears both
      reset fields; the same token is then refused at any later time. */
  lemma ResetTokenSingleUse(store: Store, token: string, password: Option<string>, env: Env, salt: nat,
                            password2: Option<string>, later: Env, salt2: nat)
    requires forall j, k :: 0 <= j < k < |store| ==>
      store[j].resetPasswordToken != Some(token) || store[k].resetPasswordToken != Some(token)
    requires ResetPassword(store, token, password, env, salt).outcome == PasswordReset
    ensures var r := ResetPassword(store, token, password, env, salt);
      && (exists i :: 0 <= i < |store| && r.store == store[i := store[i].(
            password := Some(Hash(password.value, salt)), resetPasswordToken := None, resetPasswordExpires := None)])
      && ResetPassword(r.store, token, password2, later, salt2) == Step(r.store, InvalidOrExpiredToken)
  {
    var i := FindOne(store, ByLiveResetToken(token, env.now)).value;
    var s1 := ResetPassword(store, token, password, env, salt).store;
    forall j | 0 <= j < |s1| ensures !Matches(s1[j], ByLiveResetToken(token, later.now)) {
      if j != i {
        assert store[i].resetPasswordToken == Some(token);
        assert store[j].resetPasswordToken != Some(token);
      }
    }
  }

  // ---------------------------------------------------------------------------
  // OAuth
  // ---------------------------------------------------------------------------

  /** A Google sign-in that the store accepts always ends on the dashboard with
      a token for the linked account when signing works, whether or not that
      account ever verified an email: this path has no verification gate. */
  lemma GoogleSignInSkipsVerificationGate(store: Store, p: GoogleProfile, newId: Id, env: Env)
    requires env.signerUp
    ensures var v := GoogleVerify(store, p, newId, env.saveFault);
      && (v.outcome.Done? ==> OAuthCallback(v.outcome, env) == ToDashboard(env.clientUrl, Jwt(v.outcome.user.id, "24h")))
      && (v.outcome.Errored? ==> OAuthCallback(v.outcome, env) == ToLogin(env.clientUrl, Some("oauth_failed")))
  {
  }

  // ---------------------------------------------------------------------------
  // Reset mail (source defect)
  // ---------------------------------------------------------------------------

  /** As written, the mail forgot-password sends does not depend on the reset
      link at all: two different links produce the same message, so the
      recipient cannot learn the token. */
  lemma ResetMailAsWrittenIgnoresLink(to: Option<string>, link1: string, link2: string)
    ensures ResetMailAsWritten(to, link1) == ResetMailAsWritten(to, link2)
    ensures !ResetMailAsWritten(to, link1).PasswordResetMail?
  {
  }

  /** The corrected mail carries the link, and the link ends in the token, so
      different tokens give different mails. */
  lemma ResetMailCarriesToken(to: Option<string>, clientUrl: string, t1: string, t2: string)
    requires |t1| == |t2|
    requires t1 != t2
    ensures ResetMail(to, ResetLink(clientUrl, t1)) != ResetMail(to, ResetLink(clientUrl, t2))
  {
    var l1 := ResetLink(clientUrl, t1);
    var l2 := ResetLink(clientUrl, t2);
    assert l1[|l1| - |t1|..] == t1;
  }
}
