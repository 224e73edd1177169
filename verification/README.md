# DevSync identity core and dashboard aggregation, in Dafny

DevSync is a developer dashboard with a Node/Express backend and a React
frontend. This project models its core as pure Dafny functions over
immutable data and proves properties about them:

- **The authentication state machine** (`backend/routes/auth.js`). It covers:
  - registration with deferred email verification;
  - verify-email and resend-verification;
  - credential login with its verification gate;
  - forgot-password and reset-password with one-hour single-use tokens;
  - the Google OAuth callback's redirect;
  - the avatar URL generator.
- **The shared helpers** (`backend/utils/emailVerificationHelpers.js`). These are:
  - the six-digit code generator;
  - session-token issue;
  - the public projection of a user;
  - verification-code setting;
  - the development/production mail switch.
- **The Google strategy** (`backend/config/passport.js`): find-or-create by `googleId`, plus session serialisation.
- **The GitHub statistics route** (`backend/routes/github.route.js`). It aggregates an already parsed GraphQL answer:
  - the top six repositories by stars;
  - per-language size totals;
  - the flattened contribution calendar.
- **The profile editor's state updates** (`frontend/src/Components/profile/Profile.jsx`).
- **The navigation bar's state** (`frontend/src/Components/Navbar/Navbar.jsx`): the `mm:ss` timer display, active-link matching, the token-derived sign-in flag, and logout.

How the model maps the system:

- **Database.** The user collection is a `seq<User>` in insertion order. A `findOne` returns the first matching document; a created document is appended.
- **Parameters.** Anything the handlers get from outside becomes a parameter:
  - the clock (`Env.now`);
  - the random draw behind a code or a reset token;
  - the id the database assigns;
  - whether a save fails;
  - whether the JWT signer works;
  - whether the mail transport delivers.
- **Outcomes.** Each handler returns the new store and an outcome datatype whose `Status()` is the HTTP status the route answers with.

Modules:

| file | module | models |
|---|---|---|
| wrappers.dfy | `Wrappers` | `Option`, `Result` |
| text.dfy | `Text` | `startsWith`, decimal `toString`, `padStart`, `trim`, hex encoding |
| uri.dfy | `Uri` | `encodeURIComponent` (UTF-8 percent-encoding) and its inverse `decodeURIComponent` |
| identity.dfy | `Identity` | user documents, the store, queries, password digests |
| helpers.dfy | `VerificationHelpers` | emailVerificationHelpers.js |
| passport.dfy | `Passport` | passport.js |
| auth.dfy | `AuthRoutes` | the handlers of auth.js |
| auth_properties.dfy | `AuthProperties` | properties relating several handler calls |
| github.dfy | `GitHubStats` | github.route.js aggregation |
| profile.dfy | `ProfileEditor` | Profile.jsx state updates |
| navbar.dfy | `Navbar` | Navbar.jsx state |

Where the code and the design description of the system disagree, the model follows the code:

- **Reset-mail failure.** A reset mail that the transport rejects is not swallowed. The token is already saved, and the route answers 500 (`AuthRoutes.ForgotPassword`).
- **Google accounts' verification flag.** A new Google account gets whatever `isEmailVerified` value the `User` schema defaults to. It is not set to "verified". The schema (`backend/models/User.js`) is not part of this model, so the model takes the default to be `false`. Google sign-in is still never gated on the flag (`AuthProperties.GoogleSignInSkipsVerificationGate`).

## Model

| member | source | states |
|---|---|---|
| VerificationHelpers.GenerateVerificationCode | backend/utils/emailVerificationHelpers.js:11-13 | the code for a draw from [100000, 999999) has exactly six decimal digits and reads back as the draw |
| VerificationHelpers.GenerateJWT | backend/utils/emailVerificationHelpers.js:20-28 | signing fails exactly when the signer errors; a token binds the user id and the requested lifetime |
| VerificationHelpers.IssueSessionToken | backend/utils/emailVerificationHelpers.js:20-28 | handler tokens bind the user id with the default lifetime "24h" |
| VerificationHelpers.ProjectionIsPublicFieldsOnly | backend/utils/emailVerificationHelpers.js:33-39 | two users project identically iff they agree on id, name, email, avatar and verified flag, so the password never shows |
| VerificationHelpers.SetVerificationToken | backend/utils/emailVerificationHelpers.js:44-50 | the stored code is a fresh six-digit code, the expiry is now + 900000 ms, and no other field changes |
| VerificationHelpers.Send | backend/services/emailService.js:12-25 | the transport gets exactly the given mail; a rejection is reported, not swallowed |
| VerificationHelpers.HandleVerificationEmail | backend/utils/emailVerificationHelpers.js:55-70 | development mode never sends; otherwise the verification mail goes out and a transport failure reaches the caller |
| Identity.BcryptKey | backend/routes/auth.js:119-121 | bcrypt's key material is always 72 octets: a password of 72 or more UTF-8 octets contributes only its first 72, and a shorter one appears whole, followed by a zero octet |
| Identity.Hash | backend/routes/auth.js:119-121 | the stored digest keeps the salt and compares equal to the hashed password |
| Identity.LongPasswordsCollide | backend/routes/auth.js:365 | once a password reaches 72 UTF-8 octets, anything appended to it is ignored: the digest of `p + x` matches `p + y` |
| Identity.ShortPasswordsAreExact | backend/routes/auth.js:365 | for passwords under 72 UTF-8 octets without U+0000, a digest matches a password exactly when it is the hashed one |
| Identity.FindOne | backend/routes/auth.js:97 | the result is the first document matching the query, and none is returned only when no document matches |
| Identity.FindByIdExact | backend/config/passport.js:45 | with unique ids, looking up a document's id finds that document |
| Identity.FindByEmailExact | backend/routes/auth.js:357 | with unique emails, looking up a document's email finds that document |
| Identity.AppendKeepsWellFormed | backend/routes/auth.js:115-132 | appending a document whose id and email are new keeps ids and emails unique |
| Identity.SameKeysKeepWellFormed | backend/routes/auth.js:101-102 | a store whose documents keep their ids and emails stays well formed |
| Identity.ReplaceKeepsWellFormed | backend/routes/auth.js:101-102 | replacing a document by one with the same id and email keeps ids and emails unique |
| Passport.FirstEmail | backend/config/passport.js:25 | the new account's email is the profile's first email, or absent when the profile has none |
| Passport.NewGoogleUser | backend/config/passport.js:20-27 | the new account carries the Google id and display name, and has no password and no verification or reset fields |
| Passport.GoogleVerify | backend/config/passport.js:15-34 | a signed-in user is linked to the profile's Google id and is in the store; a store error answers with the error and writes nothing |
| Passport.GoogleVerifyPreservesWellFormed | backend/config/passport.js:18-27 | when the new id and the profile's first email are both unused, ids and emails stay unique after the callback |
| Passport.GoogleVerifyCanDuplicateEmail | backend/config/passport.js:18-27 | a first sign-in whose profile email belongs to another account leaves two documents with that email, because the callback looks up only `googleId` |
| Passport.ReturningGoogleUser | backend/config/passport.js:18-30 | an account already linked to the Google id is returned as stored and nothing is created |
| Passport.FirstGoogleSignIn | backend/config/passport.js:20-33 | with no linked account, exactly one document is appended and returned; a failing save writes nothing and reports the error |
| Passport.DeserializeUser | backend/config/passport.js:43-50 | the loaded user has the requested id; nothing is loaded exactly when no document has that id |
| Passport.SessionRoundTrip | backend/config/passport.js:39-49 | deserialising a serialised user returns the same document |
| AuthRoutes.AvatarSeed | backend/routes/auth.js:15-30 | the seed is the email; the name when the email is empty; "user" when both are |
| AuthRoutes.GenerateAvatarUrl | backend/routes/auth.js:15-30 | the URL is the DiceBear base followed by the percent-encoded seed, and every character after the base is URL-safe |
| AuthRoutes.RegisterErrors | backend/routes/auth.js:80-91 | each check's error is listed exactly when that check fails (empty name, invalid email, password shorter than 6 characters as validator.js counts them, U+FE0E and U+FE0F not counted), and the list is empty exactly when all pass |
| AuthRoutes.RegisterFailure | backend/routes/auth.js:145-152 | "Invalid Email ID" maps to 400 and any other failure to a 500 server error |
| AuthRoutes.Register | backend/routes/auth.js:78-153 | input is rejected (400) exactly when a check fails, and then, like "already exists", writes nothing; a creation appends exactly one document under the new id; no existing document changes id or email |
| AuthProperties.RegisterUnverifiedEmailResends | backend/routes/auth.js:97-109 | re-registering an unverified email creates nothing, replaces only that account's code and expiry, and answers "needs verification" with the same id |
| AuthProperties.RegisterVerifiedEmailRejected | backend/routes/auth.js:110-112 | re-registering a verified email answers 500 "already exists" and leaves the store unchanged |
| AuthProperties.RegisterFreshEmailCreates | backend/routes/auth.js:115-143 | a new email appends exactly one unverified document holding the issued code, expiry now + 900000 and only the password's hash |
| AuthProperties.SelectorPaddedPasswordTooShort | backend/routes/auth.js:83-85 | "abcde" followed by U+FE0F has six characters yet is rejected as shorter than 6 |
| AuthProperties.RegisterFreshEmailAppends | backend/routes/auth.js:115-143 | a new email leads to the insert branch: the new document is appended, and the answer is 201 exactly when the mail goes out or is skipped in development |
| AuthProperties.RegisterPreservesWellFormed | backend/routes/auth.js:97-133 | registration keeps account ids and emails unique |
| AuthRoutes.ForgotPassword | backend/routes/auth.js:159-187 | unknown email answers 404 and writes nothing; otherwise no document is added or removed; the mail that goes out is a verification mail whose code is the subject line |
| AuthRoutes.ForgotPasswordIntended | backend/routes/auth.js:159-187 | the same handler with the reset-mail sender: same 404 and store behaviour, and the mail that goes out is a reset mail |
| AuthProperties.ForgotPasswordIssuesToken | backend/routes/auth.js:163-181 | a known email gets a fresh 64-character hex token valid for one hour, which overwrites any earlier token; only that account changes; the route answers success exactly when the transport delivers, and the mail is the verification mail carrying the subject line, not the link |
| AuthProperties.ForgotPasswordIntendedSendsLink | backend/routes/auth.js:163-181 | with the reset-mail sender, the store changes exactly as written, and a delivered mail goes to the account with a link that ends in the token stored on it |
| AuthRoutes.ResetLink | backend/routes/auth.js:175 | the reset link ends in the token |
| AuthRoutes.ResetMailAsWritten | backend/routes/auth.js:176-180 | the mail handed over is a verification mail to the account whose code is "Password Reset Request" |
| AuthRoutes.ResetMail | backend/routes/auth.js:175-180 | the reset mail goes to the account and carries the reset link |
| AuthRoutes.ResetPassword | backend/routes/auth.js:193-223 | the request is refused as invalid exactly when no account holds the token with an expiry strictly after now; any failure writes nothing |
| AuthProperties.ResetTokenWindow | backend/routes/auth.js:170-201 | a token issued at T is accepted strictly before T + 3600000 and refused from then on |
| AuthProperties.ResetTokenSingleUse | backend/routes/auth.js:210-216 | a successful reset stores the new password's hash and clears both reset fields, so the same token is refused later |
| AuthRoutes.VerifyEmail | backend/routes/auth.js:229-292 | every rejection leaves the store unchanged; success answers with a verified account under the requested id and a token for it; no document is added or removed |
| AuthProperties.VerifyEmailCheckOrder | backend/routes/auth.js:233-265 | the checks run in a fixed order: missing fields, unknown user, already verified, wrong code, then expired |
| AuthProperties.VerifyEmailUnknownUser | backend/routes/auth.js:233-244 | no id answers "required fields" and an unknown id answers "user not found" |
| AuthProperties.VerifyEmailSucceedsIff | backend/routes/auth.js:246-284 | verification succeeds iff the account is unverified, the code equals the stored one exactly, and the expiry has not passed |
| AuthProperties.VerifyEmailExpiryBoundary | backend/routes/auth.js:259 | a code submitted at the exact expiry millisecond is accepted, and one a millisecond later is refused as expired |
| AuthProperties.VerifyEmailSingleUse | backend/routes/auth.js:267-271 | after a successful verification, the same request answers "already verified" |
| AuthRoutes.ResendVerification | backend/routes/auth.js:297-336 | only an existing unverified account gets a new code; refusals write nothing |
| AuthProperties.ResendReplacesCode | backend/routes/auth.js:300-321 | resending replaces the code and expiry of an unverified account, even when the mail then fails |
| AuthProperties.CodesDiffer | backend/utils/emailVerificationHelpers.js:11-13 | distinct draws give distinct codes |
| AuthProperties.ResendInvalidatesEarlierCode | backend/routes/auth.js:315-321 | after a resend with a different draw, the earlier code is refused as invalid |
| AuthRoutes.LoginErrors | backend/routes/auth.js:343-351 | the email error is listed exactly for an invalid email and the password error exactly for a missing password field; an empty string, `null` or any other present JSON value passes |
| AuthRoutes.Login | backend/routes/auth.js:341-398 | login returns only a response and never a new store; a token comes only with the projection of a verified account holding the email, and "requires verification" names that email; "invalid credentials", "requires verification" and a token all need a string password |
| AuthProperties.LoginOutcomeOrder | backend/routes/auth.js:357-391 | the outcomes come in order: unknown account, wrong password, "requires verification" with id and email and no token, then token with the public projection |
| AuthProperties.LoginUnknownEmail | backend/routes/auth.js:357-362 | an unknown email answers "user not found" whatever password value is present |
| AuthProperties.LoginNonStringPasswordIsServerError | backend/routes/auth.js:345-395 | a `null` or other non-string password passes the check, makes bcrypt's comparison throw on a known account, and is answered 500 |
| AuthProperties.LoginGateHolds | backend/routes/auth.js:357-391 | a token is issued only for a verified account with that email whose stored hash matches the submitted password |
| AuthProperties.LoginAcceptsSharedPrefix | backend/routes/auth.js:357-391 | a verified account whose password was at least 72 UTF-8 octets long also logs in with any password sharing those first octets |
| AuthRoutes.OAuthCallback | backend/routes/auth.js:42-73 | a signed-in user is sent to the dashboard with a token for that user; a signing failure goes to the login page with `oauth_token_failed` |
| AuthProperties.GoogleSignInSkipsVerificationGate | backend/routes/auth.js:55-66 | a Google sign-in reaches the dashboard whether or not the account ever verified an email |
| AuthProperties.ResetMailAsWrittenIgnoresLink | backend/routes/auth.js:176-180 | as written, the mail forgot-password sends is the same for every reset link and is not a reset mail |
| AuthProperties.ResetMailCarriesToken | backend/routes/auth.js:175-180 | with the corrected mail, different tokens give different mails |
| Text.NatToDecimal | frontend/src/Components/Navbar/Navbar.jsx:58-59 | `String(n)` is digits only, non-empty, and has no leading zero |
| Text.DecimalRoundTrip | frontend/src/Components/Navbar/Navbar.jsx:58-59 | reading back the decimal rendering of n gives n |
| Text.PadStart | frontend/src/Components/Navbar/Navbar.jsx:58-59 | the result ends in the input, reaches the requested width, and adds only filler characters on the left |
| Text.PadStartKeepsValue | frontend/src/Components/Navbar/Navbar.jsx:58-59 | zero-padding a digit string keeps its value |
| Text.Trim | frontend/src/Components/profile/Profile.jsx:187 | the result is a slice of the input that neither starts nor ends with whitespace, and is empty exactly when the input is all whitespace |
| Text.TrimDropsOnlyWhitespace | frontend/src/Components/profile/Profile.jsx:187 | every character outside the kept slice is whitespace |
| Text.TrimIdempotent | frontend/src/Components/profile/Profile.jsx:187-188 | trimming a trimmed string changes nothing |
| Text.HexEncode | backend/routes/auth.js:169 | the token is lower-case hex, two characters per byte |
| Text.HexRoundTrip | backend/routes/auth.js:169 | decoding the hex token gives back the random bytes |
| Uri.EncodeURIComponent | backend/routes/auth.js:25-27 | the result is no shorter than the input and contains only unreserved characters and `%`; an all-unreserved input is returned unchanged |
| Uri.Utf8RoundTrip | backend/routes/auth.js:25-27 | the UTF-8 octets of every character decode back to it, and the lead octet gives the sequence length |
| Uri.DecodeURIComponent | backend/routes/auth.js:25-27 | the inverse of the encoding: text without `%` is returned unchanged, and a decoded text is never longer than its input |
| Uri.DecodeEncodeRoundTrip | backend/routes/auth.js:25-27 | decoding the encoding of any text gives the text back |
| Uri.EncodeURIComponentInjective | backend/routes/auth.js:25-27 | different seeds give different encoded seeds |
| Uri.Utf8TextRoundTrip | backend/routes/auth.js:121 | decoding the UTF-8 octets of a password, as bcrypt reads it, gives the password back |
| Uri.Utf8EncodeInjective | backend/routes/auth.js:121 | different passwords have different UTF-8 octets |
| Uri.Utf8EncodeHasNoZero | backend/routes/auth.js:121 | a password without U+0000 has no zero octet in its UTF-8 form |
| Text.ValidatorLength | backend/routes/auth.js:83-85 | the length `isLength` checks never exceeds the character count, and equals it when the text holds no U+FE0E or U+FE0F |
| Text.ValidatorLengthAppend | backend/routes/auth.js:83-85 | the counted length of a concatenation is the sum of the parts' counted lengths |
| Text.SelectorIsNotCounted | backend/routes/auth.js:83-85 | appending U+FE0E or U+FE0F leaves the counted length unchanged |
| GitHubStats.SortByStars | backend/routes/github.route.js:86-87 | the sorted repositories are a permutation of the input in non-increasing star order |
| GitHubStats.ProjectRepo | backend/routes/github.route.js:89-98 | each top repository copies name, url, description, stars, forks and every language edge field for field |
| GitHubStats.TopRepos | backend/routes/github.route.js:86-99 | there are min(6, n) top repositories, and the k-th is the projection of the k-th sorted node |
| GitHubStats.TopReposAreTheMostStarred | backend/routes/github.route.js:86-99 | the top repositories are in non-increasing star order, each comes from an input node, and no omitted node has more stars than any chosen one |
| GitHubStats.LanguageTotalsCorrect | backend/routes/github.route.js:102-111 | the totals list each language that occurs exactly once, and each size is the sum of that language's edge sizes |
| GitHubStats.RepoTotalPermutation | backend/routes/github.route.js:86-103 | a language's total does not depend on repository order, so the in-place sort changes no total |
| GitHubStats.AggregateLanguagesAreTotals | backend/routes/github.route.js:102-111 | the response's languages are one per language some repository lists, each sized by its sum over all repositories |
| GitHubStats.AggregateLanguages | backend/routes/github.route.js:102-107 | the two nested loops compute exactly the folded totals |
| GitHubStats.FlattenWeeksAt | backend/routes/github.route.js:114-119 | day d of week w sits at that week's offset plus d, so weeks stay in order and days in order within each week |
| GitHubStats.FlattenWeeksLength | backend/routes/github.route.js:114-119 | the heatmap holds exactly as many days as all the weeks together |
| GitHubStats.FlattenContributionDays | backend/routes/github.route.js:114-119 | the push loop builds exactly the concatenation of the weeks' days |
| GitHubStats.Aggregate | backend/routes/github.route.js:83-138 | a missing user answers 404; otherwise there are min(6, n) top repositories, the heatmap is the flattened calendar, and language names are distinct |
| ProfileEditor.AddSkill | frontend/src/Components/profile/Profile.jsx:186-191 | the trimmed input is appended at the end and the input cleared iff it is non-empty and not yet listed; otherwise nothing changes |
| ProfileEditor.AddSkillKeepsNoDuplicates | frontend/src/Components/profile/Profile.jsx:187-188 | adding a skill keeps the list free of duplicates |
| ProfileEditor.RemoveSkill | frontend/src/Components/profile/Profile.jsx:193-198 | the skill no longer occurs, and every other skill is still present |
| ProfileEditor.RemoveSkillDistributes | frontend/src/Components/profile/Profile.jsx:196 | removal from a concatenation is the concatenation of the removals, so the order of the remaining skills is kept |
| ProfileEditor.RemoveSkillCounts | frontend/src/Components/profile/Profile.jsx:196 | every other skill keeps its number of occurrences, and the removed one has none |
| ProfileEditor.AddThenRemoveSkill | frontend/src/Components/profile/Profile.jsx:186-198 | removing the skill just added restores the previous list |
| ProfileEditor.RemoveSkillFrom | frontend/src/Components/profile/Profile.jsx:193-198 | removal changes only the skills |
| ProfileEditor.SocialKey | frontend/src/Components/profile/Profile.jsx:176 | the key is the text after "socialLinks." up to the next dot |
| ProfileEditor.HandleChange | frontend/src/Components/profile/Profile.jsx:173-184 | a "socialLinks.k" name sets only key k of the social links; any other name sets only that top-level field |
| ProfileEditor.SocialInputEditsItsKey | frontend/src/Components/profile/Profile.jsx:175-180 | the social input for key k edits exactly `socialLinks[k]` |
| ProfileEditor.SaveProfile | frontend/src/Components/profile/Profile.jsx:223-239 | the saved avatar is the preview when one is set and the edited avatar otherwise; the preview and file are cleared and editing ends |
| ProfileEditor.SaveKeepsEdits | frontend/src/Components/profile/Profile.jsx:228 | saving keeps every edited field other than the avatar, and every link and skill |
| ProfileEditor.SocialLinkHref | frontend/src/Components/profile/Profile.jsx:48-53 | an empty or missing url renders nothing; a url starting with "http" is kept, and any other url gets "https://" in front |
| ProfileEditor.SocialLinkHrefIdempotent | frontend/src/Components/profile/Profile.jsx:53 | normalising an href twice gives the same href |
| Navbar.Pad2 | frontend/src/Components/Navbar/Navbar.jsx:58-59 | the padded count has at least two digits (exactly two below 100) and reads back as the count |
| Navbar.Pad2IsPadStart | frontend/src/Components/Navbar/Navbar.jsx:58-59 | the two-digit rendering is `String(n).padStart(2, "0")` |
| Navbar.FormatTime | frontend/src/Components/Navbar/Navbar.jsx:58-60 | the display is minutes, a colon, and two digits; minutes read back as floor(t/60) and seconds as t % 60 |
| Navbar.FormatTimeRoundTrip | frontend/src/Components/Navbar/Navbar.jsx:58-60 | parsing the display gives back the remaining seconds |
| Navbar.FormatTimeInjective | frontend/src/Components/Navbar/Navbar.jsx:58-60 | different remaining times never show the same display |
| Navbar.InitialDisplayIsFullTimer | frontend/src/Components/Navbar/Navbar.jsx:35 | the initial "25:00" is the display of a full 25-minute timer |
| Navbar.Mount | frontend/src/Components/Navbar/Navbar.jsx:33-38 | on mount the flag is set iff a non-empty token is stored, the display shows "25:00", and both menus are closed |
| Navbar.OnStorageChange | frontend/src/Components/Navbar/Navbar.jsx:65-69 | a storage event re-derives only the flag from the token |
| Navbar.OnTimerTick | frontend/src/Components/Navbar/Navbar.jsx:55-63 | a running timer shows the remaining time and a stopped one changes nothing |
| Navbar.Logout | frontend/src/Components/Navbar/Navbar.jsx:77-82 | logout removes the token, clears the flag, closes the user menu, goes to /login, and leaves the rest alone |
| Navbar.FlagTracksToken | frontend/src/Components/Navbar/Navbar.jsx:33-82 | every transition keeps the flag in step with the stored token, and after logout it reads signed out |
| Navbar.AtMostOneActive | frontend/src/Components/Navbar/Navbar.jsx:84-87 | when no link begins with another, at most one link is highlighted on any path |
| Navbar.NavHighlight | frontend/src/Components/Navbar/Navbar.jsx:24-28 | on a path starting with "/", Home is highlighted exactly on "/" and the section links "#features", "#about" and "#contact" never are |

## Left out

- bcrypt (bcryptjs) is modelled by the key material it draws from the password: the UTF-8 octets with a zero terminator, repeated up to 72 octets. A digest is that key with its salt; the Blowfish rounds, the cost factor and timing are left out. As in bcryptjs, passwords that agree on their first 72 octets, or that differ only after a U+0000, compare equal; exactness is proved only for NUL-free passwords under 72 octets (`Identity.ShortPasswordsAreExact`).
- Strings are sequences of Unicode scalar values. JavaScript strings are UTF-16, so a lone surrogate (on which `encodeURIComponent` throws) is not representable; a character outside the BMP counts as one, which is also how `isLength` counts it.
- AuthRoutes.RegisterErrors: validator.js converts a non-string field to text before checking it; the fields are modelled as text already, so that conversion is not modelled.
- AuthRoutes.ForgotPassword: the route has no validator (auth.js:159-163), so a missing email, or a non-string JSON value such as `{"$ne": null}` that Mongo reads as a query operator matching the first account, reaches `findOne`. The email is modelled as text, so these requests are not modelled; the same holds for `AuthRoutes.ForgotPasswordIntended`.
- JWT signing and verification (RFC 7519): a token is the pair (user id, lifetime) it binds, and whether signing fails is a parameter.
- The MD5 hash inside `generateAvatarUrl` is left out. It is computed and never used.
- Mail: the Gmail transport is a parameter that either delivers or rejects.
  - The body of `sendPasswordResetEmail` (backend/services/emailService.js:28-44) is not modelled, because no handler calls it. Its effect, a reset mail carrying the link, is `AuthRoutes.ResetMail`.
- express-validator's `isEmail` is an abstract predicate in `Env`.
- Express plumbing is not modelled: middleware, rate limiters, sessions, cookies, CORS, server.js wiring, and the `GET /api/auth` and `/me` session routes.
- The `User` schema (backend/models/User.js) is not part of this model. Its defaults and its unique index are represented as follows:
  - a new Google account is unverified and has no avatar;
  - a save that would duplicate an id fails;
  - a save is not checked against an email index.
- Passport.GoogleVerify: the email index is not enforced. The schema is not part of this model, so whether it declares email unique is left open, and the model lets a first Google sign-in add an account whose email another account already has (`Passport.GoogleVerifyCanDuplicateEmail`); `Passport.GoogleVerifyPreservesWellFormed` needs the email to be unused.
- AuthRoutes.VerifyEmail: `userId` is an optional id, so a malformed id, on which `findById` throws a cast error and the route answers 500 (auth.js:239, 286-290), is not modelled. `verificationCode` is text, so a numeric JSON code, which the strict `!==` at auth.js:253 always rejects as invalid, is not modelled either.
- AuthRoutes.ResendVerification: a malformed `userId`, on which `findById` throws and the route answers 500 (auth.js:301, 332-334), is not modelled.
- Concurrent requests are not modelled. Each handler runs atomically on one store, so races between two registrations of the same email are out of scope.
- The GitHub GraphQL fetch, its token check and its error answer (500) are I/O. Only the aggregation over a parsed answer is modelled.
- GitHubStats.LanguageTotals: a language named like an inherited `Object.prototype` member (say `constructor`) would start from that member instead of 0 in JavaScript. The model starts every language from 0.
- GitHubStats.LanguageTotals: `Object.entries` lists integer-like keys first in numeric order. The model keeps first-insertion order for all names.
- GitHubStats.SortByStars: the sort is stable in the source (ECMAScript 2019 and later) and in the model, but the contract states only the order and the permutation, not stability.
- ProfileEditor.HandleChange: requires the name not to be "skills" or "socialLinks". Those names would replace a list or an object with text, and no input of the form emits them.
- ProfileEditor.HandleChange: the stale `editData` closure in the top-level branch and React's batching of state updates are not modelled. Each handler sees the latest state.
- Navbar.FormatTime: takes a non-negative number of seconds. A negative `timeLeft` (never produced by the timer context) is not modelled.
- Navbar route-change menu closing, scrolling and rendering are left out. So are all other React components (Hero, GitHubProfile, Dashboard, FAQ, footer, forms, routing).

## Findings

| source | as written | input that shows it | evidently intended | confidence | as-written member | corrected member |
|---|---|---|---|---|---|---|
| backend/routes/auth.js:176-180 | forgot-password calls `sendVerificationEmail(user.email, "Password Reset Request", html)`. That sender takes `(email, verificationCode)`, so the html with the reset link is dropped and the mail says "Your verification code is: Password Reset Request" | any known email, with a delivering transport: the mail holds no link and no token | send the reset link (what `sendPasswordResetEmail` does) | high; not executed | AuthRoutes.ForgotPassword, AuthProperties.ForgotPasswordIssuesToken, AuthProperties.ResetMailAsWrittenIgnoresLink | AuthRoutes.ForgotPasswordIntended, AuthProperties.ForgotPasswordIntendedSendsLink, AuthProperties.ResetMailCarriesToken |
