/** The Google strategy's verify callback and the session (de)serialisers
    (backend/config/passport.js). */
module Passport {
  import opened Wrappers
  import opened Identity

  /** The fields of the provider's profile the callback reads. `emails` is
      empty when the provider sent none. */
  datatype GoogleProfile = GoogleProfile(id: string, displayName: string, emails: seq<string>)

  /** What the strategy hands to passport: `done(null, user)`,
      `done(err, null)`, or the provider declining before the callback runs. */
  datatype Authentication = Done(user: User) | Errored(message: string) | Denied

  /** The values the `User` schema gives fields the callback does not set. The
      schema file is not part of this model; a fresh account is taken to be
      unverified and without avatar. */
  const SCHEMA_DEFAULT_VERIFIED := false
  const SCHEMA_DEFAULT_AVATAR: Option<string> := None

  /** `profile.emails && profile.emails[0] ? profile.emails[0].value : null`. */
  function FirstEmail(p: GoogleProfile): (e: Option<string>)
    ensures e.Some? <==> |p.emails| > 0
    ensures e.Some? ==> e.value == p.emails[0]
  {
    if |p.emails| > 0 then Some(p.emails[0]) else None
  }

  /** The document created on a first Google sign-in: linked by `googleId`,
      named after the profile, without password and without any pending code. */
  function NewGoogleUser(id: Id, p: GoogleProfile): (u: User)
    ensures u.id == id && u.googleId == Some(p.id) && u.name == p.displayName
    ensures u.email == FirstEmail(p)
    ensures u.password.None?
    ensures u.emailVerificationToken.None? && u.emailVerificationExpires.None?
    ensures u.resetPasswordToken.None? && u.resetPasswordExpires.None?
  {
    User(id, p.displayName, FirstEmail(p), None, SCHEMA_DEFAULT_AVATAR, Some(p.id),
         SCHEMA_DEFAULT_VERIFIED, None, None, None, None)
  }

  /** The verify callback: find the account by `googleId`, or create it under
      the id the database assigns (`newId`). A failing save answers
      `done(err, null)`. */
  function GoogleVerify(store: Store, p: GoogleProfile, newId: Id, fault: Option<string>): (r: Step<Authentication>)
    ensures r.outcome.Done? ==> r.outcome.user.googleId == Some(p.id) && r.outcome.user in r.store
    ensures r.outcome.Errored? ==> r.store == store
    ensures !r.outcome.Denied?
  {
    match FindOne(store, ByGoogleId(p.id))
    case Some(i) => Step(store, Done(store[i]))
    case None =>
      var u := NewGoogleUser(newId, p);
      match Insert(store, u, fault)
      case Failure(message) => Step(store, Errored(message))
      case Success(s') => Step(s', Done(u))
  }

  /** `serializeUser`: the session keeps only the id. */
  function SerializeUser(u: User): Id {
    u.id
  }

  /** `deserializeUser`: `findById` on the stored id; `null` when gone. */
  function DeserializeUser(store: Store, id: Id): (r: Option<User>)
    ensures r.Some? ==> r.value in store && r.value.id == id
    ensures r.None? <==> forall j :: 0 <= j < |store| ==> store[j].id != id
  {
    match FindOne(store, ById(id))
    case Some(i) => Some(store[i])
    case None => None
  }

  /** A session restores exactly the account it was created for. */
  lemma SessionRoundTrip(store: Store, i: nat)
    requires IdsDistinct(store)
    requires i < |store|
    ensures DeserializeUser(store, SerializeUser(store[i])) == Some(store[i])
  {
    FindByIdExact(store, i);
  }

  /** A returning Google user: the linked document is returned as stored and
      nothing is written. */
  lemma ReturningGoogleUser(store: Store, p: GoogleProfile, newId: Id, fault: Option<string>, i: nat)
    requires i < |store| && store[i].googleId == Some(p.id)
    requires forall j :: 0 <= j < i ==> store[j].googleId != Some(p.id)
    ensures GoogleVerify(store, p, newId, fault) == Step(store, Done(store[i]))
  {
    assert Matches(store[i], ByGoogleId(p.id));
  }

  /** Ids and emails stay unique through a sign-in when the database's new id
      and the profile's first email are both new to the store. The callback
      itself does not look at the email, so without the second condition a
      first sign-in can add a second account under an existing email. */
  lemma GoogleVerifyPreservesWellFormed(store: Store, p: GoogleProfile, newId: Id, fault: Option<string>)
    requires WellFormed(store)
    requires forall j :: 0 <= j < |store| ==> store[j].id != newId
    requires FirstEmail(p).Some? ==> forall j :: 0 <= j < |store| ==> store[j].email != FirstEmail(p)
    ensures WellFormed(GoogleVerify(store, p, newId, fault).store)
  {
  }

  /** Without that condition the store can lose email uniqueness: a first
      Google sign-in whose profile email belongs to a local account adds a
      second document with that email. */
  lemma GoogleVerifyCanDuplicateEmail(store: Store, p: GoogleProfile, newId: Id, k: nat)
    requires k < |store| && |p.emails| > 0 && store[k].email == Some(p.emails[0])
    requires forall j :: 0 <= j < |store| ==> store[j].googleId != Some(p.id) && store[j].id != newId
    ensures !EmailsDistinct(GoogleVerify(store, p, newId, None).store)
  {
    FirstGoogleSignIn(store, p, newId, None);
    var s' := store + [NewGoogleUser(newId, p)];
    assert s'[k].email == s'[|store|].email;
  }

  /** A first Google sign-in appends exactly one document, or on a failing
      save writes nothing and reports the error. */
  lemma FirstGoogleSignIn(store: Store, p: GoogleProfile, newId: Id, fault: Option<string>)
    requires forall j :: 0 <= j < |store| ==> store[j].googleId != Some(p.id)
    ensures var r := GoogleVerify(store, p, newId, fault);
      if fault.None? && forall j :: 0 <= j < |store| ==> store[j].id != newId
      then r == Step(store + [NewGoogleUser(newId, p)], Done(NewGoogleUser(newId, p)))
      else r.store == store && r.outcome.Errored?
  {
    assert FindOne(store, ByGoogleId(p.id)).None?;
  }
}
