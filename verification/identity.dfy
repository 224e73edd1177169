/** The identity store behind the authentication routes: one `User` document
    per account, kept in a collection that the handlers query with
    `findOne`/`findById` and update with `save`.

    The collection is a sequence in insertion order; a query returns the FIRST
    matching document, which is what a database `findOne` without a sort does.
    Creating a document appends it under the id the database assigned. */
module Identity {
  import opened Wrappers
  import opened Text
  import opened Uri

  /** A document id (`_id`). */
  type Id = nat

  /** Milliseconds since the epoch, the unit of `Date.now()`. */
  type Millis = int

  /** How many octets of key material bcrypt's key schedule draws. */
  const BCRYPT_KEY_OCTETS := 72

  /** The first `n` octets of `k` repeated end to end. */
  function Cycle(k: seq<Byte>, n: nat): (r: seq<Byte>)
    requires |k| > 0
    ensures |r| == n
    ensures n <= |k| ==> r == k[..n]
    ensures n >= |k| ==> r[..|k|] == k
    decreases n
  {
    if n <= |k| then k[..n] else k + Cycle(k, n - |k|)
  }

  /** The key material bcrypt draws from a password: its UTF-8 octets and a
      terminating zero, repeated cyclically, of which the first 72 are used.
      Octets past the 72nd never take part; a shorter password shows up
      whole, followed by the zero. */
  function BcryptKey(password: string): (key: seq<Byte>)
    ensures |key| == BCRYPT_KEY_OCTETS
    ensures |Utf8Encode(password)| >= BCRYPT_KEY_OCTETS ==> key == Utf8Encode(password)[..BCRYPT_KEY_OCTETS]
    ensures |Utf8Encode(password)| < BCRYPT_KEY_OCTETS ==> key[..|Utf8Encode(password)| + 1] == Utf8Encode(password) + [0]
  {
    var octets := Utf8Encode(password);
    var k := octets + [0];
    assert |octets| >= BCRYPT_KEY_OCTETS ==> k[..BCRYPT_KEY_OCTETS] == octets[..BCRYPT_KEY_OCTETS];
    Cycle(k, BCRYPT_KEY_OCTETS)
  }

  /** The output of the adaptive password hash: a salted digest of the key
      material. It is never a field of any response and is only reachable
      through `Compare`, the model of the hash library's comparison. */
  datatype Digest = Hashed(salt: nat, key: seq<Byte>)

  /** Hashes `password` with a freshly drawn `salt`. */
  function Hash(password: string, salt: nat): (d: Digest)
    ensures Compare(password, d)
    ensures d.salt == salt
  {
    Hashed(salt, BcryptKey(password))
  }

  /** Does `password` match the digest? The salt does not take part. */
  predicate Compare(password: string, d: Digest) {
    BcryptKey(password) == d.key
  }

  /** Past 72 UTF-8 octets nothing counts: any two passwords that share a
      prefix of at least 72 octets match each other's digest. */
  lemma LongPasswordsCollide(p: string, x: string, y: string, salt: nat)
    requires |Utf8Encode(p)| >= BCRYPT_KEY_OCTETS
    ensures Compare(p + y, Hash(p + x, salt))
  {
    Utf8EncodeAppend(p, x);
    Utf8EncodeAppend(p, y);
    TakePrefix(Utf8Encode(p), Utf8Encode(x));
    TakePrefix(Utf8Encode(p), Utf8Encode(y));
    assert Utf8Encode(p + x)[..BCRYPT_KEY_OCTETS] == Utf8Encode(p)[..BCRYPT_KEY_OCTETS];
    assert Utf8Encode(p + y)[..BCRYPT_KEY_OCTETS] == Utf8Encode(p)[..BCRYPT_KEY_OCTETS];
  }

  predicate NoNul(s: string) {
    forall i :: 0 <= i < |s| ==> s[i] != '\0'
  }

  /** Below 72 UTF-8 octets, and without U+0000, a digest matches exactly
      the password it was made from. */
  lemma ShortPasswordsAreExact(p: string, q: string, salt: nat)
    requires NoNul(p) && NoNul(q)
    requires |Utf8Encode(p)| < BCRYPT_KEY_OCTETS && |Utf8Encode(q)| < BCRYPT_KEY_OCTETS
    ensures Compare(q, Hash(p, salt)) <==> q == p
  {
    if Compare(q, Hash(p, salt)) {
      var a, b := Utf8Encode(p), Utf8Encode(q);
      Utf8EncodeHasNoZero(p);
      Utf8EncodeHasNoZero(q);
      TerminatedKeysAgree(a, b, BcryptKey(p));
      Utf8EncodeInjective(p, q);
    }
  }

  /** Two zero-free octet strings whose zero-terminated forms both begin the
      same key are equal: the shorter one's zero would face a non-zero octet
      of the longer. */
  lemma TerminatedKeysAgree(a: seq<Byte>, b: seq<Byte>, key: seq<Byte>)
    requires forall i :: 0 <= i < |a| ==> a[i] != 0
    requires forall i :: 0 <= i < |b| ==> b[i] != 0
    requires |a| < |key| && |b| < |key|
    requires key[..|a| + 1] == a + [0] && key[..|b| + 1] == b + [0]
    ensures a == b
  {
    NotLongerThanTerminated(a, b, key);
    NotLongerThanTerminated(b, a, key);
    assert a == (a + [0])[..|a|];
    assert b == (b + [0])[..|b|];
  }

  /** Where the zero of `a`'s terminated form sits, `b` has no octet left. */
  lemma NotLongerThanTerminated(a: seq<Byte>, b: seq<Byte>, key: seq<Byte>)
    requires forall i :: 0 <= i < |b| ==> b[i] != 0
    requires |a| < |key| && |b| < |key|
    requires key[..|a| + 1] == a + [0] && key[..|b| + 1] == b + [0]
    ensures |b| <= |a|
  {
    if |a| < |b| {
      OctetOfPrefix(key, b + [0], |a|);
    }
  }

  lemma OctetOfPrefix(key: seq<Byte>, prefix: seq<Byte>, i: nat)
    requires i < |prefix| <= |key| && key[..|prefix|] == prefix
    ensures key[i] == prefix[i]
  {
    assert key[..|prefix|][i] == key[i];
  }

  /** One account document. Absent optional fields are `None`. */
  datatype User = User(
    id: Id,
    name: string,
    email: Option<string>,
    password: Option<Digest>,
    avatar: Option<string>,
    googleId: Option<string>,
    isEmailVerified: bool,
    emailVerificationToken: Option<string>,
    emailVerificationExpires: Option<Millis>,
    resetPasswordToken: Option<string>,
    resetPasswordExpires: Option<Millis>)

  type Store = seq<User>

  /** The filters the handlers pass to `findOne`/`findById`. */
  datatype Query =
    | ById(id: Id)
    | ByEmail(email: string)
    | ByGoogleId(googleId: string)
      /** `{ resetPasswordToken: token, resetPasswordExpires: { $gt: now } }`;
          a document without an expiry never satisfies `$gt`. */
    | ByLiveResetToken(token: string, now: Millis)

  predicate Matches(u: User, q: Query) {
    match q
    case ById(id) => u.id == id
    case ByEmail(e) => u.email == Some(e)
    case ByGoogleId(g) => u.googleId == Some(g)
    case ByLiveResetToken(t, now) =>
      u.resetPasswordToken == Some(t) && u.resetPasswordExpires.Some? && u.resetPasswordExpires.value > now
  }

  /** The position of the first document matching `q`, if any. */
  function FindOne(s: Store, q: Query): (r: Option<nat>)
    ensures r.Some? ==> r.value < |s| && Matches(s[r.value], q)
    ensures r.Some? ==> forall j :: 0 <= j < r.value ==> !Matches(s[j], q)
    ensures r.None? <==> forall j :: 0 <= j < |s| ==> !Matches(s[j], q)
  {
    if s == [] then None
    else if Matches(s[0], q) then Some(0)
    else
      match FindOne(s[1..], q)
      case None => None
      case Some(i) => Some(i + 1)
  }

  /** A handler's effect: the store after the call, and what it answered. */
  datatype Step<O> = Step(store: Store, outcome: O)

  /** `user.save()` on the document at position `i`. `fault` is the error the
      database raises for this request, if it raises one; then nothing is
      written. */
  function Update(s: Store, i: nat, u: User, fault: Option<string>): (r: Result<Store, string>)
    requires i < |s|
    ensures r.Success? <==> fault.None?
    ensures r.Success? ==> r.value == s[i := u]
    ensures r.Failure? ==> r.error == fault.value
  {
    match fault
    case Some(message) => Failure(message)
    case None => Success(s[i := u])
  }

  /** `new User(u).save()`: fails with the database's `fault`, or with a
      duplicate-key error when a document with the same id exists; otherwise
      the document is appended. */
  function Insert(s: Store, u: User, fault: Option<string>): (r: Result<Store, string>)
    ensures r.Success? <==> fault.None? && forall j :: 0 <= j < |s| ==> s[j].id != u.id
    ensures r.Success? ==> r.value == s + [u]
  {
    if fault.Some? then Failure(fault.value)
    else
      match FindOne(s, ById(u.id))
      case Some(_) => Failure("duplicate key")
      case None => Success(s + [u])
  }

  // ---------------------------------------------------------------------------
  // Store invariants
  // ---------------------------------------------------------------------------

  /** The database's own guarantee: `_id` is unique. */
  predicate IdsDistinct(s: Store) {
    forall i, j :: 0 <= i < j < |s| ==> s[i].id != s[j].id
  }

  /** The uniqueness the email index demands of the documents that have one. */
  predicate EmailsDistinct(s: Store) {
    forall i, j :: 0 <= i < j < |s| && s[i].email.Some? ==> s[i].email != s[j].email
  }

  predicate WellFormed(s: Store) {
    IdsDistinct(s) && EmailsDistinct(s)
  }

  /** A query by id in a store with distinct ids finds exactly the document
      with that id. */
  lemma FindByIdExact(s: Store, i: nat)
    requires IdsDistinct(s)
    requires i < |s|
    ensures FindOne(s, ById(s[i].id)) == Some(i)
  {
  }

  /** In a well-formed store a query by email finds the only holder of it. */
  lemma FindByEmailExact(s: Store, i: nat)
    requires EmailsDistinct(s)
    requires i < |s| && s[i].email.Some?
    ensures FindOne(s, ByEmail(s[i].email.value)) == Some(i)
  {
  }

  /** Appending a document whose id and email no document has keeps the
      store well formed. */
  lemma AppendKeepsWellFormed(s: Store, u: User)
    requires WellFormed(s)
    requires forall j :: 0 <= j < |s| ==> s[j].id != u.id
    requires forall j :: 0 <= j < |s| ==> s[j].email != u.email
    ensures WellFormed(s + [u])
  {
  }

  /** A store whose documents keep their ids and emails position by position
      stays well formed. */
  lemma SameKeysKeepWellFormed(s: Store, t: Store)
    requires WellFormed(s)
    requires |t| == |s|
    requires forall j :: 0 <= j < |s| ==> t[j].id == s[j].id && t[j].email == s[j].email
    ensures WellFormed(t)
  {
  }

  /** Replacing a document by one with the same id and email keeps the store
      well formed. */
  lemma ReplaceKeepsWellFormed(s: Store, i: nat, u: User)
    requires WellFormed(s)
    requires i < |s| && u.id == s[i].id && u.email == s[i].email
    ensures WellFormed(s[i := u])
  {
  }
}
