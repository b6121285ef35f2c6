/**
 * The user collection as the authentication controller sees it: one record per
 * registered user, queried with `findOne`, which yields the first record (in
 * collection order) that matches a filter.
 */
module Users {
  import opened Wrappers

  /** What the store keeps in place of a password: the output of the one-way hash. */
  type Digest = string

  /** The genders a profile may carry (`UserGenderEnum`). */
  datatype Gender = Male | Female | Other

  /**
   * A stored user document. Its identity (`_id`) is its position in the table.
   * `password` holds the hashed password; the three token fields are unset
   * while no verification or reset is outstanding.
   */
  datatype User = User(
    name: string,
    email: string,
    username: string,
    password: Digest,
    avatar: string,
    gender: Option<Gender>,
    isVerified: bool,
    verificationToken: Option<string>,
    resetToken: Option<string>,
    resetTokenExpiration: Option<int>)

  /**
   * The filters the controller hands to `findOne`. A filter value that the
   * request did not supply is `None` and matches no record.
   */
  datatype Query =
    | ByUsernameOrEmail(username: Option<string>, email: Option<string>)
    | ByEmail(email: Option<string>)
    | ByUsername(username: Option<string>)
    | ByVerificationToken(token: string)
    | ByResetToken(token: string)

  predicate Matches(u: User, q: Query) {
    match q
    case ByUsernameOrEmail(username, email) => username == Some(u.username) || email == Some(u.email)
    case ByEmail(email) => email == Some(u.email)
    case ByUsername(username) => username == Some(u.username)
    case ByVerificationToken(token) => u.verificationToken == Some(token)
    case ByResetToken(token) => u.resetToken == Some(token)
  }

  /** `findOne(q)`: the position of the first record matching `q`, if any. */
  function FindOne(users: seq<User>, q: Query): (r: Option<nat>)
    ensures r.Some? ==> r.value < |users| && Matches(users[r.value], q)
    ensures r.Some? ==> forall j :: 0 <= j < r.value ==> !Matches(users[j], q)
    ensures r.None? <==> forall j :: 0 <= j < |users| ==> !Matches(users[j], q)
    decreases |users|
  {
    if |users| == 0 then None
    else if Matches(users[0], q) then Some(0)
    else match FindOne(users[1..], q)
      case None => None
      case Some(k) => Some(k + 1)
  }

  /** Record `i` is the one `findOne(q)` returns: it matches and no earlier record does. */
  predicate IsFirstMatch(users: seq<User>, q: Query, i: nat) {
    i < |users| && Matches(users[i], q) && forall j :: 0 <= j < i ==> !Matches(users[j], q)
  }

  lemma FindOneIsFirstMatch(users: seq<User>, q: Query, i: nat)
    ensures FindOne(users, q) == Some(i) <==> IsFirstMatch(users, q, i)
  {
  }

  /** `after` differs from `before` at most in record `i`. */
  predicate OnlyAt(before: seq<User>, after: seq<User>, i: nat) {
    |after| == |before| && forall j :: 0 <= j < |before| && j != i ==> after[j] == before[j]
  }

  /** No two users share a username, and no two users share an email. */
  predicate UniqueIdentities(users: seq<User>) {
    forall i, j :: 0 <= i < j < |users| ==>
      users[i].username != users[j].username && users[i].email != users[j].email
  }

  /** A reset token is stored exactly when its expiration is stored. */
  predicate ResetPairsConsistent(users: seq<User>) {
    forall i :: 0 <= i < |users| ==>
      (users[i].resetToken.Some? <==> users[i].resetTokenExpiration.Some?)
  }

  /** The invariant every handler keeps. */
  predicate WellFormed(users: seq<User>) {
    UniqueIdentities(users) && ResetPairsConsistent(users)
  }

  /** At most one user holds `token` as a pending reset token. */
  predicate ResetTokenHeldOnce(users: seq<User>, token: string) {
    forall i, j ::
      (0 <= i < |users| && 0 <= j < |users| &&
       users[i].resetToken == Some(token) && users[j].resetToken == Some(token)) ==> i == j
  }

  /** At most one user holds `token` as a pending verification token. */
  predicate VerificationTokenHeldOnce(users: seq<User>, token: string) {
    forall i, j ::
      (0 <= i < |users| && 0 <= j < |users| &&
       users[i].verificationToken == Some(token) && users[j].verificationToken == Some(token)) ==> i == j
  }

  /** Under unique identities, a lookup by a user's username or email finds that user. */
  lemma FindByIdentityUnique(users: seq<User>, i: nat)
    requires UniqueIdentities(users) && i < |users|
    ensures FindOne(users, ByUsername(Some(users[i].username))) == Some(i)
    ensures FindOne(users, ByEmail(Some(users[i].email))) == Some(i)
    ensures FindOne(users, ByUsernameOrEmail(Some(users[i].username), None)) == Some(i)
    ensures FindOne(users, ByUsernameOrEmail(None, Some(users[i].email))) == Some(i)
  {
    assert Matches(users[i], ByUsername(Some(users[i].username)));
    assert Matches(users[i], ByEmail(Some(users[i].email)));
    assert Matches(users[i], ByUsernameOrEmail(Some(users[i].username), None));
    assert Matches(users[i], ByUsernameOrEmail(None, Some(users[i].email)));
  }
}
