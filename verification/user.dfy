/**
  The `User` entity as its unit test describes it, and the user store.
  Timestamps are abstract integers counting seconds.
 */
module UserEntity {
  import opened Wrappers
  import opened PhpText

  type Timestamp = int

  const ROLE_USER := "ROLE_USER"

  datatype User = User(
    id: Option<int>,
    email: string,
    password: Option<string>,
    firstName: Option<string>,
    lastName: Option<string>,
    roles: seq<string>,
    createdAt: Option<Timestamp>,
    lastLoginAt: Option<Timestamp>,
    isVerified: bool,
    verificationCode: Option<string>,
    verificationCodeExpiresAt: Option<Timestamp>)

  /**
    The user store: accounts indexed by their (unique) email.
    The email column carries a unique constraint, so a map models it.
   */
  type Store = map<string, User>

  /** Every account is filed under its own email. */
  ghost predicate WellFormed(store: Store) {
    forall e :: e in store ==> store[e].email == e
  }

  /** A pending code always comes with its expiry. */
  predicate CodeStateConsistent(u: User) {
    u.verificationCode.Some? ==> u.verificationCodeExpiresAt.Some?
  }

  ghost predicate AllCodeStatesConsistent(store: Store) {
    forall e :: e in store ==> CodeStateConsistent(store[e])
  }

  /** Two records of one account that agree on everything but the verification state. */
  predicate SameProfile(u: User, v: User) {
    u.(isVerified := v.isVerified, verificationCode := v.verificationCode,
       verificationCodeExpiresAt := v.verificationCodeExpiresAt) == v
  }

  // ---------------------------------------------------------------------------
  // Roles
  // ---------------------------------------------------------------------------

  predicate NoDuplicates(s: seq<string>) {
    forall i, j :: 0 <= i < j < |s| ==> s[i] != s[j]
  }

  /** The position of the first occurrence of `x` in `s`. */
  function FirstIndex(s: seq<string>, x: string): (k: nat)
    requires x in s
    ensures k < |s| && s[k] == x && x !in s[..k]
  {
    if s[0] == x then 0 else 1 + FirstIndex(s[1..], x)
  }

  /** Two first-occurrence positions of the same element coincide. */
  lemma FirstIndexUnique(s: seq<string>, x: string, k: nat)
    requires k < |s| && s[k] == x && x !in s[..k]
    ensures FirstIndex(s, x) == k
  {
    var f := FirstIndex(s, x);
    assert x !in s[..f];
  }

  /** Appending an element leaves the first occurrences of the earlier elements where they were. */
  lemma FirstIndexAppend(s: seq<string>, y: string, x: string)
    requires x in s
    ensures FirstIndex(s + [y], x) == FirstIndex(s, x)
  {
    var k := FirstIndex(s, x);
    assert (s + [y])[..k] == s[..k];
    FirstIndexUnique(s + [y], x, k);
  }

  /** `array_unique`: keeps the first occurrence of each element, in order. */
  function Dedup(s: seq<string>): (r: seq<string>)
    ensures NoDuplicates(r)
    ensures forall x :: x in r <==> x in s
  {
    if s == [] then []
    else
      var d := Dedup(s[..|s| - 1]);
      if s[|s| - 1] in d then d else d + [s[|s| - 1]]
  }

  /** The kept elements come in the order of their first occurrences in the input. */
  lemma {:induction false} DedupKeepsFirstOccurrenceOrder(s: seq<string>)
    ensures forall i, j :: 0 <= i < j < |Dedup(s)| ==> FirstIndex(s, Dedup(s)[i]) < FirstIndex(s, Dedup(s)[j])
  {
    if s != [] {
      var p := s[..|s| - 1];
      var y := s[|s| - 1];
      assert s == p + [y];
      DedupKeepsFirstOccurrenceOrder(p);
      var d := Dedup(p);
      forall x | x in p
        ensures FirstIndex(s, x) == FirstIndex(p, x)
      {
        FirstIndexAppend(p, y, x);
      }
      if y !in d {
        assert FirstIndex(s, y) == |p| by {
          FirstIndexUnique(s, y, |p|);
        }
        var r := d + [y];
        forall i, j | 0 <= i < j < |r|
          ensures FirstIndex(s, r[i]) < FirstIndex(s, r[j])
        {
          assert r[i] == d[i] && d[i] in p;
          if j < |d| {
            assert r[j] == d[j] && d[j] in p;
            assert FirstIndex(p, d[i]) < FirstIndex(p, d[j]);
          } else {
            assert r[j] == y && FirstIndex(p, d[i]) < |p|;
          }
        }
      }
    }
  }

  lemma {:induction false} DedupOfDistinct(s: seq<string>)
    requires NoDuplicates(s)
    ensures Dedup(s) == s
  {
    if s != [] {
      DedupOfDistinct(s[..|s| - 1]);
      assert s == s[..|s| - 1] + [s[|s| - 1]];
    }
  }

  /** `getRoles`: the stored roles plus ROLE_USER, each once. */
  function GetRoles(u: User): (r: seq<string>)
    ensures ROLE_USER in r
    ensures NoDuplicates(r)
    ensures forall x :: x in r <==> x in u.roles || x == ROLE_USER
  {
    Dedup(u.roles + [ROLE_USER])
  }

  /** Roles that already hold ROLE_USER once are returned as stored. */
  lemma {:induction false} GetRolesKeepsStoredRoles(u: User)
    requires NoDuplicates(u.roles) && ROLE_USER in u.roles
    ensures GetRoles(u) == u.roles
  {
    var s := u.roles + [ROLE_USER];
    assert s[..|s| - 1] == u.roles;
    DedupOfDistinct(u.roles);
  }

  /** A fresh account: no id, unverified, and its only role is ROLE_USER. */
  function NewUser(): (u: User)
    ensures u.id == None && !u.isVerified
    ensures GetRoles(u) == [ROLE_USER]
    ensures u.verificationCode == None && u.verificationCodeExpiresAt == None
  {
    var u := User(None, "", None, None, None, [], None, None, false, None, None);
    assert u.roles + [ROLE_USER] == [ROLE_USER];
    assert [ROLE_USER][..0] == [];
    assert Dedup([]) == [];
    assert Dedup([ROLE_USER]) == [ROLE_USER];
    u
  }

  /** `setRoles(['ROLE_USER', 'ROLE_ADMIN'])` reads back unchanged; `setRoles(['ROLE_ADMIN'])` gains ROLE_USER. */
  lemma RolesExamples(u: User)
    ensures GetRoles(SetRoles(u, [ROLE_USER, "ROLE_ADMIN"])) == [ROLE_USER, "ROLE_ADMIN"]
    ensures ROLE_USER in GetRoles(SetRoles(u, ["ROLE_ADMIN"]))
  {
    GetRolesKeepsStoredRoles(SetRoles(u, [ROLE_USER, "ROLE_ADMIN"]));
  }

  // ---------------------------------------------------------------------------
  // Derived values
  // ---------------------------------------------------------------------------

  /** The security identifier of an account is its email. */
  function UserIdentifier(u: User): string {
    u.email
  }

  /** In a well-formed store the identifier of any account finds that account again. */
  lemma IdentifierFindsAccount(store: Store, e: string)
    requires WellFormed(store) && e in store
    ensures UserIdentifier(store[e]) == e && store[UserIdentifier(store[e])] == store[e]
  {
  }

  /** `getFullName`: both names separated by a space, or whichever one is set, or "". */
  function FullName(u: User): string {
    match (u.firstName, u.lastName)
    case (Some(f), Some(l)) => f + " " + l
    case (Some(f), None) => f
    case (None, Some(l)) => l
    case (None, None) => ""
  }

  /** The names that are set, first name first. */
  function SetNames(u: User): (names: seq<string>)
    ensures |names| <= 2
  {
    (if u.firstName.Some? then [u.firstName.value] else []) + (if u.lastName.Some? then [u.lastName.value] else [])
  }

  /** The full name is the set names joined with one space, as `implode(' ', array_filter(...))` would give. */
  lemma FullNameJoinsSetNames(u: User)
    ensures FullName(u) == Join(SetNames(u), ' ')
  {
    var names := SetNames(u);
    if |names| == 2 {
      assert names[1..] == [u.lastName.value];
      assert Join(names, ' ') == names[0] + [' '] + Join(names[1..], ' ');
    }
  }

  /** The unit test's names: "John Doe", then "John", "Doe" and "" as names are dropped. */
  lemma FullNameExamples(u: User)
    ensures FullName(u.(firstName := Some("John"), lastName := Some("Doe"))) == "John Doe"
    ensures FullName(u.(firstName := Some("John"), lastName := None)) == "John"
    ensures FullName(u.(firstName := None, lastName := Some("Doe"))) == "Doe"
    ensures FullName(u.(firstName := None, lastName := None)) == ""
  {
  }

  /**
    `isVerificationCodeExpired`: a null expiry never expires; otherwise the code has
    expired once `now` is past the expiry. The instant `now == expiry` is taken as not expired.
   */
  predicate IsVerificationCodeExpired(u: User, now: Timestamp) {
    u.verificationCodeExpiresAt.Some? && now > u.verificationCodeExpiresAt.value
  }

  lemma ExpiryExamples(u: User, now: Timestamp)
    ensures !IsVerificationCodeExpired(SetVerificationCodeExpiresAt(u, None), now)
    ensures IsVerificationCodeExpired(SetVerificationCodeExpiresAt(u, Some(now - 600)), now)
    ensures !IsVerificationCodeExpired(SetVerificationCodeExpiresAt(u, Some(now + 600)), now)
  {
  }

  // ---------------------------------------------------------------------------
  // Setters: each writes its own field, and its getter reads the value back
  // ---------------------------------------------------------------------------

  function SetEmail(u: User, email: string): (r: User)
    ensures r.email == email && UserIdentifier(r) == email
    ensures r.(email := u.email) == u
  {
    u.(email := email)
  }

  function SetPassword(u: User, hash: string): (r: User)
    ensures r.password == Some(hash)
    ensures r.(password := u.password) == u
  {
    u.(password := Some(hash))
  }

  function SetRoles(u: User, roles: seq<string>): (r: User)
    ensures r.roles == roles
    ensures r.(roles := u.roles) == u
  {
    u.(roles := roles)
  }

  function SetCreatedAt(u: User, t: Timestamp): (r: User)
    ensures r.createdAt == Some(t)
    ensures r.(createdAt := u.createdAt) == u
  {
    u.(createdAt := Some(t))
  }

  function SetLastLoginAt(u: User, t: Timestamp): (r: User)
    ensures r.lastLoginAt == Some(t)
    ensures r.(lastLoginAt := u.lastLoginAt) == u
  {
    u.(lastLoginAt := Some(t))
  }

  function SetVerificationCode(u: User, code: Option<string>): (r: User)
    ensures r.verificationCode == code
    ensures r.(verificationCode := u.verificationCode) == u
  {
    u.(verificationCode := code)
  }

  function SetVerificationCodeExpiresAt(u: User, t: Option<Timestamp>): (r: User)
    ensures r.verificationCodeExpiresAt == t
    ensures r.(verificationCodeExpiresAt := u.verificationCodeExpiresAt) == u
  {
    u.(verificationCodeExpiresAt := t)
  }

  function SetIsVerified(u: User, verified: bool): (r: User)
    ensures r.isVerified == verified
    ensures r.(isVerified := u.isVerified) == u
  {
    u.(isVerified := verified)
  }
}
