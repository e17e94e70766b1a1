/**
  The cleanup service: the purge of stale unverified accounts, the sweep of
  expired verification codes, and the user statistics. The methods walk the
  selected accounts one by one as the service does; the functions `Purged` and
  `Swept` are the reference definitions of the resulting store.
 */
module UserCleanup {
  import opened Wrappers
  import opened UserEntity

  const SECONDS_PER_DAY := 86400

  /** The purge cutoff: `now` minus `daysOld` whole days of 86400 seconds. */
  function Cutoff(now: Timestamp, daysOld: int): Timestamp {
    now - daysOld * SECONDS_PER_DAY
  }

  // ---------------------------------------------------------------------------
  // Purge of unverified accounts
  // ---------------------------------------------------------------------------

  /** Unverified (false or NULL) and created strictly before the cutoff; a NULL creation date never qualifies. */
  predicate IsPurgeCandidate(u: User, cutoff: Timestamp) {
    !u.isVerified && u.createdAt.Some? && u.createdAt.value < cutoff
  }

  function PurgeSelection(store: Store, cutoff: Timestamp): set<string> {
    set e | e in store && IsPurgeCandidate(store[e], cutoff)
  }

  /** The store once the purge has removed its selection. */
  function Purged(store: Store, cutoff: Timestamp): (r: Store)
    ensures r.Keys == store.Keys - PurgeSelection(store, cutoff)
    ensures forall e :: e in r ==> r[e] == store[e]
  {
    map e | e in store && !IsPurgeCandidate(store[e], cutoff) :: store[e]
  }

  /** One entry of `deleted_users`; `name` is first and last name joined by a space, a NULL name reading as "". */
  datatype UserInfo = UserInfo(id: Option<int>, email: string, name: string, createdAt: Timestamp)

  function InfoOf(u: User): UserInfo
    requires u.createdAt.Some?
  {
    UserInfo(u.id, u.email, u.firstName.GetOr("") + " " + u.lastName.GetOr(""), u.createdAt.value)
  }

  datatype PurgeReport = PurgeReport(foundCount: nat, deletedCount: nat, deletedUsers: seq<UserInfo>, dryRun: bool)

  function Emails(infos: seq<UserInfo>): set<string> {
    set i | 0 <= i < |infos| :: infos[i].email
  }

  /** Each entry describes the account filed under its email. */
  ghost predicate DescribesAccounts(infos: seq<UserInfo>, store: Store) {
    forall i :: 0 <= i < |infos| ==>
      infos[i].email in store && store[infos[i].email].createdAt.Some? && infos[i] == InfoOf(store[infos[i].email])
  }

  lemma AppendUserInfo(infos: seq<UserInfo>, store: Store, e: string)
    requires DescribesAccounts(infos, store)
    requires e in store && store[e].createdAt.Some? && store[e].email == e
    ensures DescribesAccounts(infos + [InfoOf(store[e])], store)
    ensures Emails(infos + [InfoOf(store[e])]) == Emails(infos) + {e}
  {
    var infos' := infos + [InfoOf(store[e])];
    assert forall i :: 0 <= i < |infos| ==> infos'[i] == infos[i];
    assert infos'[|infos|] == InfoOf(store[e]);
  }

  lemma RemoveOneMore(store: Store, done: set<string>, e: string)
    ensures (store - done) - {e} == store - (done + {e})
  {
  }

  lemma PurgedIsRemoval(store: Store, cutoff: Timestamp)
    ensures Purged(store, cutoff) == store - PurgeSelection(store, cutoff)
  {
  }

  /**
    `cleanupUnverifiedUsers(daysOld, dryRun)`. Every selected account is listed in
    `deleted_users`; a real run removes exactly those accounts and counts them, a dry
    run removes nothing and reports `deleted_count` 0.
   */
  method CleanupUnverifiedUsers(store: Store, now: Timestamp, daysOld: int, dryRun: bool)
    returns (store': Store, report: PurgeReport)
    requires WellFormed(store)
    ensures report.foundCount == |PurgeSelection(store, Cutoff(now, daysOld))|
    ensures report.dryRun == dryRun
    ensures report.deletedCount == if dryRun then 0 else report.foundCount
    ensures |report.deletedUsers| == report.foundCount
    ensures Emails(report.deletedUsers) == PurgeSelection(store, Cutoff(now, daysOld))
    ensures DescribesAccounts(report.deletedUsers, store)
    ensures store' == if dryRun then store else Purged(store, Cutoff(now, daysOld))
  {
    var cutoff := Cutoff(now, daysOld);
    var selection := PurgeSelection(store, cutoff);
    PurgedIsRemoval(store, cutoff);
    if selection == {} {
      return store, PurgeReport(0, 0, [], dryRun);
    }
    var infos: seq<UserInfo> := [];
    var deleted: nat := 0;
    var pending := selection;
    store' := store;
    while pending != {}
      invariant pending <= selection
      invariant |infos| + |pending| == |selection|
      invariant Emails(infos) == selection - pending
      invariant DescribesAccounts(infos, store)
      invariant deleted == if dryRun then 0 else |infos|
      invariant store' == if dryRun then store else store - (selection - pending)
      decreases pending
    {
      var e :| e in pending;
      assert e in store && IsPurgeCandidate(store[e], cutoff);
      AppendUserInfo(infos, store, e);
      infos := infos + [InfoOf(store[e])];
      if !dryRun {
        RemoveOneMore(store, selection - pending, e);
        store' := store' - {e};
        deleted := deleted + 1;
      }
      assert selection - (pending - {e}) == (selection - pending) + {e};
      pending := pending - {e};
    }
    report := PurgeReport(|selection|, deleted, infos, dryRun);
  }

  // ---------------------------------------------------------------------------
  // Sweep of expired verification codes
  // ---------------------------------------------------------------------------

  /** Unverified, with a non-null expiry strictly before `now`. */
  predicate IsSweepCandidate(u: User, now: Timestamp) {
    IsVerificationCodeExpired(u, now) && !u.isVerified
  }

  function SweepSelection(store: Store, now: Timestamp): set<string> {
    set e | e in store && IsSweepCandidate(store[e], now)
  }

  function ClearCode(u: User): (r: User)
    ensures r.verificationCode == None && r.verificationCodeExpiresAt == None
    ensures SameProfile(u, r) && r.isVerified == u.isVerified
  {
    u.(verificationCode := None, verificationCodeExpiresAt := None)
  }

  /** The store once the sweep has cleared the code of every selected account. */
  function Swept(store: Store, now: Timestamp): (r: Store)
    ensures r.Keys == store.Keys
    ensures forall e :: e in r ==> SameProfile(store[e], r[e]) && r[e].isVerified == store[e].isVerified
    ensures forall e :: e in r && IsSweepCandidate(store[e], now) ==>
              r[e].verificationCode == None && r[e].verificationCodeExpiresAt == None
    ensures forall e :: e in r && !IsSweepCandidate(store[e], now) ==> r[e] == store[e]
  {
    map e | e in store :: if IsSweepCandidate(store[e], now) then ClearCode(store[e]) else store[e]
  }

  /** One entry of `cleaned_users`. */
  datatype CodeInfo = CodeInfo(id: Option<int>, email: string, expiredAt: Timestamp)

  function CodeInfoOf(u: User): CodeInfo
    requires u.verificationCodeExpiresAt.Some?
  {
    CodeInfo(u.id, u.email, u.verificationCodeExpiresAt.value)
  }

  datatype SweepReport = SweepReport(foundCount: nat, cleanedCount: nat, cleanedUsers: seq<CodeInfo>)

  function CodeEmails(infos: seq<CodeInfo>): set<string> {
    set i | 0 <= i < |infos| :: infos[i].email
  }

  /** The store with the codes of the accounts in `done` cleared. */
  function ClearAll(store: Store, done: set<string>): (r: Store)
    ensures r.Keys == store.Keys
  {
    map e | e in store :: if e in done then ClearCode(store[e]) else store[e]
  }

  lemma ClearOneMore(store: Store, done: set<string>, e: string)
    requires e in store && e !in done
    ensures ClearAll(store, done)[e := ClearCode(ClearAll(store, done)[e])] == ClearAll(store, done + {e})
  {
  }

  lemma SweptIsClearAll(store: Store, now: Timestamp)
    ensures Swept(store, now) == ClearAll(store, SweepSelection(store, now))
  {
  }

  lemma AppendCodeInfo(infos: seq<CodeInfo>, info: CodeInfo)
    ensures CodeEmails(infos + [info]) == CodeEmails(infos) + {info.email}
  {
    var infos' := infos + [info];
    assert forall i :: 0 <= i < |infos| ==> infos'[i] == infos[i];
    assert infos'[|infos|] == info;
  }

  /**
    `cleanupExpiredVerificationCodes`: clears code and expiry of every selected account,
    leaves every other field and every other account alone, and cleans as many as it found.
   */
  method CleanupExpiredVerificationCodes(store: Store, now: Timestamp) returns (store': Store, report: SweepReport)
    requires WellFormed(store)
    ensures report.foundCount == |SweepSelection(store, now)|
    ensures report.cleanedCount == report.foundCount == |report.cleanedUsers|
    ensures CodeEmails(report.cleanedUsers) == SweepSelection(store, now)
    ensures store' == Swept(store, now)
  {
    var selection := SweepSelection(store, now);
    var infos: seq<CodeInfo> := [];
    var pending := selection;
    store' := store;
    assert store == ClearAll(store, {});
    while pending != {}
      invariant pending <= selection
      invariant |infos| + |pending| == |selection|
      invariant CodeEmails(infos) == selection - pending
      invariant store' == ClearAll(store, selection - pending)
      decreases pending
    {
      var e :| e in pending;
      assert e in store && IsSweepCandidate(store[e], now);
      AppendCodeInfo(infos, CodeInfoOf(store[e]));
      infos := infos + [CodeInfoOf(store[e])];
      ClearOneMore(store, selection - pending, e);
      store' := store'[e := ClearCode(store'[e])];
      assert selection - (pending - {e}) == (selection - pending) + {e};
      pending := pending - {e};
    }
    SweptIsClearAll(store, now);
    report := SweepReport(|selection|, |infos|, infos);
  }

  /** A second sweep at the same instant finds nothing. */
  lemma SweepIsIdempotent(store: Store, now: Timestamp)
    ensures SweepSelection(Swept(store, now), now) == {}
    ensures Swept(Swept(store, now), now) == Swept(store, now)
  {
    var s := Swept(store, now);
    assert forall e :: e in s ==> !IsSweepCandidate(s[e], now);
  }

  /** After a real purge no account qualifies for the same purge again. */
  lemma PurgeIsIdempotent(store: Store, cutoff: Timestamp)
    ensures PurgeSelection(Purged(store, cutoff), cutoff) == {}
    ensures Purged(Purged(store, cutoff), cutoff) == Purged(store, cutoff)
  {
  }

  /** Verified accounts, and accounts created at or after the cutoff, survive the purge. */
  lemma PurgeSparesVerifiedAndRecent(store: Store, cutoff: Timestamp, e: string)
    requires e in store
    requires store[e].isVerified || store[e].createdAt.None? || store[e].createdAt.value >= cutoff
    ensures e in Purged(store, cutoff) && Purged(store, cutoff)[e] == store[e]
  {
  }

  /** The sweep touches neither verification flags nor creation dates, so it never changes what the purge selects. */
  lemma SweepKeepsPurgeSelection(store: Store, now: Timestamp, cutoff: Timestamp)
    ensures PurgeSelection(Swept(store, now), cutoff) == PurgeSelection(store, cutoff)
  {
  }

  lemma SweepKeepsWellFormed(store: Store, now: Timestamp)
    requires WellFormed(store)
    ensures WellFormed(Swept(store, now))
  {
  }

  /** The sweep and the purge keep every account filed under its email and every code paired with an expiry. */
  lemma CleanupPreservesInvariants(store: Store, now: Timestamp, cutoff: Timestamp)
    requires WellFormed(store) && AllCodeStatesConsistent(store)
    ensures WellFormed(Swept(store, now)) && AllCodeStatesConsistent(Swept(store, now))
    ensures WellFormed(Purged(store, cutoff)) && AllCodeStatesConsistent(Purged(store, cutoff))
  {
  }

  // ---------------------------------------------------------------------------
  // Statistics
  // ---------------------------------------------------------------------------

  /**
    The integer part of `getUserStatistics`, plus the verification rate as an exact
    percentage (the source rounds it to two decimals).
   */
  datatype Statistics = Statistics(
    totalUsers: nat,
    verifiedUsers: nat,
    unverifiedUsers: nat,
    usersWithExpiredCodes: nat,
    verificationRate: real)

  function VerifiedEmails(store: Store): set<string> {
    set e | e in store && store[e].isVerified
  }

  function UnverifiedEmails(store: Store): set<string> {
    set e | e in store && !store[e].isVerified
  }

  /** Accounts whose code has expired, whatever their verification status. */
  function ExpiredCodeEmails(store: Store, now: Timestamp): set<string> {
    set e | e in store && IsVerificationCodeExpired(store[e], now)
  }

  /**
    `getUserStatistics`: the total, the verified accounts (true) and the unverified ones
    (false or NULL, which partition the store with them), the accounts whose code has
    expired, verified or not, and the share of verified accounts as a percentage.
   */
  function GetUserStatistics(store: Store, now: Timestamp): (s: Statistics)
    ensures s.totalUsers == |store|
    ensures s.verifiedUsers == |VerifiedEmails(store)| && s.unverifiedUsers == |UnverifiedEmails(store)|
    ensures s.usersWithExpiredCodes == |ExpiredCodeEmails(store, now)|
    ensures s.totalUsers == s.verifiedUsers + s.unverifiedUsers
    ensures s.totalUsers == 0 ==> s.verificationRate == 0.0
    ensures s.totalUsers > 0 ==> s.verificationRate == (s.verifiedUsers as real / s.totalUsers as real) * 100.0
    ensures 0.0 <= s.verificationRate <= 100.0
    ensures s.verificationRate == 100.0 <==> s.totalUsers > 0 && s.unverifiedUsers == 0
    ensures |SweepSelection(store, now)| <= s.usersWithExpiredCodes
  {
    var verified := VerifiedEmails(store);
    var unverified := UnverifiedEmails(store);
    assert verified + unverified == store.Keys && verified * unverified == {};
    assert SweepSelection(store, now) <= ExpiredCodeEmails(store, now);
    SubsetCardinality(SweepSelection(store, now), ExpiredCodeEmails(store, now));
    var total := |store|;
    var rate := if total > 0 then (|verified| as real / total as real) * 100.0 else 0.0;
    Statistics(total, |verified|, |unverified|, |ExpiredCodeEmails(store, now)|, rate)
  }

  /** Verified accounts whose code has expired: counted by the statistics, never cleaned by the sweep. */
  function VerifiedExpiredEmails(store: Store, now: Timestamp): set<string> {
    set e | e in store && store[e].isVerified && IsVerificationCodeExpired(store[e], now)
  }

  /**
    Unlike the sweep, the statistics count expired codes of verified accounts too: the
    count is the sweep's selection plus those accounts, and such an account is left
    untouched by the sweep.
   */
  lemma ExpiredCountExceedsSweep(store: Store, now: Timestamp)
    ensures GetUserStatistics(store, now).usersWithExpiredCodes
            == |SweepSelection(store, now)| + |VerifiedExpiredEmails(store, now)|
    ensures forall e :: e in VerifiedExpiredEmails(store, now) ==>
              e !in SweepSelection(store, now) && Swept(store, now)[e] == store[e]
  {
    var sweep, kept := SweepSelection(store, now), VerifiedExpiredEmails(store, now);
    assert ExpiredCodeEmails(store, now) == sweep + kept;
    assert sweep * kept == {};
  }

  /**
    After a sweep the statistics keep their total, verified and unverified counts and
    their rate; the expired-code count drops by exactly the accounts swept.
   */
  lemma SweepEffectOnStatistics(store: Store, now: Timestamp)
    ensures var before, after := GetUserStatistics(store, now), GetUserStatistics(Swept(store, now), now);
            && after.totalUsers == before.totalUsers
            && after.verifiedUsers == before.verifiedUsers && after.unverifiedUsers == before.unverifiedUsers
            && after.verificationRate == before.verificationRate
            && after.usersWithExpiredCodes + |SweepSelection(store, now)| == before.usersWithExpiredCodes
  {
    var swept := Swept(store, now);
    assert VerifiedEmails(swept) == VerifiedEmails(store);
    assert UnverifiedEmails(swept) == UnverifiedEmails(store);
    var sweep := SweepSelection(store, now);
    assert ExpiredCodeEmails(swept, now) == ExpiredCodeEmails(store, now) - sweep;
    assert ExpiredCodeEmails(store, now) == ExpiredCodeEmails(swept, now) + sweep;
    assert ExpiredCodeEmails(swept, now) * sweep == {};
  }

  lemma SubsetCardinality(a: set<string>, b: set<string>)
    requires a <= b
    ensures |a| <= |b|
  {
    assert b == a + (b - a);
  }
}
