/**
  The scheduled cleanup: the daily and weekly runs chain the cleanup steps inside
  one exception handler, and a report summarises a run. A step that throws is
  given by `Faults`; its message lands in `errors` and the later steps are skipped.
 */
module ScheduledCleanup {
  import opened Wrappers
  import opened UserEntity
  import opened UserCleanup

  /** The daily run purges accounts left unverified for 7 days, the weekly run for 3. */
  const DAILY_DAYS_OLD := 7
  const WEEKLY_DAYS_OLD := 3

  /** The message of the exception each step throws, if it throws; a failing step commits nothing. */
  datatype Faults = Faults(sweep: Option<string>, purge: Option<string>, statistics: Option<string>)

  /** The `$results` array of a run; a step that did not complete leaves its entry null. */
  datatype CleanupRun = CleanupRun(
    startedAt: Timestamp,
    completedAt: Option<Timestamp>,
    expiredCodes: Option<SweepReport>,
    unverifiedUsers: Option<PurgeReport>,
    statistics: Option<Statistics>,
    errors: seq<string>)

  /**
    `runDailyCleanup`: the expired-code sweep, then the purge with daysOld 7 for real.
    An exception in the sweep skips the purge; any exception is recorded, never propagated.
   */
  method RunDailyCleanup(store: Store, now: Timestamp, completedAt: Timestamp, faults: Faults)
    returns (store': Store, run: CleanupRun)
    requires WellFormed(store)
    ensures run.startedAt == now && run.completedAt == Some(completedAt) && run.statistics == None
    ensures |run.errors| <= 1
    ensures faults.sweep.Some? ==>
              store' == store && run.expiredCodes == None && run.unverifiedUsers == None
              && run.errors == [faults.sweep.value]
    ensures faults.sweep.None? ==>
              run.expiredCodes.Some? && run.expiredCodes.value.cleanedCount == |SweepSelection(store, now)|
    ensures faults.sweep.None? && faults.purge.Some? ==>
              store' == Swept(store, now) && run.unverifiedUsers == None && run.errors == [faults.purge.value]
    ensures faults.sweep.None? && faults.purge.None? ==>
              store' == Purged(Swept(store, now), Cutoff(now, DAILY_DAYS_OLD))
              && run.errors == []
              && run.unverifiedUsers.Some? && !run.unverifiedUsers.value.dryRun
              && run.unverifiedUsers.value.deletedCount == |PurgeSelection(store, Cutoff(now, DAILY_DAYS_OLD))|
  {
    run := CleanupRun(now, None, None, None, None, []);
    store' := store;
    if faults.sweep.Some? {
      run := run.(errors := run.errors + [faults.sweep.value]);
    } else {
      var swept, codes := CleanupExpiredVerificationCodes(store, now);
      store' := swept;
      run := run.(expiredCodes := Some(codes));
      if faults.purge.Some? {
        run := run.(errors := run.errors + [faults.purge.value]);
      } else {
        SweepKeepsWellFormed(store, now);
        SweepKeepsPurgeSelection(store, now, Cutoff(now, DAILY_DAYS_OLD));
        var purged, users := CleanupUnverifiedUsers(swept, now, DAILY_DAYS_OLD, false);
        store' := purged;
        run := run.(unverifiedUsers := Some(users));
      }
    }
    run := run.(completedAt := Some(completedAt));
  }

  /**
    `runWeeklyCleanup`: the sweep, the purge with daysOld 3 for real, then the statistics
    of the resulting store, all in one handler.
   */
  method RunWeeklyCleanup(store: Store, now: Timestamp, completedAt: Timestamp, faults: Faults)
    returns (store': Store, run: CleanupRun)
    requires WellFormed(store)
    ensures run.startedAt == now && run.completedAt == Some(completedAt)
    ensures |run.errors| <= 1
    ensures faults.sweep.Some? ==>
              store' == store && run.expiredCodes == None && run.unverifiedUsers == None
              && run.statistics == None && run.errors == [faults.sweep.value]
    ensures faults.sweep.None? && faults.purge.Some? ==>
              store' == Swept(store, now) && run.expiredCodes.Some? && run.unverifiedUsers == None
              && run.statistics == None && run.errors == [faults.purge.value]
    ensures faults.sweep.None? && faults.purge.None? ==>
              store' == Purged(Swept(store, now), Cutoff(now, WEEKLY_DAYS_OLD))
              && run.expiredCodes.Some? && run.unverifiedUsers.Some? && !run.unverifiedUsers.value.dryRun
    ensures faults.sweep.None? && faults.purge.None? && faults.statistics.Some? ==>
              run.statistics == None && run.errors == [faults.statistics.value]
    ensures faults.sweep.None? && faults.purge.None? && faults.statistics.None? ==>
              run.errors == [] && run.statistics == Some(GetUserStatistics(store', now))
              && run.statistics.value.unverifiedUsers + |PurgeSelection(store, Cutoff(now, WEEKLY_DAYS_OLD))|
                 == |UnverifiedEmails(store)|
  {
    run := CleanupRun(now, None, None, None, None, []);
    store' := store;
    if faults.sweep.Some? {
      run := run.(errors := run.errors + [faults.sweep.value]);
    } else {
      var swept, codes := CleanupExpiredVerificationCodes(store, now);
      store' := swept;
      run := run.(expiredCodes := Some(codes));
      if faults.purge.Some? {
        run := run.(errors := run.errors + [faults.purge.value]);
      } else {
        SweepKeepsWellFormed(store, now);
        var purged, users := CleanupUnverifiedUsers(swept, now, WEEKLY_DAYS_OLD, false);
        store' := purged;
        run := run.(unverifiedUsers := Some(users));
        if faults.statistics.Some? {
          run := run.(errors := run.errors + [faults.statistics.value]);
        } else {
          PurgeLeavesUnverified(store, now, Cutoff(now, WEEKLY_DAYS_OLD));
          run := run.(statistics := Some(GetUserStatistics(purged, now)));
        }
      }
    }
    run := run.(completedAt := Some(completedAt));
  }

  /** After sweep and purge, the unverified accounts are the old unverified ones minus those purged. */
  lemma PurgeLeavesUnverified(store: Store, now: Timestamp, cutoff: Timestamp)
    ensures |UnverifiedEmails(Purged(Swept(store, now), cutoff))| + |PurgeSelection(store, cutoff)|
            == |UnverifiedEmails(store)|
  {
    var after := Purged(Swept(store, now), cutoff);
    SweepKeepsPurgeSelection(store, now, cutoff);
    assert UnverifiedEmails(after) == UnverifiedEmails(store) - PurgeSelection(store, cutoff);
    assert PurgeSelection(store, cutoff) <= UnverifiedEmails(store);
    assert UnverifiedEmails(store) == UnverifiedEmails(after) + PurgeSelection(store, cutoff);
  }

  // ---------------------------------------------------------------------------
  // Report
  // ---------------------------------------------------------------------------

  /**
    The lines of `generateCleanupReport`, one constructor per kind of line; the French
    wording, the emoji and the date and number formatting are not modelled.
   */
  datatype ReportLine =
    | Title                                      // "RAPPORT DE NETTOYAGE AUTOMATIQUE"
    | Rule                                       // "==================================="
    | Blank
    | ExecutedAt(at: Timestamp)                  // "Exécuté le : …"
    | Duration(seconds: int)                     // "Durée : …"
    | CodesHeading                               // "CODES DE VÉRIFICATION EXPIRÉS"
    | Found(count: nat)                          // "Trouvés : n"
    | Cleaned(count: nat)                        // "Nettoyés : n"
    | UsersHeading                               // "UTILISATEURS NON VÉRIFIÉS"
    | Deleted(count: nat)                        // "Supprimés : n"
    | DeletedAccountsHeading                     // "Comptes supprimés :"
    | DeletedAccount(email: string, createdAt: Timestamp)  // "- email (créé le …)"
    | StatisticsHeading                          // "STATISTIQUES FINALES"
    | TotalUsers(count: nat)
    | VerifiedUsers(count: nat)
    | UnverifiedUsers(count: nat)
    | VerificationRate(rate: real)
    | ErrorsHeading                              // "ERREURS RENCONTRÉES"
    | ErrorMessage(message: string)              // "- message"
    | Success                                    // "Nettoyage terminé avec succès !"

  function Header(run: CleanupRun): seq<ReportLine> {
    [Title, Rule, Blank, ExecutedAt(run.startedAt)]
    + (if run.completedAt.Some? then [Duration(run.completedAt.value - run.startedAt), Blank] else [])
  }

  function CodesSection(codes: Option<SweepReport>): seq<ReportLine> {
    match codes
    case None => []
    case Some(c) => [CodesHeading, Found(c.foundCount), Cleaned(c.cleanedCount), Blank]
  }

  function AccountLines(infos: seq<UserInfo>): (r: seq<ReportLine>)
    ensures |r| == |infos|
    ensures forall i :: 0 <= i < |r| ==> r[i] == DeletedAccount(infos[i].email, infos[i].createdAt)
  {
    if infos == [] then [] else [DeletedAccount(infos[0].email, infos[0].createdAt)] + AccountLines(infos[1..])
  }

  function UsersSection(users: Option<PurgeReport>): seq<ReportLine> {
    match users
    case None => []
    case Some(u) =>
      [UsersHeading, Found(u.foundCount), Deleted(u.deletedCount), Blank]
      + (if u.deletedUsers != [] then [DeletedAccountsHeading] + AccountLines(u.deletedUsers) + [Blank] else [])
  }

  function StatisticsSection(stats: Option<Statistics>): seq<ReportLine> {
    match stats
    case None => []
    case Some(s) =>
      [StatisticsHeading, TotalUsers(s.totalUsers), VerifiedUsers(s.verifiedUsers),
       UnverifiedUsers(s.unverifiedUsers), VerificationRate(s.verificationRate), Blank]
  }

  function ErrorLines(errors: seq<string>): (r: seq<ReportLine>)
    ensures |r| == |errors|
    ensures forall i :: 0 <= i < |r| ==> r[i] == ErrorMessage(errors[i])
  {
    if errors == [] then [] else [ErrorMessage(errors[0])] + ErrorLines(errors[1..])
  }

  function ErrorsSection(errors: seq<string>): seq<ReportLine> {
    if errors == [] then [] else [ErrorsHeading] + ErrorLines(errors) + [Blank]
  }

  /** The emails listed as deleted accounts, in report order. */
  function ListedAccounts(lines: seq<ReportLine>): seq<string> {
    if lines == [] then []
    else (if lines[0].DeletedAccount? then [lines[0].email] else []) + ListedAccounts(lines[1..])
  }

  /** The error messages listed, in report order. */
  function ListedErrors(lines: seq<ReportLine>): seq<string> {
    if lines == [] then []
    else (if lines[0].ErrorMessage? then [lines[0].message] else []) + ListedErrors(lines[1..])
  }

  lemma {:induction false} ListedDistributes(a: seq<ReportLine>, b: seq<ReportLine>)
    ensures ListedAccounts(a + b) == ListedAccounts(a) + ListedAccounts(b)
    ensures ListedErrors(a + b) == ListedErrors(a) + ListedErrors(b)
  {
    if a != [] {
      assert (a + b)[1..] == a[1..] + b;
      ListedDistributes(a[1..], b);
    } else {
      assert a + b == b;
    }
  }

  /** Lines that are neither account nor error lines list nothing. */
  lemma {:induction false} PlainLinesListNothing(lines: seq<ReportLine>)
    requires forall i :: 0 <= i < |lines| ==> !lines[i].DeletedAccount? && !lines[i].ErrorMessage?
    ensures ListedAccounts(lines) == [] && ListedErrors(lines) == []
  {
    if lines != [] {
      PlainLinesListNothing(lines[1..]);
    }
  }

  function EmailsOf(infos: seq<UserInfo>): (r: seq<string>)
    ensures |r| == |infos| && forall i :: 0 <= i < |r| ==> r[i] == infos[i].email
  {
    if infos == [] then [] else [infos[0].email] + EmailsOf(infos[1..])
  }

  lemma {:induction false} AccountLinesListing(infos: seq<UserInfo>)
    ensures ListedAccounts(AccountLines(infos)) == EmailsOf(infos)
    ensures ListedErrors(AccountLines(infos)) == []
  {
    if infos != [] {
      var lines := AccountLines(infos);
      assert lines == [lines[0]] + AccountLines(infos[1..]);
      ListedDistributes([lines[0]], AccountLines(infos[1..]));
      AccountLinesListing(infos[1..]);
    }
  }

  lemma {:induction false} ErrorLinesListing(errors: seq<string>)
    ensures ListedErrors(ErrorLines(errors)) == errors
    ensures ListedAccounts(ErrorLines(errors)) == []
  {
    if errors != [] {
      var lines := ErrorLines(errors);
      assert lines == [lines[0]] + ErrorLines(errors[1..]);
      ListedDistributes([lines[0]], ErrorLines(errors[1..]));
      ErrorLinesListing(errors[1..]);
      assert errors == [errors[0]] + errors[1..];
    }
  }

  /**
    `generateCleanupReport`: one line per deleted account and one per error, in order,
    and the success line last, even when errors are listed.
   */
  function GenerateCleanupReport(run: CleanupRun): (r: seq<ReportLine>)
    ensures |r| > 0 && r[|r| - 1] == Success
    ensures ListedAccounts(r) == if run.unverifiedUsers.Some? then EmailsOf(run.unverifiedUsers.value.deletedUsers) else []
    ensures ListedErrors(r) == run.errors
  {
    var header := Header(run);
    var codes := CodesSection(run.expiredCodes);
    var users := UsersSection(run.unverifiedUsers);
    var stats := StatisticsSection(run.statistics);
    var errs := ErrorsSection(run.errors);
    ReportListing(run);
    header + codes + users + stats + errs + [Success]
  }

  lemma UsersSectionListing(users: Option<PurgeReport>)
    ensures ListedAccounts(UsersSection(users)) == if users.Some? then EmailsOf(users.value.deletedUsers) else []
    ensures ListedErrors(UsersSection(users)) == []
  {
    if users.Some? {
      var u := users.value;
      var head := [UsersHeading, Found(u.foundCount), Deleted(u.deletedCount), Blank];
      PlainLinesListNothing(head);
      if u.deletedUsers != [] {
        var body := AccountLines(u.deletedUsers);
        AccountLinesListing(u.deletedUsers);
        PlainLinesListNothing([DeletedAccountsHeading]);
        PlainLinesListNothing([Blank]);
        ListedDistributes([DeletedAccountsHeading], body);
        ListedDistributes([DeletedAccountsHeading] + body, [Blank]);
        ListedDistributes(head, [DeletedAccountsHeading] + body + [Blank]);
      } else {
        ListedDistributes(head, []);
        PlainLinesListNothing([]);
      }
    }
  }

  lemma ErrorsSectionListing(errors: seq<string>)
    ensures ListedAccounts(ErrorsSection(errors)) == []
    ensures ListedErrors(ErrorsSection(errors)) == errors
  {
    if errors != [] {
      var body := ErrorLines(errors);
      ErrorLinesListing(errors);
      PlainLinesListNothing([ErrorsHeading]);
      PlainLinesListNothing([Blank]);
      ListedDistributes([ErrorsHeading], body);
      ListedDistributes([ErrorsHeading] + body, [Blank]);
    } else {
      PlainLinesListNothing([]);
    }
  }

  lemma ReportListing(run: CleanupRun)
    ensures ListedAccounts(Header(run) + CodesSection(run.expiredCodes) + UsersSection(run.unverifiedUsers)
                           + StatisticsSection(run.statistics) + ErrorsSection(run.errors) + [Success])
         == if run.unverifiedUsers.Some? then EmailsOf(run.unverifiedUsers.value.deletedUsers) else []
    ensures ListedErrors(Header(run) + CodesSection(run.expiredCodes) + UsersSection(run.unverifiedUsers)
                         + StatisticsSection(run.statistics) + ErrorsSection(run.errors) + [Success])
         == run.errors
  {
    var header := Header(run);
    var codes := CodesSection(run.expiredCodes);
    var users := UsersSection(run.unverifiedUsers);
    var stats := StatisticsSection(run.statistics);
    var errs := ErrorsSection(run.errors);
    PlainLinesListNothing(header);
    PlainLinesListNothing(codes);
    PlainLinesListNothing(stats);
    PlainLinesListNothing([Success]);
    UsersSectionListing(run.unverifiedUsers);
    ErrorsSectionListing(run.errors);
    ListedDistributes(header, codes);
    ListedDistributes(header + codes, users);
    ListedDistributes(header + codes + users, stats);
    ListedDistributes(header + codes + users + stats, errs);
    ListedDistributes(header + codes + users + stats + errs, [Success]);
  }
}
