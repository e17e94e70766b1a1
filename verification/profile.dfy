/**
  The profile pages of a logged-in user: editing the name and email, changing
  the password, and deleting the account with its password-reset requests.
  The form checks that are not modelled (the password form, the Email format),
  the password hasher, the CSRF check and the database flush are inputs.
 */
module Profile {
  import opened Wrappers
  import opened UserEntity
  import opened Forms
  import opened EmailVerification

  // ---------------------------------------------------------------------------
  // Password-reset requests
  // ---------------------------------------------------------------------------

  /**
    A password-reset request, reduced to its id and its account. The table refers to the
    account's row (`user_id`, deleted with it); here an account is known by the email it
    is filed under, so a request names that email and follows the account when it is
    filed under a new one.
   */
  datatype ResetRequest = ResetRequest(id: int, user: string)

  /** `findBy(['user' => $user])`: the requests of one account, in order. */
  function RequestsOf(requests: seq<ResetRequest>, email: string): (r: seq<ResetRequest>)
    ensures forall q :: q in r <==> q in requests && q.user == email
    ensures |r| <= |requests|
  {
    if requests == [] then []
    else (if requests[0].user == email then [requests[0]] else []) + RequestsOf(requests[1..], email)
  }

  /** The requests left once those of one account are removed, in order. */
  function RequestsNotOf(requests: seq<ResetRequest>, email: string): (r: seq<ResetRequest>)
    ensures forall q :: q in r <==> q in requests && q.user != email
    ensures |r| <= |requests|
  {
    if requests == [] then []
    else (if requests[0].user != email then [requests[0]] else []) + RequestsNotOf(requests[1..], email)
  }

  /** Removing an account's requests removes exactly them: the two parts make up the whole, counted with repetition. */
  lemma {:induction false} RequestsPartition(requests: seq<ResetRequest>, email: string)
    ensures multiset(RequestsOf(requests, email)) + multiset(RequestsNotOf(requests, email)) == multiset(requests)
  {
    if requests != [] {
      var h, t := requests[0], requests[1..];
      RequestsPartition(t, email);
      assert requests == [h] + t;
      var mine := if h.user == email then [h] else [];
      var others := if h.user != email then [h] else [];
      assert RequestsOf(requests, email) == mine + RequestsOf(t, email);
      assert RequestsNotOf(requests, email) == others + RequestsNotOf(t, email);
      assert multiset(mine) + multiset(others) == multiset([h]);
    }
  }

  /** Every reset request belongs to an existing account. */
  ghost predicate RequestsReferToAccounts(store: Store, requests: seq<ResetRequest>) {
    forall i :: 0 <= i < |requests| ==> requests[i].user in store
  }

  /** The account filed under `from` is now filed under `to`: its requests follow it; no other request changes. */
  function Repoint(requests: seq<ResetRequest>, from: string, to: string): (r: seq<ResetRequest>)
    ensures |r| == |requests|
    ensures forall i :: 0 <= i < |r| ==>
              r[i].id == requests[i].id && r[i].user == (if requests[i].user == from then to else requests[i].user)
  {
    if requests == [] then []
    else [if requests[0].user == from then requests[0].(user := to) else requests[0]] + Repoint(requests[1..], from, to)
  }

  // ---------------------------------------------------------------------------
  // edit
  // ---------------------------------------------------------------------------

  datatype EditOutcome =
    | EditAccessDenied      // no logged-in user
    | ShowEditForm          // not submitted, or a constraint failed
    | ProfileUpdated        // redirect to the profile page
    | UpdateFailed          // the flush threw; the form is shown again

  datatype EditResult = EditResult(outcome: EditOutcome, store: Store, requests: seq<ResetRequest>)

  /** The account once the form has been bound onto it, before the email check. */
  function Bind(u: User, form: ProfileEditForm): (r: User)
    requires form.email.Some?
    ensures r.firstName == form.firstName && r.lastName == form.lastName && r.email == form.email.value
    ensures r.(firstName := u.firstName, lastName := u.lastName, email := u.email) == u
  {
    u.(firstName := form.firstName, lastName := form.lastName, email := form.email.value)
  }

  /**
    The flush of an edit fails when the database refuses it (`flushOk == false`) or
    when the new email already belongs to another account (its unique constraint).
   */
  predicate EditCommits(store: Store, email: string, newEmail: string, flushOk: bool) {
    flushOk && (newEmail == email || newEmail !in store)
  }

  /**
    `edit`: binds the form onto the logged-in account; a changed email (compared strictly)
    marks it unverified. Nothing is stored unless the form is valid and the flush succeeds.
    No code is issued and no mail is sent on an email change. `form` holds the bound values
    (`Forms.BindProfileForm`).
   */
  function Edit(store: Store, requests: seq<ResetRequest>, current: Option<string>, submitted: bool,
                form: ProfileEditForm, emailFormatOk: bool, flushOk: bool): (r: EditResult)
    requires current.Some? ==> current.value in store
    ensures current.None? ==> r.outcome == EditAccessDenied
    ensures r.outcome != ProfileUpdated ==> r.store == store && r.requests == requests
    ensures r.outcome == ProfileUpdated <==>
              current.Some? && submitted && ProfileEditValid(form, emailFormatOk)
              && EditCommits(store, current.value, form.email.value, flushOk)
    ensures r.outcome == ProfileUpdated ==>
              var u := store[current.value];
              var e := form.email.value;
              && r.store.Keys == store.Keys - {current.value} + {e}
              && (forall k :: k in store && k != current.value && k != e ==> r.store[k] == store[k])
              && r.store[e] == Bind(u, form).(isVerified := u.isVerified && e == current.value)
              && r.requests == Repoint(requests, current.value, e)
  {
    if current.None? then EditResult(EditAccessDenied, store, requests)
    else if !(submitted && ProfileEditValid(form, emailFormatOk)) then EditResult(ShowEditForm, store, requests)
    else
      var email := current.value;
      var newEmail := form.email.value;
      var bound := Bind(store[email], form);
      var u := if email != newEmail then SetIsVerified(bound, false) else bound;
      if EditCommits(store, email, newEmail, flushOk) then
        EditResult(ProfileUpdated, (store - {email})[newEmail := u], Repoint(requests, email, newEmail))
      else EditResult(UpdateFailed, store, requests)
  }

  /** An edit never creates or loses an account: the store keeps its size. */
  lemma EditKeepsAccountCount(store: Store, requests: seq<ResetRequest>, current: Option<string>, submitted: bool,
                              form: ProfileEditForm, emailFormatOk: bool, flushOk: bool)
    requires current.Some? ==> current.value in store
    ensures |Edit(store, requests, current, submitted, form, emailFormatOk, flushOk).store| == |store|
  {
    var r := Edit(store, requests, current, submitted, form, emailFormatOk, flushOk);
    if r.outcome == ProfileUpdated {
      var email, e := current.value, form.email.value;
      var rest := store.Keys - {email};
      assert |rest| == |store| - 1;
      if e == email {
        assert r.store.Keys == store.Keys;
      } else {
        assert e !in rest;
        assert r.store.Keys == rest + {e};
      }
    }
  }

  /** A stored email change always leaves the account unverified; keeping the email keeps the flag. */
  lemma EmailChangeNeedsVerification(store: Store, requests: seq<ResetRequest>, current: Option<string>,
                                     form: ProfileEditForm, emailFormatOk: bool, flushOk: bool)
    requires current.Some? && current.value in store
    requires Edit(store, requests, current, true, form, emailFormatOk, flushOk).outcome == ProfileUpdated
    ensures var r := Edit(store, requests, current, true, form, emailFormatOk, flushOk);
            r.store[form.email.value].isVerified <==>
              form.email.value == current.value && store[current.value].isVerified
  {
  }

  /** A committed edit stores only names the form accepts: at most 50 characters of the name class, or null. */
  lemma CommittedNamesMeetTheForm(store: Store, requests: seq<ResetRequest>, current: Option<string>,
                                  form: ProfileEditForm, emailFormatOk: bool, flushOk: bool)
    requires current.Some? && current.value in store
    requires Edit(store, requests, current, true, form, emailFormatOk, flushOk).outcome == ProfileUpdated
    ensures var u := Edit(store, requests, current, true, form, emailFormatOk, flushOk).store[form.email.value];
            && NameFieldValid(u.firstName) && NameFieldValid(u.lastName)
            && |u.email| <= MAX_EMAIL_LENGTH && u.email != ""
  {
  }

  /**
    An edit keeps every account filed under its email, every code paired with an expiry,
    and every reset request attached to an existing account.
   */
  lemma EditPreservesInvariants(store: Store, requests: seq<ResetRequest>, current: Option<string>, submitted: bool,
                                form: ProfileEditForm, emailFormatOk: bool, flushOk: bool)
    requires current.Some? ==> current.value in store
    requires WellFormed(store) && AllCodeStatesConsistent(store) && RequestsReferToAccounts(store, requests)
    ensures var r := Edit(store, requests, current, submitted, form, emailFormatOk, flushOk);
            WellFormed(r.store) && AllCodeStatesConsistent(r.store) && RequestsReferToAccounts(r.store, r.requests)
  {
    var r := Edit(store, requests, current, submitted, form, emailFormatOk, flushOk);
    if r.outcome == ProfileUpdated {
      var email, e := current.value, form.email.value;
      forall i | 0 <= i < |r.requests|
        ensures r.requests[i].user in r.store
      {
        assert requests[i].user in store;
      }
    }
  }

  /**
    Deleting an account whose email was changed removes every reset request it had before
    the change, and no other request.
   */
  lemma DeleteAfterEmailChange(store: Store, requests: seq<ResetRequest>, current: Option<string>,
                               form: ProfileEditForm, emailFormatOk: bool, flushOk: bool)
    requires current.Some? && current.value in store
    requires RequestsReferToAccounts(store, requests)
    requires Edit(store, requests, current, true, form, emailFormatOk, flushOk).outcome == ProfileUpdated
    ensures var r := Edit(store, requests, current, true, form, emailFormatOk, flushOk);
            var d := DeleteAccount(r.store, r.requests, Some(form.email.value), true, true);
            forall q :: q in d.requests <==> q in requests && q.user != current.value
  {
    var r := Edit(store, requests, current, true, form, emailFormatOk, flushOk);
    var email, e := current.value, form.email.value;
    var d := DeleteAccount(r.store, r.requests, Some(e), true, true);
    forall q | q in requests && q.user != email
      ensures q in d.requests
    {
      var i :| 0 <= i < |requests| && requests[i] == q;
      assert q.user in store;
      assert r.requests[i] == q;
    }
    forall q | q in d.requests
      ensures q in requests && q.user != email
    {
      var i :| 0 <= i < |r.requests| && r.requests[i] == q;
      assert requests[i].user in store;
      assert requests[i].user != email;
    }
  }

  /**
    As written, an email change clears the verified flag but issues no code: an account
    that had no pending code is left unverified with no code that could ever verify it.
   */
  lemma EmailChangeLeavesNoUsableCode(store: Store, requests: seq<ResetRequest>, current: Option<string>,
                                      form: ProfileEditForm, emailFormatOk: bool, flushOk: bool, code: string,
                                      at: Timestamp)
    requires current.Some? && current.value in store && store[current.value].verificationCode == None
    requires Edit(store, requests, current, true, form, emailFormatOk, flushOk).outcome == ProfileUpdated
    requires form.email.value != current.value
    ensures var r := Edit(store, requests, current, true, form, emailFormatOk, flushOk);
            !r.store[form.email.value].isVerified
            && !VerifyUserEmailWithCode(r.store, form.email.value, code, at).ok
  {
  }

  datatype ReverifyResult = ReverifyResult(outcome: EditOutcome, store: Store, requests: seq<ResetRequest>,
                                           mail: Option<Mail>)

  /**
    `edit` as its success message announces it: a stored email change also issues a code
    to the new address, as registration does. Everything else is `Edit`.
   */
  function EditAndReverify(store: Store, requests: seq<ResetRequest>, current: Option<string>, submitted: bool,
                           form: ProfileEditForm, emailFormatOk: bool, flushOk: bool, draw: Draw, now: Timestamp,
                           delivered: bool): (r: ReverifyResult)
    requires current.Some? ==> current.value in store
    ensures var plain := Edit(store, requests, current, submitted, form, emailFormatOk, flushOk);
            r.outcome == plain.outcome && r.store.Keys == plain.store.Keys && r.requests == plain.requests
    ensures r.outcome != ProfileUpdated || form.email.value == current.value ==>
              r.store == Edit(store, requests, current, submitted, form, emailFormatOk, flushOk).store && r.mail == None
    ensures r.outcome == ProfileUpdated && form.email.value != current.value ==>
              && !r.store[form.email.value].isVerified
              && r.store[form.email.value].verificationCode == Some(GenerateVerificationCode(draw))
              && r.store[form.email.value].verificationCodeExpiresAt == Some(now + CODE_LIFETIME)
              && (r.mail.Some? <==> delivered)
  {
    var plain := Edit(store, requests, current, submitted, form, emailFormatOk, flushOk);
    if plain.outcome == ProfileUpdated && form.email.value != current.value then
      var sent := SendEmailConfirmation(plain.store, form.email.value, draw, now, delivered);
      ReverifyResult(ProfileUpdated, sent.store, plain.requests, sent.mail)
    else ReverifyResult(plain.outcome, plain.store, plain.requests, None)
  }

  /** With the code issued, the changed email can be verified again until the code expires. */
  lemma ReverifiedEmailCanVerify(store: Store, requests: seq<ResetRequest>, current: Option<string>,
                                 form: ProfileEditForm, emailFormatOk: bool, flushOk: bool, draw: Draw,
                                 now: Timestamp, delivered: bool, at: Timestamp)
    requires current.Some? && current.value in store
    requires Edit(store, requests, current, true, form, emailFormatOk, flushOk).outcome == ProfileUpdated
    requires form.email.value != current.value && at <= now + CODE_LIFETIME
    ensures var r := EditAndReverify(store, requests, current, true, form, emailFormatOk, flushOk, draw, now, delivered);
            VerifyUserEmailWithCode(r.store, form.email.value, GenerateVerificationCode(draw), at).ok
  {
    var plain := Edit(store, requests, current, true, form, emailFormatOk, flushOk);
    SentCodeVerifies(plain.store, form.email.value, draw, now, delivered, at);
  }

  // ---------------------------------------------------------------------------
  // changePassword
  // ---------------------------------------------------------------------------

  datatype PasswordOutcome =
    | PasswordAccessDenied
    | ShowPasswordForm          // not submitted, or the form is invalid
    | WrongCurrentPassword
    | PasswordChanged           // redirect to the profile page
    | PasswordChangeFailed      // the flush threw

  datatype PasswordResult = PasswordResult(outcome: PasswordOutcome, store: Store)

  /**
    `changePassword`: with a valid form and the right current password, the account's
    password becomes the hash of the new one; every other outcome stores nothing.
   */
  function ChangePassword(store: Store, current: Option<string>, submitted: bool, formValid: bool,
                          currentPasswordOk: bool, newPassword: string, hash: string -> string,
                          flushOk: bool): (r: PasswordResult)
    requires current.Some? ==> current.value in store
    ensures current.None? ==> r.outcome == PasswordAccessDenied
    ensures r.outcome != PasswordChanged ==> r.store == store
    ensures r.outcome == PasswordChanged <==> current.Some? && submitted && formValid && currentPasswordOk && flushOk
    ensures current.Some? && submitted && formValid && !currentPasswordOk ==> r.outcome == WrongCurrentPassword
    ensures r.outcome == PasswordChanged ==>
              && r.store.Keys == store.Keys
              && r.store[current.value].password == Some(hash(newPassword))
              && r.store[current.value].(password := store[current.value].password) == store[current.value]
              && (forall k :: k in store && k != current.value ==> r.store[k] == store[k])
  {
    if current.None? then PasswordResult(PasswordAccessDenied, store)
    else if !(submitted && formValid) then PasswordResult(ShowPasswordForm, store)
    else if !currentPasswordOk then PasswordResult(WrongCurrentPassword, store)
    else
      var email := current.value;
      var u := SetPassword(store[email], hash(newPassword));
      if flushOk then PasswordResult(PasswordChanged, store[email := u])
      else PasswordResult(PasswordChangeFailed, store)
  }

  /** A password change keeps every account filed under its email and every code paired with an expiry. */
  lemma ChangePasswordPreservesInvariants(store: Store, current: Option<string>, submitted: bool, formValid: bool,
                                          currentPasswordOk: bool, newPassword: string, hash: string -> string,
                                          flushOk: bool)
    requires current.Some? ==> current.value in store
    requires WellFormed(store) && AllCodeStatesConsistent(store)
    ensures var r := ChangePassword(store, current, submitted, formValid, currentPasswordOk, newPassword, hash, flushOk);
            WellFormed(r.store) && AllCodeStatesConsistent(r.store)
  {
  }

  // ---------------------------------------------------------------------------
  // deleteAccount
  // ---------------------------------------------------------------------------

  datatype DeleteOutcome =
    | DeleteAccessDenied
    | InvalidToken          // redirect to the profile page
    | AccountDeleted        // logged out, session renewed, redirect home
    | DeletionFailed        // rolled back, redirect to the profile page

  datatype DeleteResult = DeleteResult(outcome: DeleteOutcome, store: Store, requests: seq<ResetRequest>, loggedIn: bool)

  /**
    `deleteAccount`: after the CSRF check, removes the account's reset requests and the
    account in one transaction; a failure rolls both back. Only a commit logs the user out.
   */
  function DeleteAccount(store: Store, requests: seq<ResetRequest>, current: Option<string>,
                         csrfOk: bool, commitOk: bool): (r: DeleteResult)
    requires current.Some? ==> current.value in store
    ensures current.None? ==> r.outcome == DeleteAccessDenied
    ensures current.Some? && !csrfOk ==> r.outcome == InvalidToken
    ensures r.outcome != AccountDeleted ==> r.store == store && r.requests == requests && r.loggedIn == current.Some?
    ensures r.outcome == AccountDeleted <==> current.Some? && csrfOk && commitOk
    ensures r.outcome == AccountDeleted ==>
              && r.store.Keys == store.Keys - {current.value}
              && (forall k :: k in r.store ==> r.store[k] == store[k])
              && (forall q :: q in r.requests <==> q in requests && q.user != current.value)
              && !r.loggedIn
  {
    if current.None? then DeleteResult(DeleteAccessDenied, store, requests, false)
    else if !csrfOk then DeleteResult(InvalidToken, store, requests, true)
    else
      var email := current.value;
      if commitOk then DeleteResult(AccountDeleted, store - {email}, RequestsNotOf(requests, email), false)
      else DeleteResult(DeletionFailed, store, requests, true)
  }

  /** Deletion leaves no reset request pointing at a missing account, and keeps the store invariants. */
  lemma DeletePreservesInvariants(store: Store, requests: seq<ResetRequest>, current: Option<string>,
                                  csrfOk: bool, commitOk: bool)
    requires current.Some? ==> current.value in store
    requires WellFormed(store) && AllCodeStatesConsistent(store) && RequestsReferToAccounts(store, requests)
    ensures var r := DeleteAccount(store, requests, current, csrfOk, commitOk);
            WellFormed(r.store) && AllCodeStatesConsistent(r.store) && RequestsReferToAccounts(r.store, r.requests)
  {
    var r := DeleteAccount(store, requests, current, csrfOk, commitOk);
    if r.outcome == AccountDeleted {
      forall i | 0 <= i < |r.requests|
        ensures r.requests[i].user in r.store
      {
        assert r.requests[i] in r.requests;
      }
    }
  }
}
