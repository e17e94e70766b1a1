/**
  The registration controller as store transitions: `register`, the code page
  `verifyCode`, and `resendCode`. The session's `verification_email` is passed in
  and returned; login state, form submission, the password hasher, the clock,
  the random draw and mail delivery are inputs.
 */
module Registration {
  import opened Wrappers
  import opened PhpText
  import opened UserEntity
  import opened EmailVerification
  import opened Forms

  // ---------------------------------------------------------------------------
  // register
  // ---------------------------------------------------------------------------

  /** The controller's own emptiness test: `empty(trim($value))`, a null value trimming to "". */
  predicate IsMissing(v: Option<string>) {
    IsEmpty(Trim(v.GetOr("")))
  }

  /** The fields the controller re-checks, in the order it checks them. */
  datatype Field = FirstName | LastName | EmailField | PasswordField

  /** The label each field has in the error message. */
  function Label(f: Field): string {
    match f
    case FirstName => "prénom"
    case LastName => "nom"
    case EmailField => "email"
    case PasswordField => "mot de passe"
  }

  function Rank(f: Field): nat {
    match f
    case FirstName => 0
    case LastName => 1
    case EmailField => 2
    case PasswordField => 3
  }

  /** The value the controller checks for a field. */
  function FieldValue(form: RegistrationForm, f: Field): Option<string> {
    match f
    case FirstName => form.firstName
    case LastName => form.lastName
    case EmailField => form.email
    case PasswordField => form.password
  }

  predicate RankIncreasing(fs: seq<Field>) {
    forall i, j :: 0 <= i < j < |fs| ==> Rank(fs[i]) < Rank(fs[j])
  }

  /** The fields of `fs` that are in `chosen`, in the order of `fs`. */
  function Among(fs: seq<Field>, chosen: set<Field>): (r: seq<Field>)
    ensures forall f :: f in r <==> f in fs && f in chosen
  {
    if fs == [] then []
    else (if fs[0] in chosen then [fs[0]] else []) + Among(fs[1..], chosen)
  }

  /** Filtering keeps the order of the checks. */
  lemma {:induction false} AmongOrdered(fs: seq<Field>, chosen: set<Field>)
    requires RankIncreasing(fs)
    ensures RankIncreasing(Among(fs, chosen))
  {
    if fs != [] {
      var rest := Among(fs[1..], chosen);
      AmongOrdered(fs[1..], chosen);
      forall f | f in rest ensures Rank(fs[0]) < Rank(f) {
        var j :| 0 <= j < |fs[1..]| && fs[1..][j] == f;
        assert fs[j + 1] == f;
      }
    }
  }

  const CHECK_ORDER := [FirstName, LastName, EmailField, PasswordField]

  /** Every field is checked. */
  lemma CheckOrderCoversAllFields(f: Field)
    ensures f in CHECK_ORDER
  {
    match f
    case FirstName => assert CHECK_ORDER[0] == f;
    case LastName => assert CHECK_ORDER[1] == f;
    case EmailField => assert CHECK_ORDER[2] == f;
    case PasswordField => assert CHECK_ORDER[3] == f;
  }

  /** The fields whose value the controller finds missing. */
  function MissingSet(form: RegistrationForm): (m: set<Field>)
    ensures forall f :: f in m <==> IsMissing(FieldValue(form, f))
  {
    var m := set f | f in CHECK_ORDER && IsMissing(FieldValue(form, f));
    forall f ensures f in m <==> IsMissing(FieldValue(form, f)) {
      CheckOrderCoversAllFields(f);
    }
    m
  }

  /** The missing fields, in the order prénom, nom, email, mot de passe. */
  function MissingFields(form: RegistrationForm): (r: seq<Field>)
    ensures forall f :: f in r <==> IsMissing(FieldValue(form, f))
    ensures RankIncreasing(r)
  {
    var chosen := MissingSet(form);
    AmongOrdered(CHECK_ORDER, chosen);
    var r := Among(CHECK_ORDER, chosen);
    forall f ensures f in r <==> f in chosen {
      CheckOrderCoversAllFields(f);
    }
    r
  }

  /** A name that is only "0" (or blanks around "0") is reported missing although the form accepted it. */
  lemma ZeroNameIsMissing(form: RegistrationForm)
    requires form.firstName == Some(" 0 ")
    ensures FirstName in MissingFields(form)
  {
    assert " " + "0" + " " == " 0 ";
    TrimByUnique(" ", "0", " ", PhpTrimChars);
  }

  /**
    After binding, the controller's re-check of a form that passed its constraints can only
    catch a name or email that is exactly "0", and a password that is blank or "0" between
    blanks: binding has already removed the blanks around the text fields, not the password's.
   */
  lemma MissingAfterBinding(form: RegistrationForm)
    requires RegistrationFormValid(form) && RegistrationFormBound(form)
    ensures FirstName in MissingFields(form) <==> form.firstName == Some("0")
    ensures LastName in MissingFields(form) <==> form.lastName == Some("0")
    ensures EmailField in MissingFields(form) <==> form.email == Some("0")
    ensures PasswordField in MissingFields(form) <==> IsEmpty(Trim(form.password.value))
  {
    BoundTextIsTrimmed(form.firstName);
    BoundTextIsTrimmed(form.lastName);
    BoundTextIsTrimmed(form.email);
  }

  datatype RegisterOutcome =
    | AlreadyLoggedIn                  // redirect to the home page
    | ShowRegistrationForm             // not submitted, or a form constraint failed
    | FieldsMissing(fields: seq<Field>)
    | EmailTaken
    | RedirectToVerify                 // account created, code mailed
    | RedirectToLoginMailFailed        // account created and code stored, mail not sent

  datatype RegisterResult = RegisterResult(outcome: RegisterOutcome, store: Store, session: Option<string>, mail: Option<Mail>)

  /** The account a successful registration persists, before its code is issued. */
  function NewAccount(form: RegistrationForm, now: Timestamp, hash: string -> string): (u: User)
    requires form.email.Some? && form.password.Some?
    ensures GetRoles(u) == [ROLE_USER] && !u.isVerified
    ensures u.email == form.email.value && u.firstName == form.firstName && u.lastName == form.lastName
    ensures u.createdAt == Some(now) && u.password == Some(hash(form.password.value))
    ensures u.verificationCode == None && u.verificationCodeExpiresAt == None
  {
    var u := NewUser();
    var u := u.(email := form.email.value, firstName := form.firstName, lastName := form.lastName);
    var u := SetRoles(u, [ROLE_USER]);
    GetRolesKeepsStoredRoles(u);
    var u := SetCreatedAt(u, now);
    var u := SetIsVerified(u, false);
    SetPassword(u, hash(form.password.value))
  }

  predicate RegistrationSucceeded(o: RegisterOutcome) {
    o.RedirectToVerify? || o.RedirectToLoginMailFailed?
  }

  /**
    The effect of a successful registration: the account is stored, then a code is issued
    and flushed before the mail goes out. Only a delivered mail puts the email in the
    session; a failed one still keeps the account and its code.
   */
  function CreateAccount(store: Store, session: Option<string>, form: RegistrationForm,
                         now: Timestamp, draw: Draw, hash: string -> string, delivered: bool): (r: RegisterResult)
    requires form.email.Some? && form.password.Some? && form.email.value !in store
    ensures r.store.Keys == store.Keys + {form.email.value}
    ensures forall e :: e in store ==> r.store[e] == store[e]
    ensures SameProfile(NewAccount(form, now, hash), r.store[form.email.value])
    ensures !r.store[form.email.value].isVerified && GetRoles(r.store[form.email.value]) == [ROLE_USER]
    ensures r.store[form.email.value].verificationCode == Some(GenerateVerificationCode(draw))
    ensures r.store[form.email.value].verificationCodeExpiresAt == Some(now + CODE_LIFETIME)
    ensures r.outcome == (if delivered then RedirectToVerify else RedirectToLoginMailFailed)
    ensures r.session == (if delivered then Some(form.email.value) else session)
    ensures r.mail.Some? <==> delivered
  {
    var email := form.email.value;
    var account := NewAccount(form, now, hash);
    var persisted := store[email := account];
    assert persisted.Keys == store.Keys + {email};
    var sent := SendEmailConfirmation(persisted, email, draw, now, delivered);
    var flushed := sent.store;
    assert flushed.Keys == store.Keys + {email};
    assert forall e :: e in store ==> flushed[e] == store[e];
    assert SameProfile(account, flushed[email]) && !flushed[email].isVerified;
    assert GetRoles(flushed[email]) == [ROLE_USER] by {
      assert flushed[email].roles == account.roles;
    }
    RegisterResult(if delivered then RedirectToVerify else RedirectToLoginMailFailed,
                   flushed, if delivered then Some(email) else session, sent.mail)
  }

  /** Every guard of `register` passes: nobody logged in, a valid form, no missing field, a new email. */
  predicate Admitted(store: Store, loggedIn: bool, submitted: bool, form: RegistrationForm) {
    && !loggedIn && submitted && RegistrationFormValid(form) && MissingFields(form) == []
    && form.email.value !in store
  }

  /**
    `register`: a logged-in requester, an invalid form, a missing field or a taken email
    leave the store and the session alone; otherwise the account is created.
   */
  function Register(store: Store, session: Option<string>, loggedIn: bool, submitted: bool, form: RegistrationForm,
                    now: Timestamp, draw: Draw, hash: string -> string, delivered: bool): (r: RegisterResult)
    ensures loggedIn ==> r.outcome == AlreadyLoggedIn
    ensures !RegistrationSucceeded(r.outcome) ==> r.store == store && r.session == session && r.mail == None
    ensures !loggedIn && !(submitted && RegistrationFormValid(form)) ==> r.outcome == ShowRegistrationForm
    ensures (!loggedIn && submitted && RegistrationFormValid(form) && MissingFields(form) != []) ==>
              r.outcome == FieldsMissing(MissingFields(form))
    ensures (!loggedIn && submitted && RegistrationFormValid(form) && MissingFields(form) == []
             && form.email.value in store) ==> r.outcome == EmailTaken
    ensures RegistrationSucceeded(r.outcome) ==> r == CreateAccount(store, session, form, now, draw, hash, delivered)
  {
    if loggedIn then RegisterResult(AlreadyLoggedIn, store, session, None)
    else if !(submitted && RegistrationFormValid(form)) then RegisterResult(ShowRegistrationForm, store, session, None)
    else
      var missing := MissingFields(form);
      if missing != [] then RegisterResult(FieldsMissing(missing), store, session, None)
      else if form.email.value in store then RegisterResult(EmailTaken, store, session, None)
      else CreateAccount(store, session, form, now, draw, hash, delivered)
  }

  /** An account is created exactly when every guard of `register` passes. */
  lemma RegisterSucceedsIff(store: Store, session: Option<string>, loggedIn: bool, submitted: bool,
                            form: RegistrationForm, now: Timestamp, draw: Draw, hash: string -> string, delivered: bool)
    ensures RegistrationSucceeded(Register(store, session, loggedIn, submitted, form, now, draw, hash, delivered).outcome)
            <==> Admitted(store, loggedIn, submitted, form)
  {
    if Admitted(store, loggedIn, submitted, form) {
      var r := CreateAccount(store, session, form, now, draw, hash, delivered);
      assert RegistrationSucceeded(r.outcome);
    }
  }

  /**
    A bound form (`BindRegistrationForm` yields only such forms) that passed its constraints,
    with no "0" text field and a password that is not blank once trimmed, is never sent back
    for missing fields.
   */
  lemma CleanFormHasNoMissingField(store: Store, session: Option<string>, submitted: bool, form: RegistrationForm,
                                   now: Timestamp, draw: Draw, hash: string -> string, delivered: bool)
    requires RegistrationFormValid(form) && RegistrationFormBound(form)
    requires form.firstName != Some("0") && form.lastName != Some("0") && form.email != Some("0")
    requires IsTruthy(Trim(form.password.value))
    ensures MissingFields(form) == []
    ensures !Register(store, session, false, submitted, form, now, draw, hash, delivered).outcome.FieldsMissing?
  {
    CleanBindingHasNoMissingField(form);
  }

  lemma CleanBindingHasNoMissingField(form: RegistrationForm)
    requires RegistrationFormValid(form) && RegistrationFormBound(form)
    requires form.firstName != Some("0") && form.lastName != Some("0") && form.email != Some("0")
    requires IsTruthy(Trim(form.password.value))
    ensures MissingFields(form) == []
  {
    var m := MissingFields(form);
    MissingAfterBinding(form);
    forall f | true
      ensures f !in m
    {
      match f
      case FirstName =>
      case LastName =>
      case EmailField =>
      case PasswordField =>
    }
    NoMemberMeansEmpty(m);
  }

  lemma NoMemberMeansEmpty(m: seq<Field>)
    requires forall f :: f !in m
    ensures m == []
  {
    forall f | true
      ensures multiset(m)[f] == 0
    {
      assert f !in m;
    }
    assert multiset(m) == multiset{};
  }

  /**
    A password of blanks is not trimmed by binding, so six to 4096 of them pass NotBlank and
    Length; the controller's own check then reports the password missing.
   */
  lemma BlankPasswordIsMissing(store: Store, session: Option<string>, form: RegistrationForm,
                               now: Timestamp, draw: Draw, hash: string -> string, delivered: bool)
    requires form.password.Some? && AllTrimChars(form.password.value)
    ensures MIN_PASSWORD_LENGTH <= |form.password.value| <= MAX_PASSWORD_LENGTH ==>
              NotBlank(form.password) && PasswordLengthValid(form.password)
    ensures PasswordField in MissingFields(form)
    ensures RegistrationFormValid(form) ==>
              Register(store, session, false, true, form, now, draw, hash, delivered).outcome.FieldsMissing?
  {
    BlankPasswordBindsMissing(form);
  }

  lemma BlankPasswordBindsMissing(form: RegistrationForm)
    requires form.password.Some? && AllTrimChars(form.password.value)
    ensures PasswordField in MissingFields(form)
  {
    assert Trim(form.password.value) == [];
    assert IsMissing(FieldValue(form, PasswordField));
  }

  /** Registering an email that already has an account never creates a second one. */
  lemma NoSecondAccount(store: Store, session: Option<string>, loggedIn: bool, submitted: bool,
                        form: RegistrationForm, now: Timestamp, draw: Draw, hash: string -> string, delivered: bool)
    requires form.email.Some? && form.email.value in store
    ensures Register(store, session, loggedIn, submitted, form, now, draw, hash, delivered).store == store
  {
  }

  /** Registration keeps every account filed under its email and every code paired with an expiry. */
  lemma RegisterPreservesInvariants(store: Store, session: Option<string>, loggedIn: bool, submitted: bool,
                                    form: RegistrationForm, now: Timestamp, draw: Draw, hash: string -> string,
                                    delivered: bool)
    requires WellFormed(store) && AllCodeStatesConsistent(store)
    ensures WellFormed(Register(store, session, loggedIn, submitted, form, now, draw, hash, delivered).store)
    ensures AllCodeStatesConsistent(Register(store, session, loggedIn, submitted, form, now, draw, hash, delivered).store)
  {
    var r := Register(store, session, loggedIn, submitted, form, now, draw, hash, delivered);
    if RegistrationSucceeded(r.outcome) {
      var email := form.email.value;
      assert r == CreateAccount(store, session, form, now, draw, hash, delivered);
      var persisted := store[email := NewAccount(form, now, hash)];
      ReplacePreservesInvariants(store, email, NewAccount(form, now, hash));
      SendPreservesInvariants(persisted, email, draw, now, delivered);
    }
  }

  // ---------------------------------------------------------------------------
  // verifyCode
  // ---------------------------------------------------------------------------

  /** `if (!$email)`: a null, "" or "0" session value counts as no session email. */
  predicate HasSessionEmail(session: Option<string>) {
    session.Some? && IsTruthy(session.value)
  }

  datatype VerifyPageOutcome =
    | SessionExpired          // redirect to registration
    | ShowVerifyForm
    | CodeAccepted            // redirect to login
    | CodeRejected            // form shown again with an error

  datatype VerifyPageResult = VerifyPageResult(outcome: VerifyPageOutcome, store: Store, session: Option<string>)

  /**
    `verifyCode`: checks the submitted code against the account of the SESSION email
    (the email typed in the form is validated but not used); success clears the session email.
   */
  function VerifyCode(store: Store, session: Option<string>, submitted: bool, form: VerificationCodeForm,
                      emailFormatOk: bool, now: Timestamp): (r: VerifyPageResult)
    ensures !HasSessionEmail(session) ==> r.outcome == SessionExpired
    ensures r.outcome != CodeAccepted ==> r.store == store && r.session == session
    ensures r.outcome == CodeAccepted <==>
              HasSessionEmail(session) && submitted && VerificationFormValid(form, emailFormatOk)
              && VerifyUserEmailWithCode(store, session.value, form.code.value, now).ok
    ensures r.outcome == CodeAccepted ==>
              r.store == VerifyUserEmailWithCode(store, session.value, form.code.value, now).store
              && r.store[session.value].isVerified && r.session == None
  {
    if !HasSessionEmail(session) then VerifyPageResult(SessionExpired, store, session)
    else if !(submitted && VerificationFormValid(form, emailFormatOk)) then VerifyPageResult(ShowVerifyForm, store, session)
    else
      var v := VerifyUserEmailWithCode(store, session.value, form.code.value, now);
      if v.ok then VerifyPageResult(CodeAccepted, v.store, None)
      else VerifyPageResult(CodeRejected, store, session)
  }

  /** Two valid submissions that differ only in the typed email have the same effect. */
  lemma VerifyIgnoresTypedEmail(store: Store, session: Option<string>, code: Option<string>,
                                typed1: Option<string>, typed2: Option<string>, emailFormatOk: bool, now: Timestamp)
    requires NotBlank(typed1) && NotBlank(typed2)
    ensures VerifyCode(store, session, true, VerificationCodeForm(typed1, code), emailFormatOk, now)
         == VerifyCode(store, session, true, VerificationCodeForm(typed2, code), emailFormatOk, now)
  {
  }

  // ---------------------------------------------------------------------------
  // resendCode
  // ---------------------------------------------------------------------------

  datatype ResendOutcome =
    | ResendSessionExpired    // redirect to registration
    | CodeResent
    | ResendMailFailed        // new code stored, mail not sent
    | NotFoundOrVerified

  datatype ResendResult = ResendResult(outcome: ResendOutcome, store: Store, mail: Option<Mail>)

  /**
    `resendCode`: only an existing, unverified account of the session email gets a new
    code; otherwise the store is left alone.
   */
  function ResendCode(store: Store, session: Option<string>, now: Timestamp, draw: Draw, delivered: bool): (r: ResendResult)
    ensures !HasSessionEmail(session) ==> r.outcome == ResendSessionExpired
    ensures (r.outcome == CodeResent || r.outcome == ResendMailFailed) <==>
              HasSessionEmail(session) && session.value in store && !store[session.value].isVerified
    ensures (r.outcome == CodeResent || r.outcome == ResendMailFailed) ==>
              r.store == ResendVerificationCode(store, session.value, draw, now, delivered).store
              && r.store[session.value].verificationCode == Some(GenerateVerificationCode(draw))
              && (r.outcome == CodeResent <==> delivered)
    ensures !(r.outcome == CodeResent || r.outcome == ResendMailFailed) ==> r.store == store && r.mail == None
  {
    if !HasSessionEmail(session) then ResendResult(ResendSessionExpired, store, None)
    else
      var email := session.value;
      if email in store && !store[email].isVerified then
        var sent := ResendVerificationCode(store, email, draw, now, delivered);
        ResendResult(if delivered then CodeResent else ResendMailFailed, sent.store, sent.mail)
      else ResendResult(NotFoundOrVerified, store, None)
  }
}
