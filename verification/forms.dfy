/**
  The server-side constraints of the three user forms, as predicates over the
  values after binding, and the binding itself: text and email fields are trimmed
  and an empty result binds to null; password fields are bound as typed.
  The Email format constraint is a boolean input.
 */
module Forms {
  import opened Wrappers
  import opened PhpText
  import opened EmailVerification

  /** `NotBlank`: not null and not the empty string; it does not trim, so "  " and "0" pass. */
  predicate NotBlank(v: Option<string>) {
    v.Some? && v.value != ""
  }

  // ---------------------------------------------------------------------------
  // Binding
  // ---------------------------------------------------------------------------

  /** What binding can produce for a text field: null, or a non-empty value with no blank at either end. */
  predicate IsBound(v: Option<string>) {
    v.Some? ==> v.value != "" && EndsKept(v.value, FormTrimChars)
  }

  /** A text or email field: the submitted string trimmed; nothing left binds to null. */
  function BindText(raw: Option<string>): (v: Option<string>)
    ensures raw.None? ==> v.None?
    ensures IsBound(v)
    ensures raw.Some? ==> (v.None? <==> AllStripped(raw.value, FormTrimChars))
  {
    if raw.None? then None
    else
      var t := TrimBy(raw.value, FormTrimChars);
      if t == "" then None else Some(t)
  }

  /** Blanks around a value are dropped by binding, and the value itself is kept whole. */
  lemma BindDropsSurroundingBlanks(a: string, m: string, b: string)
    requires AllStripped(a, FormTrimChars) && AllStripped(b, FormTrimChars)
    requires m != "" && EndsKept(m, FormTrimChars)
    ensures BindText(Some(a + m + b)) == Some(m)
  {
    TrimByUnique(a, m, b, FormTrimChars);
  }

  /** A bound value has nothing left for PHP's `trim` to remove. */
  lemma BoundTextIsTrimmed(bound: Option<string>)
    requires IsBound(bound)
    ensures bound.Some? ==> Trim(bound.value) == bound.value
  {
    if bound.Some? {
      var v := bound.value;
      TrimCharsAreFormTrimChars(v[0]);
      TrimCharsAreFormTrimChars(v[|v| - 1]);
      TrimByKeepsTrimmed(v, PhpTrimChars);
    }
  }

  // ---------------------------------------------------------------------------
  // VerificationCodeType
  // ---------------------------------------------------------------------------

  datatype VerificationCodeForm = VerificationCodeForm(email: Option<string>, code: Option<string>)

  /** Form options; `readonly_email` only sets an HTML attribute and defaults to false. */
  datatype VerificationFormOptions = VerificationFormOptions(readonlyEmail: bool)

  const DEFAULT_VERIFICATION_OPTIONS := VerificationFormOptions(readonlyEmail := false)

  /**
    What `/^\d{6}$/` accepts: without the D modifier `$` also matches before one final
    newline, so six digits followed by "\n" match too.
   */
  predicate MatchesSixDigitPattern(s: string) {
    (|s| == 6 && AllDigits(s)) || (|s| == 7 && AllDigits(s[..6]) && s[6] == '\n')
  }

  /** The code field: NotBlank, Length(exactly: 6), Regex. Length and Regex let a null through; NotBlank does not. */
  predicate CodeFieldValid(code: Option<string>) {
    NotBlank(code) && |code.value| == 6 && MatchesSixDigitPattern(code.value)
  }

  /** The email field: NotBlank, Email. */
  predicate VerificationEmailValid(email: Option<string>, emailFormatOk: bool) {
    NotBlank(email) && emailFormatOk
  }

  predicate VerificationFormValid(form: VerificationCodeForm, emailFormatOk: bool) {
    VerificationEmailValid(form.email, emailFormatOk) && CodeFieldValid(form.code)
  }

  /** Binding the code form: the email (EmailType) and the code (TextType) are both trimmed. */
  function BindVerificationForm(raw: VerificationCodeForm): (form: VerificationCodeForm)
    ensures form.email == BindText(raw.email) && form.code == BindText(raw.code)
  {
    VerificationCodeForm(BindText(raw.email), BindText(raw.code))
  }

  /** Together the three code constraints accept exactly the strings of six decimal digits. */
  lemma CodeFieldIsSixDigits(code: Option<string>)
    ensures CodeFieldValid(code) <==> code.Some? && |code.value| == 6 && AllDigits(code.value)
  {
  }

  /** The pattern alone would accept a trailing newline; the Length constraint is what rules it out. */
  lemma PatternAloneAdmitsTrailingNewline()
    ensures MatchesSixDigitPattern("123456\n") && !CodeFieldValid(Some("123456\n"))
  {
    assert "123456\n"[..6] == "123456";
  }

  /** Every generated code satisfies the code constraints, also when typed with blanks around it. */
  lemma GeneratedCodesPassTheForm(n: Draw, a: string, b: string)
    requires AllStripped(a, FormTrimChars) && AllStripped(b, FormTrimChars)
    ensures CodeFieldValid(Some(GenerateVerificationCode(n)))
    ensures BindText(Some(a + GenerateVerificationCode(n) + b)) == Some(GenerateVerificationCode(n))
  {
    var code := GenerateVerificationCode(n);
    CodeFieldIsSixDigits(Some(code));
    DigitsBindAsTyped(a, code, b);
  }

  lemma DigitsBindAsTyped(a: string, code: string, b: string)
    requires AllStripped(a, FormTrimChars) && AllStripped(b, FormTrimChars)
    requires code != "" && AllDigits(code)
    ensures BindText(Some(a + code + b)) == Some(code)
  {
    assert IsDigit(code[0]) && IsDigit(code[|code| - 1]);
    BindDropsSurroundingBlanks(a, code, b);
  }

  // ---------------------------------------------------------------------------
  // RegistrationFormType
  // ---------------------------------------------------------------------------

  /**
    The registration form. `password` and `passwordRepeat` are the two entries of the
    repeated `plainPassword` field; it and `agreeTerms` are not mapped onto the account.
   */
  datatype RegistrationForm = RegistrationForm(
    firstName: Option<string>,
    lastName: Option<string>,
    email: Option<string>,
    password: Option<string>,
    passwordRepeat: Option<string>,
    agreeTerms: bool)

  const MIN_PASSWORD_LENGTH := 6
  const MAX_PASSWORD_LENGTH := 4096

  /** Length(min: 6, max: 4096) on the first password entry. */
  predicate PasswordLengthValid(password: Option<string>) {
    password.Some? ==> MIN_PASSWORD_LENGTH <= |password.value| <= MAX_PASSWORD_LENGTH
  }

  /**
    Names and email NotBlank; the two password entries equal (otherwise the repeated
    field fails to bind), the password NotBlank and 6 to 4096 characters; terms accepted.
   */
  predicate RegistrationFormValid(form: RegistrationForm) {
    && NotBlank(form.firstName)
    && NotBlank(form.lastName)
    && NotBlank(form.email)
    && form.password == form.passwordRepeat
    && NotBlank(form.password)
    && PasswordLengthValid(form.password)
    && form.agreeTerms
  }

  /** The text fields of a registration form as binding leaves them. */
  predicate RegistrationFormBound(form: RegistrationForm) {
    IsBound(form.firstName) && IsBound(form.lastName) && IsBound(form.email)
  }

  /** Binding the registration form: names (TextType) and email (EmailType) are trimmed, the passwords are not. */
  function BindRegistrationForm(raw: RegistrationForm): (form: RegistrationForm)
    ensures RegistrationFormBound(form)
    ensures form.firstName == BindText(raw.firstName) && form.lastName == BindText(raw.lastName)
    ensures form.email == BindText(raw.email)
    ensures form.password == raw.password && form.passwordRepeat == raw.passwordRepeat
    ensures form.agreeTerms == raw.agreeTerms
  {
    raw.(firstName := BindText(raw.firstName), lastName := BindText(raw.lastName), email := BindText(raw.email))
  }

  /** A blank name binds to null and fails NotBlank; blank passwords are not trimmed and pass it. */
  lemma BlankNamesFailTheForm(raw: RegistrationForm, blanks: string)
    requires AllStripped(blanks, FormTrimChars)
    ensures raw.firstName == Some(blanks) ==> !RegistrationFormValid(BindRegistrationForm(raw))
    ensures raw.lastName == Some(blanks) ==> !RegistrationFormValid(BindRegistrationForm(raw))
    ensures NotBlank(Some(blanks)) == (blanks != "")
  {
  }

  /**
    NotBlank knows nothing of PHP's "0": a name "0", even typed with blanks around it, passes
    the form, here with an email typed without surrounding blanks.
   */
  lemma ZeroNamesPassTheForm(raw: RegistrationForm)
    requires raw.firstName == Some(" 0 ") && raw.lastName == Some("0")
    requires raw.email.Some? && raw.email.value != "" && EndsKept(raw.email.value, FormTrimChars)
    requires raw.password == raw.passwordRepeat == Some("secret") && raw.agreeTerms
    ensures BindRegistrationForm(raw).firstName == Some("0") && BindRegistrationForm(raw).lastName == Some("0")
    ensures BindRegistrationForm(raw).email == raw.email
    ensures RegistrationFormValid(BindRegistrationForm(raw))
  {
    ZeroBindsToZero();
    TrimByKeepsTrimmed(raw.email.value, FormTrimChars);
  }

  lemma ZeroBindsToZero()
    ensures BindText(Some(" 0 ")) == Some("0") && BindText(Some("0")) == Some("0")
  {
    assert AllStripped(" ", FormTrimChars) && AllStripped("", FormTrimChars);
    assert EndsKept("0", FormTrimChars);
    assert " " + "0" + " " == " 0 " && "" + "0" + "" == "0";
    BindDropsSurroundingBlanks(" ", "0", " ");
    BindDropsSurroundingBlanks("", "0", "");
  }

  // ---------------------------------------------------------------------------
  // ProfilEditType
  // ---------------------------------------------------------------------------

  datatype ProfileEditForm = ProfileEditForm(firstName: Option<string>, lastName: Option<string>, email: Option<string>)

  const MAX_NAME_LENGTH := 50
  const MAX_EMAIL_LENGTH := 180

  /** `\s` of PCRE: space, tab, LF, vertical tab, form feed, CR. */
  predicate IsRegexSpace(c: char) {
    c == ' ' || c == '\t' || c == '\n' || c == '\U{B}' || c == '\U{C}' || c == '\r'
  }

  /**
    The class `[a-zA-ZÀ-ÿ\s\-\']` on a UTF-8 string. The pattern has no `u` flag, so it
    matches bytes: `À-ÿ` is the byte C3, the range 80-C3 and the byte BF, which together
    admit exactly the two-byte encodings of U+0080 to U+00FF and no longer character.
   */
  predicate IsNameChar(c: char) {
    ('a' <= c <= 'z') || ('A' <= c <= 'Z') || ('\U{80}' <= c <= '\U{FF}')
    || IsRegexSpace(c) || c == '-' || c == '\''
  }

  predicate AllNameChars(s: string) {
    forall i :: 0 <= i < |s| ==> IsNameChar(s[i])
  }

  /** What `/^[...]*$/` accepts: without the D modifier `$` also matches before one final newline. */
  predicate MatchesNamePattern(s: string) {
    AllNameChars(s) || (s != [] && s[|s| - 1] == '\n' && AllNameChars(s[..|s| - 1]))
  }

  /** A newline is itself in the class, so the `$` rule admits nothing more: the pattern accepts exactly the strings of name characters. */
  lemma NamePatternIsItsClass(s: string)
    ensures MatchesNamePattern(s) <==> AllNameChars(s)
  {
    if s != [] && s[|s| - 1] == '\n' && AllNameChars(s[..|s| - 1]) {
      assert forall i :: 0 <= i < |s| - 1 ==> s[i] == s[..|s| - 1][i];
    }
  }

  /** Latin-1 letters pass; a letter beyond U+00FF, such as the double acute of "Erdős", does not. */
  lemma NameClassExamples()
    ensures MatchesNamePattern("Zoë Núñez-O'Brien")
    ensures !MatchesNamePattern("Erdős")
  {
    assert !IsNameChar("Erdős"[3]);
  }

  /** Length(max: 50) and Regex on an optional name; both let null and "" through. */
  predicate NameFieldValid(name: Option<string>) {
    name.None? || (|name.value| <= MAX_NAME_LENGTH && MatchesNamePattern(name.value))
  }

  /** NotBlank, Email and Length(max: 180) on the email. */
  predicate ProfileEmailValid(email: Option<string>, emailFormatOk: bool) {
    NotBlank(email) && emailFormatOk && |email.value| <= MAX_EMAIL_LENGTH
  }

  predicate ProfileEditValid(form: ProfileEditForm, emailFormatOk: bool) {
    NameFieldValid(form.firstName) && NameFieldValid(form.lastName) && ProfileEmailValid(form.email, emailFormatOk)
  }

  /** Binding the profile form: the two names (TextType) and the email (EmailType) are trimmed. */
  function BindProfileForm(raw: ProfileEditForm): (form: ProfileEditForm)
    ensures form.firstName == BindText(raw.firstName) && form.lastName == BindText(raw.lastName)
    ensures form.email == BindText(raw.email)
  {
    ProfileEditForm(BindText(raw.firstName), BindText(raw.lastName), BindText(raw.email))
  }

  /**
    A submitted name made of blanks binds to null and is accepted, so it clears the stored
    name; surrounding blanks do not count toward the 50 characters.
   */
  lemma BlankProfileNamesBindToNull(raw: ProfileEditForm, emailFormatOk: bool, a: string, m: string, b: string)
    requires AllStripped(a, FormTrimChars) && AllStripped(b, FormTrimChars)
    requires m != "" && EndsKept(m, FormTrimChars)
    ensures raw.firstName == Some(a + b) ==> BindProfileForm(raw).firstName == None
    ensures raw.firstName == Some(a + m + b) ==> BindProfileForm(raw).firstName == Some(m)
    ensures ((raw.firstName == Some(a + b) || raw.firstName.None?) && (raw.lastName == Some(a + b) || raw.lastName.None?)
             && ProfileEmailValid(BindText(raw.email), emailFormatOk)) ==> ProfileEditValid(BindProfileForm(raw), emailFormatOk)
  {
    assert AllStripped(a + b, FormTrimChars) by {
      assert forall k :: 0 <= k < |a + b| ==> (a + b)[k] == (if k < |a| then a[k] else b[k - |a|]);
    }
    BindDropsSurroundingBlanks(a, m, b);
  }

  /** Names are optional: with a good email, null or empty names are accepted; a name over 50 characters never is. */
  lemma ProfileNamesOptionalButBounded(form: ProfileEditForm, emailFormatOk: bool)
    ensures (ProfileEmailValid(form.email, emailFormatOk) && form.firstName in {None, Some("")}
             && form.lastName in {None, Some("")}) ==> ProfileEditValid(form, emailFormatOk)
    ensures form.firstName.Some? && |form.firstName.value| > MAX_NAME_LENGTH ==> !ProfileEditValid(form, emailFormatOk)
    ensures form.lastName.Some? && |form.lastName.value| > MAX_NAME_LENGTH ==> !ProfileEditValid(form, emailFormatOk)
  {
  }
}
