/**
  The early-return validation that runs before any database or hashing work in
  `addUser` (main.py:358-375) and `resetPassword` (main.py:477-489), and the
  presence check of `submit_twilio_config` (main.py:150-170). A form field that
  the request does not carry is `None`; Python's `not field` holds for `None`
  and for the empty string.
 */
module Forms {
  import opened Options

  /* ---------------- The email pattern of line 364 ---------------- */

  /** `\w`, read over ASCII: letters, digits and the underscore. */
  predicate IsWordChar(c: char)
  {
    ('a' <= c <= 'z') || ('A' <= c <= 'Z') || ('0' <= c <= '9') || c == '_'
  }

  /** The class `[\w\.-]`. */
  predicate IsAddressChar(c: char)
  {
    IsWordChar(c) || c == '.' || c == '-'
  }

  predicate AllAddressChars(s: string)
  {
    forall k :: 0 <= k < |s| ==> IsAddressChar(s[k])
  }

  predicate AllWordChars(s: string)
  {
    forall k :: 0 <= k < |s| ==> IsWordChar(s[k])
  }

  /** `s` is `local + "@" + domain + "." + suffix`, split at `at` and `dot`, with
      `local` and `domain` in `[\w\.-]+` and `suffix` in `\w+`. */
  ghost predicate SplitsAsEmail(s: string, at: int, dot: int)
  {
    && 0 < at && at + 1 < dot && dot + 1 < |s|
    && s[at] == '@' && s[dot] == '.'
    && AllAddressChars(s[..at]) && AllAddressChars(s[at + 1..dot]) && AllWordChars(s[dot + 1..])
  }

  /** Reference definition: the language of `[\w\.-]+@[\w\.-]+\.\w+`. */
  ghost predicate InEmailLanguage(s: string)
  {
    exists at, dot :: SplitsAsEmail(s, at, dot)
  }

  /** Python's `re.match` of the anchored pattern: `$` matches at the very end
      or just before a final newline. */
  ghost predicate MatchesEmailPattern(s: string)
  {
    InEmailLanguage(s) || (|s| > 0 && s[|s| - 1] == '\n' && InEmailLanguage(s[..|s| - 1]))
  }

  /** The first position of `c` in `s`. */
  function IndexOf(s: string, c: char): (r: Option<nat>)
    ensures r.None? ==> forall k :: 0 <= k < |s| ==> s[k] != c
    ensures r.Some? ==> r.value < |s| && s[r.value] == c
    ensures r.Some? ==> forall k :: 0 <= k < r.value ==> s[k] != c
    decreases |s|
  {
    if s == [] then None
    else if s[0] == c then Some(0)
    else match IndexOf(s[1..], c)
      case None => None
      case Some(i) => Some(i + 1)
  }

  /** The last position of `c` in `s`. */
  function LastIndexOf(s: string, c: char): (r: Option<nat>)
    ensures r.None? ==> forall k :: 0 <= k < |s| ==> s[k] != c
    ensures r.Some? ==> r.value < |s| && s[r.value] == c
    ensures r.Some? ==> forall k :: r.value < k < |s| ==> s[k] != c
    decreases |s|
  {
    if s == [] then None
    else if s[|s| - 1] == c then Some(|s| - 1)
    else LastIndexOf(s[..|s| - 1], c)
  }

  /** Decides `[\w\.-]+@[\w\.-]+\.\w+` by locating the first `@`, then the last
      `.` after it. */
  predicate EmailShaped(s: string)
  {
    match IndexOf(s, '@')
    case None => false
    case Some(at) =>
      var domain := s[at + 1..];
      match LastIndexOf(domain, '.')
      case None => false
      case Some(dot) =>
        && 0 < at && 0 < dot && dot + 1 < |domain|
        && AllAddressChars(s[..at]) && AllAddressChars(domain[..dot])
        && AllWordChars(domain[dot + 1..])
  }

  lemma EmailShapedFromSplit(s: string, at: int, dot: int)
    requires SplitsAsEmail(s, at, dot)
    ensures EmailShaped(s)
  {
    assert forall k :: 0 <= k < at ==> s[..at][k] == s[k];
    var i := IndexOf(s, '@');
    assert i == Some(at);
    var domain := s[at + 1..];
    assert domain[dot - at - 1] == '.';
    assert forall k :: dot - at - 1 < k < |domain| ==> domain[k] == s[dot + 1..][k - (dot - at)];
    var d := LastIndexOf(domain, '.');
    assert d == Some(dot - at - 1);
    assert domain[..dot - at - 1] == s[at + 1..dot];
    assert domain[dot - at..] == s[dot + 1..];
  }

  lemma SplitFromEmailShaped(s: string)
    requires EmailShaped(s)
    ensures InEmailLanguage(s)
  {
    var at := IndexOf(s, '@').value;
    var domain := s[at + 1..];
    var d := LastIndexOf(domain, '.').value;
    var dot := at + 1 + d;
    assert domain[..d] == s[at + 1..dot];
    assert domain[d + 1..] == s[dot + 1..];
    assert SplitsAsEmail(s, at, dot);
  }

  /** The scanner decides exactly the language of the pattern. */
  lemma EmailShapedIffInLanguage(s: string)
    ensures EmailShaped(s) <==> InEmailLanguage(s)
  {
    if EmailShaped(s) {
      SplitFromEmailShaped(s);
    }
    if InEmailLanguage(s) {
      var at, dot :| SplitsAsEmail(s, at, dot);
      EmailShapedFromSplit(s, at, dot);
    }
  }

  /** Line 365: `re.match(email_pattern, email)` succeeds. */
  predicate EmailMatches(s: string)
    ensures EmailMatches(s) <==> MatchesEmailPattern(s)
  {
    EmailShapedIffInLanguage(s);
    if s == [] then EmailShaped(s)
    else
      EmailShapedIffInLanguage(s[..|s| - 1]);
      EmailShaped(s) || (s[|s| - 1] == '\n' && EmailShaped(s[..|s| - 1]))
  }

  /* ---------------- Registration (lines 358-375) ---------------- */

  /** Python's `not field`. */
  predicate Blank(field: Option<string>)
  {
    field.None? || field.value == ""
  }

  /** Password length required at lines 373 and 487. */
  const MinPasswordLength: nat := 8

  datatype Verdict<E> = Accepted | Rejected(error: E)

  datatype RegistrationError = FieldsMissing | InvalidEmail | PasswordsDiffer | PasswordTooShort

  /** The message rendered for each rejection. */
  function RegistrationMessage(e: RegistrationError): string
  {
    match e
    case FieldsMissing => "All fields are required!"
    case InvalidEmail => "Invalid email format!"
    case PasswordsDiffer => "Passwords do not match!"
    case PasswordTooShort => "Password must be at least 8 characters long!"
  }

  /** Each rejection renders its own message, so the page tells the user which
      check failed. */
  lemma RegistrationMessageIdentifiesError(e1: RegistrationError, e2: RegistrationError)
    ensures RegistrationMessage(e1) != ""
    ensures RegistrationMessage(e1) == RegistrationMessage(e2) <==> e1 == e2
  {
  }

  /** The checks of `addUser`, in source order, each returning on failure. Each
      rejection happens exactly when every earlier check passed and its own
      check failed. A form is accepted exactly when all four checks pass. */
  function ValidateRegistration(name: Option<string>, email: Option<string>,
                                password: Option<string>, confirm: Option<string>)
    : (v: Verdict<RegistrationError>)
    ensures v == Rejected(FieldsMissing) <==> Blank(name) || Blank(email) || Blank(password) || Blank(confirm)
    ensures v == Rejected(InvalidEmail) <==>
      !Blank(name) && !Blank(email) && !Blank(password) && !Blank(confirm)
      && !MatchesEmailPattern(email.value)
    ensures v == Rejected(PasswordsDiffer) <==>
      !Blank(name) && !Blank(email) && !Blank(password) && !Blank(confirm)
      && MatchesEmailPattern(email.value) && password.value != confirm.value
    ensures v == Rejected(PasswordTooShort) <==>
      !Blank(name) && !Blank(email) && !Blank(password) && !Blank(confirm)
      && MatchesEmailPattern(email.value) && password.value == confirm.value
      && |password.value| < MinPasswordLength
    ensures v.Accepted? <==>
      !Blank(name) && !Blank(email) && !Blank(password) && !Blank(confirm)
      && MatchesEmailPattern(email.value) && password.value == confirm.value
      && |password.value| >= MinPasswordLength
  {
    if Blank(email) || Blank(password) || Blank(confirm) || Blank(name) then Rejected(FieldsMissing)
    else if !EmailMatches(email.value) then Rejected(InvalidEmail)
    else if password.value != confirm.value then Rejected(PasswordsDiffer)
    else if |password.value| < MinPasswordLength then Rejected(PasswordTooShort)
    else Accepted
  }

  /* ---------------- Password reset (lines 477-489) ---------------- */

  datatype ResetError = ResetFieldsMissing | NewPasswordsDiffer | NewPasswordTooShort

  /** The message flashed for each rejection. */
  function ResetMessage(e: ResetError): string
  {
    match e
    case ResetFieldsMissing => "All fields are required."
    case NewPasswordsDiffer => "New password and confirm password do not match."
    case NewPasswordTooShort => "New password must be at least 8 characters long."
  }

  /** Each rejection flashes its own message. */
  lemma ResetMessageIdentifiesError(e1: ResetError, e2: ResetError)
    ensures ResetMessage(e1) != ""
    ensures ResetMessage(e1) == ResetMessage(e2) <==> e1 == e2
  {
  }

  /** The checks of `resetPassword`, in source order. The old password is only
      required to be present here; it is compared against the stored hash later. */
  function ValidatePasswordReset(oldPassword: Option<string>, newPassword: Option<string>, confirm: Option<string>)
    : (v: Verdict<ResetError>)
    ensures v == Rejected(ResetFieldsMissing) <==> Blank(oldPassword) || Blank(newPassword) || Blank(confirm)
    ensures v == Rejected(NewPasswordsDiffer) <==>
      !Blank(oldPassword) && !Blank(newPassword) && !Blank(confirm) && newPassword.value != confirm.value
    ensures v == Rejected(NewPasswordTooShort) <==>
      !Blank(oldPassword) && !Blank(newPassword) && !Blank(confirm) && newPassword.value == confirm.value
      && |newPassword.value| < MinPasswordLength
    ensures v.Accepted? <==>
      !Blank(oldPassword) && !Blank(newPassword) && !Blank(confirm) && newPassword.value == confirm.value
      && |newPassword.value| >= MinPasswordLength
  {
    if Blank(oldPassword) || Blank(newPassword) || Blank(confirm) then Rejected(ResetFieldsMissing)
    else if newPassword.value != confirm.value then Rejected(NewPasswordsDiffer)
    else if |newPassword.value| < MinPasswordLength then Rejected(NewPasswordTooShort)
    else Accepted
  }

  /** A password that registration accepts is one a reset accepts as the new
      password, and the other way round: both apply the same two rules. */
  lemma PasswordRulesAgree(name: string, email: string, oldPassword: string, password: string, confirm: string)
    requires name != "" && oldPassword != ""
    requires MatchesEmailPattern(email)
    ensures ValidateRegistration(Some(name), Some(email), Some(password), Some(confirm)).Accepted?
      <==> ValidatePasswordReset(Some(oldPassword), Some(password), Some(confirm)).Accepted?
  {
  }

  /* ---------------- Telephony configuration (lines 150-170) ---------------- */

  /** The JSON fields `submit_twilio_config` reads. */
  datatype ConfigForm = ConfigForm(
    accountSid: Option<string>,
    authToken: Option<string>,
    phoneNumber: Option<string>,
    customerNumber: Option<string>)

  /** What is stored in the session. */
  datatype TwilioConfig = TwilioConfig(
    accountSid: string,
    authToken: string,
    phoneNumber: string,
    customerNumber: Option<string>)

  datatype ConfigResponse =
    | Stored(config: TwilioConfig)  // saved, then redirect to the query page
    | FieldsRequired                // 400 "All fields are required!"
    | InvalidCredentials            // the exception path: the body is not a JSON object

  /** `submit_twilio_config`. `body` is None when the request has no JSON object
      to read fields from, which makes `data.get` raise. Only the account SID,
      auth token and telephony number must be present. The customer number is
      stored as given, even when it is absent. */
  function SubmitTwilioConfig(body: Option<ConfigForm>): (r: ConfigResponse)
    ensures r == InvalidCredentials <==> body.None?
    ensures r == FieldsRequired <==>
      body.Some? && (Blank(body.value.accountSid) || Blank(body.value.authToken) || Blank(body.value.phoneNumber))
    ensures r.Stored? ==> (
      && body.Some?
      && Some(r.config.accountSid) == body.value.accountSid && r.config.accountSid != ""
      && Some(r.config.authToken) == body.value.authToken && r.config.authToken != ""
      && Some(r.config.phoneNumber) == body.value.phoneNumber && r.config.phoneNumber != ""
      && r.config.customerNumber == body.value.customerNumber)
  {
    match body
    case None => InvalidCredentials
    case Some(form) =>
      if Blank(form.accountSid) || Blank(form.authToken) || Blank(form.phoneNumber) then FieldsRequired
      else Stored(TwilioConfig(form.accountSid.value, form.authToken.value, form.phoneNumber.value, form.customerNumber))
  }
}
