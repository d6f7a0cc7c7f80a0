/**
 * The `validateRegistration` middleware of routes/auth.js: name, then email,
 * then password; the first failing check answers 400 with its message and
 * the later checks are not looked at; when all pass, the request goes on.
 */
module Registration {
  import opened Wrappers
  import opened Http
  import opened CharClasses
  import opened EmailRule
  import opened PasswordRule

  /** The minimum name length, counted in UTF-16 code units as JavaScript does. */
  const MIN_NAME_LENGTH: nat := 2

  const NAME_MESSAGE := "Name must be at least 2 characters long"
  const EMAIL_MESSAGE := "Please provide a valid email address"
  const PASSWORD_MESSAGE := "Password must be at least 8 characters long and contain at least one uppercase letter, one lowercase letter, one number, and one special character"

  /** The three fields the validator reads from the request body; a field may be missing. */
  datatype RegistrationBody = RegistrationBody(
    name: Option<string>,
    email: Option<string>,
    password: Option<string>)

  /** Either the middleware calls `next`, or it answers with a status and a message. */
  datatype Verdict = Next | Reject(status: nat, message: string)

  /** JavaScript truthiness of a string field: present and not empty. */
  predicate Truthy(field: Option<string>) {
    field.Some? && field.value != ""
  }

  /** `!name || name.length < 2` fails. */
  predicate NameAccepted(name: Option<string>) {
    Truthy(name) && Utf16Length(name.value) >= MIN_NAME_LENGTH
  }

  /** `!email || !emailRegex.test(email)` fails. */
  predicate EmailAccepted(email: Option<string>) {
    Truthy(email) && IsValidEmail(email.value)
  }

  /** `!password || !passwordRegex.test(password)` fails. */
  predicate PasswordAccepted(password: Option<string>) {
    Truthy(password) && IsStrongPassword(password.value)
  }

  /** The email field is present and the email regular expression matches it. */
  ghost predicate EmailMatches(email: Option<string>) {
    email.Some? && MatchesEmailPattern(email.value)
  }

  /** The password field is present and the password regular expression matches it. */
  ghost predicate PasswordMatches(password: Option<string>) {
    password.Some? && MatchesPasswordPattern(password.value)
  }

  /** The falsy test adds nothing to the regular expression: it never matches the empty string. */
  lemma EmailFieldCheck(email: Option<string>)
    ensures EmailAccepted(email) <==> EmailMatches(email)
  {
    if email.Some? {
      EmailCheckMatchesPattern(email.value);
    }
  }

  /** As for the email, the password's falsy test is subsumed by its regular expression. */
  lemma PasswordFieldCheck(password: Option<string>)
    ensures PasswordAccepted(password) <==> PasswordMatches(password)
  {
    if password.Some? {
      PasswordCheckMatchesPattern(password.value);
    }
  }

  /**
   * The middleware passes the request on exactly when all three fields are
   * acceptable; every refusal is a 400 carrying one of the three messages.
   */
  function ValidateRegistration(body: RegistrationBody): (v: Verdict)
    ensures v.Next? <==>
      NameAccepted(body.name) && EmailMatches(body.email) && PasswordMatches(body.password)
    ensures v.Reject? ==> v.status == BAD_REQUEST
    ensures v.Reject? ==> v.message in {NAME_MESSAGE, EMAIL_MESSAGE, PASSWORD_MESSAGE}
  {
    EmailFieldCheck(body.email);
    PasswordFieldCheck(body.password);
    if !NameAccepted(body.name) then Reject(BAD_REQUEST, NAME_MESSAGE)
    else if !EmailAccepted(body.email) then Reject(BAD_REQUEST, EMAIL_MESSAGE)
    else if !PasswordAccepted(body.password) then Reject(BAD_REQUEST, PASSWORD_MESSAGE)
    else Next
  }

  /**
   * A missing name, or one shorter than two code units, is refused with the
   * name message whatever the email and password are: they are not examined.
   */
  lemma NameCheckComesFirst(name: Option<string>, email: Option<string>, password: Option<string>)
    requires name.None? || Utf16Length(name.value) < MIN_NAME_LENGTH
    ensures ValidateRegistration(RegistrationBody(name, email, password)) == Reject(BAD_REQUEST, NAME_MESSAGE)
  {
  }

  /**
   * With an acceptable name, an email the regular expression does not match is
   * refused with the email message whatever the password is.
   */
  lemma EmailCheckComesSecond(name: Option<string>, email: Option<string>, password: Option<string>)
    requires NameAccepted(name) && !EmailMatches(email)
    ensures ValidateRegistration(RegistrationBody(name, email, password)) == Reject(BAD_REQUEST, EMAIL_MESSAGE)
  {
    EmailFieldCheck(email);
  }

  /** The password is missing or breaks one of the rules the password message lists. */
  ghost predicate BreaksPasswordRule(password: Option<string>) {
    password.None? || !ObeysPasswordRules(password.value)
  }

  /**
   * With an acceptable name and email, a password that breaks any rule is
   * refused with the password message.
   */
  lemma PasswordCheckComesLast(name: Option<string>, email: Option<string>, password: Option<string>)
    requires NameAccepted(name) && EmailMatches(email) && BreaksPasswordRule(password)
    ensures ValidateRegistration(RegistrationBody(name, email, password)) == Reject(BAD_REQUEST, PASSWORD_MESSAGE)
  {
    EmailFieldCheck(email);
    PasswordFieldCheck(password);
    if password.Some? {
      PasswordAcceptanceCharacterized(password.value);
    }
  }

  /**
   * When the request is passed on, the name has at least two code units, the
   * email has the shape its regular expression describes, and the password
   * obeys every rule.
   */
  lemma AcceptedRegistration(body: RegistrationBody)
    requires ValidateRegistration(body).Next?
    ensures body.name.Some? && Utf16Length(body.name.value) >= MIN_NAME_LENGTH
    ensures body.email.Some? && NoWhitespace(body.email.value) && multiset(body.email.value)['@'] == 1
    ensures body.password.Some? && !BreaksPasswordRule(body.password)
  {
    EmailAcceptanceCharacterized(body.email.value);
    PasswordAcceptanceCharacterized(body.password.value);
  }
}
