/** The save-time validations of the User model: name, email and password
    rules, reported as the set of rules a record breaks. */
module Validations {
  import opened Wrappers
  import opened Text
  import opened EmailFormat
  import opened Users

  const MaxNameLength: int := 50
  const MaxEmailLength: int := 255
  const MinPasswordLength: int := 6

  /** One failed rule, as ActiveModel would add it to `errors`. */
  datatype Violation =
    | NameBlank | NameTooLong
    | EmailBlank | EmailTooLong | EmailInvalid
    | PasswordBlank | PasswordTooShort

  /** `validates :name, presence: true, length: {maximum: 50}`. */
  function NameErrors(name: string): set<Violation>
  {
    (if IsBlank(name) then {NameBlank} else {})
    + (if |name| > MaxNameLength then {NameTooLong} else {})
  }

  /** `validates :email, presence: true, length: {maximum: 255}, format: ...`;
      every validator runs, so one email can break several rules at once. */
  function EmailErrors(email: string): set<Violation>
  {
    (if IsBlank(email) then {EmailBlank} else {})
    + (if |email| > MaxEmailLength then {EmailTooLong} else {})
    + (if ValidEmailFormat(email) then {} else {EmailInvalid})
  }

  /** `validates :password, presence: true, length: {minimum: 6}, allow_nil: true`:
      `allow_nil` skips both validators when no password is given. */
  function PasswordErrors(password: Option<string>): set<Violation>
  {
    match password
    case None => {}
    case Some(p) =>
      (if IsBlank(p) then {PasswordBlank} else {})
      + (if |p| < MinPasswordLength then {PasswordTooShort} else {})
  }

  /** The rules a valid record satisfies, stated against the email regex itself. */
  ghost predicate ValidRecord(u: User)
  {
    && !IsBlank(u.name) && |u.name| <= MaxNameLength
    && !IsBlank(u.email) && |u.email| <= MaxEmailLength && RegexMatch(u.email)
    && (u.password.None? || (!IsBlank(u.password.value) && |u.password.value| >= MinPasswordLength))
  }

  /** `valid?`: the set of violated rules, empty exactly when the record is valid. */
  function Validate(u: User): (errors: set<Violation>)
    ensures errors == {} <==> ValidRecord(u)
    ensures NameBlank in errors <==> IsBlank(u.name)
    ensures NameTooLong in errors <==> |u.name| > MaxNameLength
    ensures EmailBlank in errors <==> IsBlank(u.email)
    ensures EmailTooLong in errors <==> |u.email| > MaxEmailLength
    ensures EmailInvalid in errors <==> !RegexMatch(u.email)
    ensures PasswordBlank in errors <==> u.password.Some? && IsBlank(u.password.value)
    ensures PasswordTooShort in errors <==> u.password.Some? && |u.password.value| < MinPasswordLength
    ensures EmailBlank in errors ==> EmailInvalid in errors
    ensures PasswordBlank in errors || PasswordTooShort in errors ==> u.password.Some?
  {
    ValidEmailFormatMatchesRegex(u.email);
    FormatImpliesPresent(u.email);
    NameErrors(u.name) + EmailErrors(u.email) + PasswordErrors(u.password)
  }

  /** Downcasing the email never changes which rules a record breaks. */
  lemma DowncasePreservesValidity(u: User)
    ensures Validate(DowncaseEmail(u)) == Validate(u)
    ensures ValidRecord(DowncaseEmail(u)) <==> ValidRecord(u)
  {
    DowncasePreservesBlank(u.email);
    DowncasePreservesFormat(u.email);
  }
}
