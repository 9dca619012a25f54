/** Saving a User: validate, then run the `before_save` and `before_create`
    callbacks, as ActiveRecord orders them. Also the invariant every stored
    record keeps, and that the token operations preserve it. */
module Lifecycle {
  import opened Wrappers
  import opened Text
  import opened Hashing
  import opened EmailFormat
  import opened Users
  import opened Validations

  /** An insert of a new record, carrying the activation token the
      `before_create` callback draws, or an update of an existing one. */
  datatype SaveKind = Create(activationToken: string) | Update

  /** What holds of every record in the store: it passed validation and its
      email is lower case. */
  ghost predicate Stored(u: User)
  {
    ValidRecord(u) && IsLowercase(u.email)
  }

  /** A record built from the sign-up form: nothing activated, no digests yet. */
  function NewUser(name: string, email: string, password: Option<string>): User
  {
    User(name, email, password, None, None, None, false, None, None, None, None, None, None)
  }

  /** `save`: a record that breaks a rule is rejected with the rules it breaks;
      otherwise the email is downcased and, on insert, the activation digest
      is created. */
  function Save(u: User, kind: SaveKind, h: Hasher): (r: Result<User, set<Violation>>)
    ensures r.Failure? <==> !ValidRecord(u)
    ensures r.Failure? ==> r.error != {} && r.error == Validate(u)
    ensures r.Success? ==> Stored(r.value) && r.value.email == Downcase(u.email)
    ensures r.Success? && kind.Update? ==> r.value.(email := u.email) == u
    ensures r.Success? && kind.Create? ==>
      && r.value.(email := u.email, activationToken := u.activationToken,
                  activationDigest := u.activationDigest) == u
      && r.value.activationToken == Some(kind.activationToken)
      && r.value.activationDigest == Some(h.digest(kind.activationToken))
      && (Sound(h) ==> Authenticated(r.value, Activation, kind.activationToken, h))
  {
    DowncasePreservesValidity(u);
    var errors := Validate(u);
    if errors != {} then Failure(errors)
    else
      var saved := DowncaseEmail(u);
      match kind
      case Create(token) => Success(CreateActivationDigest(saved, token, h))
      case Update => Success(saved)
  }

  /** The token operations never touch name, email or password, so a stored
      record stays stored and keeps its email exactly. */
  lemma TokenOperationsPreserveStored(u: User, token: string, now: Time, h: Hasher)
    requires Stored(u)
    ensures Stored(RememberUser(u, token, h)) && RememberUser(u, token, h).email == u.email
    ensures Stored(Forget(u)) && Forget(u).email == u.email
    ensures Stored(Activate(u, now)) && Activate(u, now).email == u.email
    ensures Stored(CreateResetDigest(u, token, now, h)) && CreateResetDigest(u, token, now, h).email == u.email
  {
  }

  /** Sign-up with a mixed-case email stores it in lower case and leaves an
      activation token that authenticates. */
  lemma SignUpScenario(token: string, h: Hasher)
    requires Sound(h)
    ensures var r := Save(NewUser("Ann", "Ann@Example.COM", Some("secret1")), Create(token), h);
      && r.Success?
      && r.value.email == "ann@example.com"
      && !r.value.activated
      && Authenticated(r.value, Activation, token, h)
  {
    var email := "Ann@Example.COM";
    var u := NewUser("Ann", email, Some("secret1"));
    assert RegexSplit(email, 3, 11);
    assert !IsBlank(u.name) by { assert !IsSpace(u.name[0]); }
    assert !IsBlank(u.email) by { assert !IsSpace(u.email[0]); }
    assert !IsBlank(u.password.value) by { assert !IsSpace(u.password.value[0]); }
    assert ValidRecord(u);
    var r := Save(u, Create(token), h);
    assert r.Success?;
    LowercaseLiteral(email);
  }

  /** The ASCII downcase of the scenario's email. */
  lemma LowercaseLiteral(email: string)
    requires email == "Ann@Example.COM"
    ensures Downcase(email) == "ann@example.com"
  {
  }
}
