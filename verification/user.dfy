/** The User record and its credential/token state machine: remember-me
    tokens, account activation and password reset. Every operation is a pure
    transition over an immutable record; the clock reading (`now`, in whole
    seconds) and the freshly drawn random token are passed in. */
module Users {
  import opened Wrappers
  import opened Text
  import opened Hashing

  /** A point in time, in whole seconds. */
  type Time = int

  /** How long a password-reset link stays usable: two hours. */
  const ResetValiditySeconds: int := 2 * 60 * 60

  /** One user account. The three `...Token` attributes are transient: they
      hold the plaintext token only for the life of the in-memory object, and
      only their digests are persisted. `password` is the virtual attribute of
      `has_secure_password`, `None` when no new password was given. */
  datatype User = User(
    name: string,
    email: string,
    password: Option<string>,
    passwordDigest: Option<Digest>,
    rememberDigest: Option<Digest>,
    activationDigest: Option<Digest>,
    activated: bool,
    activatedAt: Option<Time>,
    resetDigest: Option<Digest>,
    resetSentAt: Option<Time>,
    rememberToken: Option<string>,
    activationToken: Option<string>,
    resetToken: Option<string>)

  /** The attribute names accepted by `authenticated?`, each naming one digest column. */
  datatype Selector = Remember | Activation | Reset

  /** The digest column a selector names (`send("#{attribute}_digest")`). */
  function DigestOf(u: User, attr: Selector): Option<Digest>
  {
    match attr
    case Remember => u.rememberDigest
    case Activation => u.activationDigest
    case Reset => u.resetDigest
  }

  /** `authenticated?`: a missing digest answers false; otherwise the hasher
      decides whether the token matches the stored digest. */
  function Authenticated(u: User, attr: Selector, token: string, h: Hasher): (r: bool)
    ensures DigestOf(u, attr).None? ==> !r
    ensures Sound(h) && DigestOf(u, attr) == Some(h.digest(token)) ==> r
    ensures forall s :: Sound(h) && CollisionFree(h) && DigestOf(u, attr) == Some(h.digest(s)) ==>
      (r <==> token == s)
  {
    match DigestOf(u, attr)
    case None => false
    case Some(d) => h.verify(d, token)
  }

  /** The `before_save` callback: store the email in lower case. */
  function DowncaseEmail(u: User): (r: User)
    ensures IsLowercase(r.email) && |r.email| == |u.email|
    ensures r.email == Downcase(u.email)
    ensures r.(email := u.email) == u
    ensures IsLowercase(u.email) ==> r == u
  {
    assert IsLowercase(u.email) ==> Downcase(u.email) == u.email by {
      if IsLowercase(u.email) { DowncaseFixesLowercase(u.email); }
    }
    u.(email := Downcase(u.email))
  }

  /** `update_attribute` writes one column and saves without validating; the
      save still runs the `before_save` callback. `changed` is the record
      with the column already written. */
  function UpdateAttribute(changed: User): User
  {
    DowncaseEmail(changed)
  }

  /** `remember`: keep the plaintext token on the object and persist its digest. */
  function RememberUser(u: User, token: string, h: Hasher): (r: User)
    ensures r.rememberToken == Some(token)
    ensures Sound(h) ==> Authenticated(r, Remember, token, h)
    ensures r.rememberDigest == Some(h.digest(token))
    ensures r.(rememberDigest := u.rememberDigest, rememberToken := u.rememberToken, email := u.email) == u
    ensures r.email == Downcase(u.email)
  {
    var withToken := u.(rememberToken := Some(token));
    UpdateAttribute(withToken.(rememberDigest := Some(h.digest(token))))
  }

  /** `forget`: clear the remember digest, which revokes every remember-me token. */
  function Forget(u: User): (r: User)
    ensures r.rememberDigest.None?
    ensures forall h, t :: !Authenticated(r, Remember, t, h)
    ensures r.(rememberDigest := u.rememberDigest, email := u.email) == u
    ensures r.email == Downcase(u.email)
  {
    UpdateAttribute(u.(rememberDigest := None))
  }

  /** `activate`: two `update_attribute` calls, first the flag, then the timestamp. */
  function Activate(u: User, now: Time): (r: User)
    ensures r.activated && r.activatedAt == Some(now)
    ensures r.(activated := u.activated, activatedAt := u.activatedAt, email := u.email) == u
    ensures r.email == Downcase(u.email)
  {
    DowncaseIdempotent(u.email);
    var flagged := UpdateAttribute(u.(activated := true));
    UpdateAttribute(flagged.(activatedAt := Some(now)))
  }

  /** `create_reset_digest`: draw a reset token, persist its digest, then
      persist the time it was sent. */
  function CreateResetDigest(u: User, token: string, now: Time, h: Hasher): (r: User)
    ensures r.resetToken == Some(token)
    ensures r.resetDigest == Some(h.digest(token)) && r.resetSentAt == Some(now)
    ensures Sound(h) ==> Authenticated(r, Reset, token, h)
    ensures r.(resetToken := u.resetToken, resetDigest := u.resetDigest,
               resetSentAt := u.resetSentAt, email := u.email) == u
    ensures r.email == Downcase(u.email)
  {
    DowncaseIdempotent(u.email);
    var withToken := u.(resetToken := Some(token));
    var digested := UpdateAttribute(withToken.(resetDigest := Some(h.digest(token))));
    UpdateAttribute(digested.(resetSentAt := Some(now)))
  }

  /** The error `password_reset_expired?` raises when no reset was ever issued
      (comparing `nil` with a time). */
  datatype ExpiryError = NoResetIssued

  /** `password_reset_expired?`: whether the reset was sent strictly more than
      two hours before `now`. */
  function PasswordResetExpired(u: User, now: Time): (r: Result<bool, ExpiryError>)
    ensures r.Failure? <==> u.resetSentAt.None?
    ensures r.Success? ==> (r.value <==> now - u.resetSentAt.value > ResetValiditySeconds)
  {
    match u.resetSentAt
    case None => Failure(NoResetIssued)
    case Some(sent) => Success(sent < now - ResetValiditySeconds)
  }

  /** The `before_create` callback: draw the activation token and store its digest
      (plain attribute writes, persisted by the insert that follows). */
  function CreateActivationDigest(u: User, token: string, h: Hasher): (r: User)
    ensures r.activationToken == Some(token)
    ensures r.activationDigest == Some(h.digest(token))
    ensures Sound(h) ==> Authenticated(r, Activation, token, h)
    ensures r.(activationToken := u.activationToken, activationDigest := u.activationDigest) == u
  {
    u.(activationToken := Some(token), activationDigest := Some(h.digest(token)))
  }

  /** Activating twice is activating once at the later time: only the
      timestamp is refreshed. */
  lemma ActivateIdempotent(u: User, t1: Time, t2: Time)
    ensures Activate(Activate(u, t1), t2) == Activate(u, t2)
  {
  }

  /** Right after a reset is issued, the link has not expired and the token
      authenticates against the reset digest. */
  lemma ResetFreshAtIssue(u: User, token: string, now: Time, h: Hasher)
    requires Sound(h)
    ensures PasswordResetExpired(CreateResetDigest(u, token, now, h), now) == Success(false)
    ensures Authenticated(CreateResetDigest(u, token, now, h), Reset, token, h)
  {
  }

  /** Once expired, a reset link stays expired as time advances. */
  lemma ExpiryMonotone(u: User, now: Time, later: Time)
    requires now <= later
    requires PasswordResetExpired(u, now) == Success(true)
    ensures PasswordResetExpired(u, later) == Success(true)
  {
  }

  /** The two-hour boundary is strict: a link issued at `sent` is still good
      exactly two hours later and expired one second after that. */
  lemma ExpiryBoundary(u: User, token: string, sent: Time, h: Hasher)
    ensures PasswordResetExpired(CreateResetDigest(u, token, sent, h), sent + ResetValiditySeconds) == Success(false)
    ensures PasswordResetExpired(CreateResetDigest(u, token, sent, h), sent + ResetValiditySeconds + 1) == Success(true)
  {
  }

  /** With a collision-free hasher, after `remember` with `token` the remember
      check accepts exactly that token; after `forget` it accepts none. */
  lemma RememberAcceptsOnlyItsToken(u: User, token: string, other: string, h: Hasher)
    requires Sound(h) && CollisionFree(h)
    ensures Authenticated(RememberUser(u, token, h), Remember, other, h) <==> other == token
    ensures !Authenticated(Forget(RememberUser(u, token, h)), Remember, token, h)
  {
  }
}
