# User account model: credentials, tokens and save-time validation

This project models the `User` record of a Rails sample application in Dafny
and proves properties of it. It covers two parts:

- The credential and token state machine. It handles remember-me tokens,
  account activation and password reset. A record holds three nullable digest
  columns (remember, activation, reset) plus `activated`, `activated_at` and
  `reset_sent_at`. The operations `remember`, `forget`, `activate`,
  `create_reset_digest` and the `before_create` hook `create_activation_digest`
  change these fields. `authenticated?` and `password_reset_expired?` read them.
- The save-time validator and normaliser. This covers the name, email and
  password rules, the email regex `VALID_EMAIL_REGEX`, and the `before_save`
  hook `downcase_email`.

Every operation is a pure function from one immutable `User` value to the next.
Some things the application gets from its environment are passed in as
arguments instead:

- The clock reading is an integer `now`, in seconds.
- Each freshly drawn random token is a string argument.
- The bcrypt hasher is a `Hasher` value: a `digest` function and a `verify`
  function. Properties that need the hasher to be correct assume its one
  axiom, `verify(digest(s), s)`, which is the predicate `Hashing.Sound`.
  Properties that need a wrong token to fail also assume `CollisionFree`.
  `Hashing.AssumptionsSatisfiable` shows that both assumptions can hold at once.

Files:

- `wrappers.dfy`: the `Option` and `Result` types.
- `hashing.dfy`: the abstract hasher.
- `text.dfy`: character classes, `blank?` and ASCII `downcase`.
- `email_format.dfy`: the email regex as a predicate, a checker for it, and
  the facts linking the two.
- `user.dfy`: the record and the token operations.
- `validation.dfy`: the validators.
- `lifecycle.dfy`: `save` with its callbacks, and the invariant kept by stored
  records.

Points where the code behaves differently from what one might expect:

- **Order of validation and downcasing.** One might expect the email to be
  lower-cased before the format and uniqueness checks run. In the code, `downcase_email` is a `before_save` callback. ActiveRecord runs
  validations before `before_save`. So the raw email is validated, and it is
  downcased afterwards. The model follows the code. `Validations.DowncasePreservesValidity`
  proves that, with ASCII case mapping, the two orders give the same verdict.
- **Token operations also downcase the email.** `remember`, `forget`,
  `activate` and `create_reset_digest` write through `update_attribute`.
  `update_attribute` saves without validating, but it still runs `before_save`.
  The model therefore downcases the email in each of these operations. On a
  stored record the email is already lower case, so nothing changes
  (`Lifecycle.TokenOperationsPreserveStored`).
- **Expiry check with no reset issued.** If `reset_sent_at` is nil,
  `password_reset_expired?` raises. The model returns `Failure(NoResetIssued)`
  in that case.

## Model

| member | source | states |
|---|---|---|
| Users.Authenticated | app/models/user.rb:38-42 | The selected digest column being nil gives false, for every selector and token. With a sound hasher, a token whose digest is stored is accepted. With a collision-free hasher as well, only that token is accepted. |
| Users.RememberUser | app/models/user.rb:32-35 | The transient remember token becomes `t`. The stored remember digest is the digest of `t`, so `authenticated?(Remember, t)` holds. No other field changes except the email being downcased by the save. |
| Users.Forget | app/models/user.rb:45-47 | The remember digest becomes nil, so no token authenticates as Remember under any hasher. No other field changes except the downcased email. |
| Users.Activate | app/models/user.rb:50-53 | `activated` becomes true and `activated_at` becomes `now`. All digests and tokens are unchanged. |
| Users.ActivateIdempotent | app/models/user.rb:50-53 | Activating twice gives the same record as activating once at the later time. Only the timestamp is refreshed. |
| Users.CreateResetDigest | app/models/user.rb:61-65 | The reset token becomes `t`, the reset digest becomes the digest of `t`, and `reset_sent_at` becomes `now`. `authenticated?(Reset, t)` holds. Nothing else changes except the downcased email. |
| Users.PasswordResetExpired | app/models/user.rb:73-75 | An error exactly when no reset was issued. Otherwise true exactly when more than 7200 seconds have passed since `reset_sent_at` (a strict inequality). |
| Users.ResetFreshAtIssue | app/models/user.rb:61-75 | Right after `create_reset_digest` at time `now`, the link is not expired at `now`, and the reset token authenticates. |
| Users.ExpiryMonotone | app/models/user.rb:73-75 | Once a reset link is expired, it stays expired at every later time. |
| Users.ExpiryBoundary | app/models/user.rb:73-75 | A link issued at `s` is still valid at `s + 7200` and expired at `s + 7201`. |
| Users.RememberAcceptsOnlyItsToken | app/models/user.rb:32-47 | After `remember(t)`, the remember check accepts a token exactly when it equals `t`. After a following `forget`, it rejects `t`. |
| Users.CreateActivationDigest | app/models/user.rb:90-93 | The activation token becomes `t` and the activation digest becomes the digest of `t`, so `authenticated?(Activation, t)` holds. No other field changes. |
| Users.DowncaseEmail | app/models/user.rb:85-87 | The `before_save` callback, which `Users.UpdateAttribute` (the model of `update_attribute`) runs after every single-column write. The stored email is the ASCII downcase of the old one (`Text.Downcase`): it has no ASCII upper-case letter and keeps its length. It is the identity on an already lower-case email. No other field changes. |
| Text.Downcase | app/models/user.rb:85-87 | Length is preserved and no ASCII upper-case letter remains. Every other character is kept. Each upper-case letter becomes the lower-case letter at the same position in the alphabet. |
| Text.DowncaseIdempotent | app/models/user.rb:85-87 | Downcasing twice is the same as downcasing once. |
| EmailFormat.ValidEmailFormatMatchesRegex | app/models/user.rb:11 | The checker `EmailFormat.ValidEmailFormat` that the email validation runs (first `@`, last `.`, three character runs) accepts exactly the strings of the form `[\w+\-.]+ @ [a-z\d\-.]+ . [a-z]+`, read case-insensitively and anchored at both ends. |
| EmailFormat.RegexMatchIffShape | app/models/user.rb:11 | The regex matches exactly when all of these hold: there is exactly one `@`; the part before it is a non-empty run of local characters; the part after it uses only domain characters and contains a `.` with a non-empty prefix and a non-empty, all-letter suffix that runs to the end. |
| EmailFormat.DowncasePreservesFormat | app/models/user.rb:6-11 | Because of the `/i` flag, downcasing an email never changes whether it passes the format check. |
| EmailFormat.FormatImpliesPresent | app/models/user.rb:11-12 | A well-formed email is never blank. |
| Validations.Validate | app/models/user.rb:9-17 | Each violation is reported exactly when its rule is broken: name blank; name over 50 characters; email blank; email over 255 characters; email not matching the regex; password given but blank; password given but under 6 characters. So the set is empty exactly when the record is valid, a blank email is also reported as invalid, and a nil password is never reported. |
| Validations.DowncasePreservesValidity | app/models/user.rb:6-17 | Downcasing the email leaves the set of violated rules unchanged. |
| Lifecycle.Save | app/models/user.rb:6-17 | The save fails exactly when the record breaks a rule, and then reports exactly the set of rules it breaks. A successful save yields a valid record with a lower-case email. On insert, the activation token is set, the activation digest is the hasher's digest of that token, and the token authenticates. Nothing else changes. |
| Lifecycle.TokenOperationsPreserveStored | app/models/user.rb:32-65 | Starting from a stored record (valid, lower-case email), `remember`, `forget`, `activate` and `create_reset_digest` each yield a stored record with exactly the same email. |
| Lifecycle.SignUpScenario | app/models/user.rb:6-17 | Signing up as "Ann" / "Ann@Example.COM" / "secret1" succeeds. The stored email is "ann@example.com", the account is not activated, and the activation token authenticates. |

## Left out

- `User.digest` cost selection and bcrypt internals (salting, `BCrypt::Password.new`, `is_password?`): these belong to a foreign library. Only the abstract `digest`/`verify` pair and its axiom are modelled. As a consequence, the modelled digest is a deterministic function of the secret, with no salt. A malformed stored hash, which would make `BCrypt::Password.new` raise, cannot arise in the model.
- `User.new_token` (`SecureRandom.urlsafe_base64`): this is a source of randomness. Tokens are arguments instead.
- `Time.zone.now`: replaced by an integer `now` in whole seconds. Sub-second precision and time zones are not modelled.
- `send_activation_email` and `send_password_reset_email`: mail delivery is external I/O.
- `feed`: a database query over microposts.
- `has_many :microposts, dependent: :destroy`: cascading deletion belongs to the persistence store.
- Email uniqueness (`uniqueness: {case_sensitive: false}`): it needs the contents of the database.
- `has_secure_password` internals: password confirmation, the 72-byte password limit, the check that `password_digest` is present, and the setter that ignores an empty password. This is library code, not this file. `password` is modelled as the attribute the validators see.
- `update_attribute` on a record that has never been saved: in that case it inserts the record and runs the `before_create` hook. The model applies token operations to existing records only. It also does not model the `updated_at` timestamp.
- `authenticated?` with an attribute name other than remember, activation or reset: `password` would reach `password_digest`, and any other name raises `NoMethodError`. The selector is an enumeration of the three names.
- Text.Downcase: maps ASCII letters only. Ruby's `String#downcase` also maps non-ASCII letters, and can change the length of a string that contains them.
- EmailFormat.ValidEmailFormatMatchesRegex: the character classes are ASCII. Under `/i`, Ruby's regex engine would also let a few non-ASCII characters, such as the Kelvin sign, match `[a-z]` through Unicode case folding.
- A nil `name` or `email` is represented as the empty string. Both are blank, so the presence rules reject them in the same way. But `downcase_email` calls `downcase` on the email, which raises `NoMethodError` on nil, so a token operation on a record whose email is nil fails in Ruby, because it goes through `update_attribute`, which saves without validating. The model instead downcases the empty string and succeeds. A validating save rejects a nil email before `before_save` runs, in Ruby and in the model alike.
- `password_digest`: the model carries the column but never computes it. `has_secure_password`'s `password=` setter, which would set it when a password is assigned, is library code outside this file.
- Hashing.CollisionFree: bcrypt reads at most 72 bytes of its input, so two secrets that agree on their first 72 bytes verify against each other's digests. The assumption is meant only for short tokens such as the 22-character `urlsafe_base64` output of `User.new_token`, and the lemmas that use it do not bound the token length.
