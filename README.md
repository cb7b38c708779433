# Account verification in the `accounts` app, modelled in Dafny

This project models the part of the `accounts` Django app that carries real rules: how a
user is registered inactive and mailed an activation link, how that link activates the
account, how the login gate separates bad credentials from an inactive account, how the
activation link is re-sent, and the ledger of password-reset tokens with their one-hour
expiry. The tables are maps inside a `Database` class. The clock is an integer `now` in
seconds. Mail that goes out is appended to an `outbox` sequence. The logged-in user of the
session is a field.

Files, one module each:

- `wrappers.dfy`: `Option`, standing in for Python's `None`.
- `uid.dfy`: the uid in an activation link. The primary key is written as decimal ASCII
  bytes, then base64url-encoded (section 5 of RFC 4648) with the padding stripped. Decoding
  goes the other way and yields `None` on every failure. The round trip
  `DecodeUid(EncodeUid(pk)) == Some(pk)` is proved.
- `models.dfy`: the user, profile and reset-token rows; the table constraints (unique email,
  unique username, unique token value, foreign keys, one profile per user); the
  `post_save` hook that creates the profile; cascading deletion; `is_expired`.
- `utils.dfy`: `create_reset_token`.
- `views.dfy`: the four views as methods of an `App` class. Activation, login and re-sending
  are each proved against a pure decision function (`ActivationTarget`, `LoginDecision`,
  `ResendDecision`). Registration is specified directly by the user row, profile and mail
  it produces. Lemmas about the decision functions state identity binding, idempotence and
  the login gate.
- `scenarios.dfy`: a client of the views. It goes register → login refused → activate
  through the mailed link → login accepted. It also deletes a user and then registers
  another, and shows that the newcomer never receives the deleted user's pk.

Collaborators that are not part of this model are passed in as values:

- the activation-token generator (`make_token`, `check_token`);
- the authentication backend (`authenticate`);
- the verdict of the form field validators (`fieldsValid`);
- the random uuid4 value of a new reset token.

Only these assumptions are made about them:

- `Views.App.Login` requires that a user `authenticate` returns is a stored one.
- `Views.MailedLinkActivates` requires that `check_token` accepts the token `make_token`
  made for the same user.
- `Scenarios.RegisterActivateLogin` requires that `check_token` accepts the token made for
  the newly registered user. It also requires that the backend matches that user after
  activation. Before activation the backend may match it or, as Django's default backend
  does for an inactive user, return nothing.

Three points where the model follows the code as written:

- Email uniqueness is exact string equality on the stored value (`EmailField(unique=True)`),
  not case-insensitive. The registration form normalises the email before it checks
  uniqueness and before it stores the email (see `Views.App.Register` under "## Left out").
- Reset tokens are only issued. No view consumes or invalidates them. They are deleted only
  by the cascade when their user is deleted (`Models.Database.DeleteUser`).
- Whether an activation token stops verifying once the account is active depends on the
  token generator (module `.tokens`), which is not part of this model. `ActivationIsIdempotent`
  shows that activating an already active user changes nothing either way.

## Model

| member | source | states |
|---|---|---|
| `Uid.Encode` | accounts/views.py:28 | the unpadded base64url text of n bytes has ceil(4n/3) characters, all from the URL-safe alphabet, and never leaves a lone character in the last group |
| `Uid.Decode` | accounts/views.py:49 | decoding fails exactly when a character is outside the alphabet or the length is 1 more than a multiple of 4; otherwise it yields 3/4 as many bytes as characters |
| `Uid.DecodeEncode` | accounts/views.py:28-49 | base64url-decoding the encoding of any bytes gives those bytes back |
| `Uid.DecimalBytes` | accounts/views.py:28 | force_bytes(pk) is a non-empty run of ASCII digits with no leading zero unless pk is 0 |
| `Uid.ParseDecimal` | accounts/views.py:49-50 | the decoded bytes name a primary key exactly when they are a non-empty run of ASCII digits |
| `Uid.ParseDecimalBytes` | accounts/views.py:28-50 | reading the decimal bytes of a pk gives that pk back |
| `Uid.EncodeUid` | accounts/views.py:28 | the uid of a link is non-empty URL-safe text |
| `Uid.DecodeUid` | accounts/views.py:49-50 | a uid yields a primary key only if it is well-formed base64url |
| `Uid.UidRoundTrip` | accounts/views.py:28-50 | decoding the uid written into a link recovers the primary key it was written for |
| `Uid.EncodeUidInjective` | accounts/views.py:28 | two different users never get the same uid |
| `Models.NewUser` | accounts/models.py:13-17 | a new user starts with coins, points, nivel and exp all at their default 0, and with the given username, email, password and active flag |
| `Models.IsExpired` | accounts/models.py:31-32 | a reset token is expired at an instant exactly when that instant is strictly after its expires_at |
| `Models.NotExpiredAtExpiry` | accounts/models.py:31-32 | a reset token is expired exactly when now is strictly after expires_at, so it is still valid at expires_at itself |
| `Models.ExpiryIsMonotone` | accounts/models.py:31-32 | a token expired at some instant is expired at every later instant |
| `Models.StoreKeepsUnique` | accounts/models.py:10-11 | storing a row whose email and username no other user has keeps both columns unique |
| `Models.RowsNotOwnedBy` | accounts/models.py:26-40 | the on_delete=CASCADE of a foreign key: the table keeps exactly the rows that refer to another user, unchanged; used for the reset tokens and for the profiles |
| `Models.DeleteKeepsReferences` | accounts/models.py:26-40 | after deleting a user no token or profile refers to it, and every other user keeps its profile |
| `Models.Database.ValidExcept` | accounts/models.py:10-40 | every schema constraint holds: unique email, unique username, unique token value, every token and profile refers to a stored user, at most one profile per user, auto-increment keys below their counters, and every user except the pending one has its profile |
| `Models.Database.Valid` | accounts/models.py:10-40 | every schema constraint holds and every user has its profile; every `Database` and `App` method keeps it |
| `Models.Database.CreateUserProfile` | accounts/models.py:34-37 | a save that created the user inserts exactly one profile for it; any other save inserts none; users and tokens are untouched |
| `Models.Database.SaveNewUser` | accounts/models.py:9-17 | inserting a user succeeds exactly when its email and username are free; the new row gets a fresh key and exactly one new profile; a refused insert changes nothing; the user and profile key counters advance by one on success and never move back |
| `Models.Database.SaveUser` | accounts/models.py:10-11 | re-saving a stored user updates its row only when no other user has its email or username, and never creates a profile |
| `Models.Database.DeleteUser` | accounts/models.py:26-40 | deleting a user removes it, its profile and all of its reset tokens, and keeps every constraint; the key counters are unchanged, so the deleted user's pk is never handed out again |
| `Models.Database.InsertResetToken` | accounts/models.py:25-29 | a ledger insert succeeds exactly when the token value is unused, adds one row under the next key of the ledger's counter and leaves every other row as it was |
| `Utils.CreateResetToken` | accounts/utils.py:5-6 | one row is added for the given user, created now and expiring 3600 s later; earlier tokens, the user's own included, are untouched; users and profiles are unchanged |
| `Utils.FreshTokenValidForAnHour` | accounts/utils.py:6 | a new token is not expired at any instant up to creation time + 3600 |
| `Utils.FreshTokenExpiresAfterAnHour` | accounts/utils.py:6 | a new token is expired at every instant after creation time + 3600 |
| `Views.ActivationMail` | accounts/views.py:28-38 | the activation mail goes to the user's email, with the given subject and a token made for that user, and its uid decodes back to the user's pk |
| `Views.RegisterFormValid` | accounts/views.py:23 | the registration form is valid exactly when its field validators pass and no stored user has its email or its username |
| `Views.RegisteredUser` | accounts/views.py:24-25 | register_view stores the form's username, email and password with is_active false and every counter at 0 |
| `Views.ActivationTarget` | accounts/views.py:47-54 | a request activates a user exactly when its uid decodes to the pk of a stored user and check_token accepts the token for that user; that decoded user is the one activated |
| `Views.ActivatedUsers` | accounts/views.py:55-56 | activation keeps the set of users and leaves the target active |
| `Views.LoginDecision` | accounts/views.py:71-82 | an invalid form, no matched user, a matched inactive user and a matched active user give the four outcomes, each exactly in its case; only the last logs in, as the matched user |
| `Views.UserWithEmail` | accounts/views.py:90-94 | the lookup finds a stored user with that email, and finds none exactly when the email is missing or no user has it |
| `Views.ResendDecision` | accounts/views.py:86-98 | exactly in its case: a GET shows the form; a missing or unknown email is "not found"; the user with that email, if active, gets nothing; if inactive, it is re-sent its link |
| `Views.MailedLinkActivates` | accounts/views.py:28-56 | the link mailed to a user activates exactly that user whenever check_token accepts the token make_token made for it |
| `Views.LinkBindsIdentity` | accounts/views.py:48-54 | a link carrying the uid of user A activates A or nobody, whatever its token |
| `Views.ActivationChangesOnlyTarget` | accounts/views.py:54-56 | activation sets is_active on the decoded user only, changes no other field and no other user, and never deactivates anyone |
| `Views.ActivationIsIdempotent` | accounts/views.py:54-56 | activating an already active user leaves the user table unchanged |
| `Views.ActivationKeepsUnique` | accounts/views.py:55-56 | the activation save touches no email and no username, so it cannot break their uniqueness |
| `Views.UserWithEmailUnique` | accounts/views.py:91 | because emails are unique, the lookup by email finds the one user that has it |
| `Views.InactiveUserNeverLogsIn` | accounts/views.py:76-79 | a user that is not active is never logged in; with a valid form it gets the inactive-account error |
| `Views.App.Register` | accounts/views.py:17-45 | on a valid POSTed form exactly one user is stored, inactive, with its email and username and all counters 0, together with exactly one profile, and exactly one mail goes to its email carrying its encoded pk and a token made for it; otherwise nothing changes and nothing is sent |
| `Views.App.Activate` | accounts/views.py:47-60 | only the user named by the decoded uid becomes active, and only when its token checks out; an undecodable uid, an unknown pk or a rejected token is "Link inválido" and changes nothing |
| `Views.App.Login` | accounts/views.py:65-84 | the outcome is the login decision on the user authenticate matched; only an active matched user gets the session; no mail is sent |
| `Views.App.ResendActivation` | accounts/views.py:86-117 | the outcome is the resend decision; only an inactive user's re-send appends one mail, to its address with its encoded pk and a token made for it; the database is never written |
| `Scenarios.RegisterActivateLogin` | accounts/views.py:17-84 | a newly registered user cannot log in: it gets "Email ou senha inválidos." when the backend refuses inactive users and the inactive-account error when the backend matches it. The mailed link activates exactly that user, which is then active, and the next login succeeds and sets the session |
| `Scenarios.DeleteThenRegister` | accounts/views.py:17-30 | after a user is deleted, a newly registered user never receives its pk, so the uid in a link mailed to the deleted user never names the newcomer |

## Left out

- Views missing from the code: accounts/urls.py:10-15 routes `logout_view`, `request_password_reset`, `reset_password`, `my_profile`, `profile_view` and `profile_edit`, and none of these exist in accounts/views.py. Logout, password-reset requests and reset-token consumption therefore have no code to model.
- `activation_success` and `home_view` only render a template. `@login_required` and the session machinery are reduced to the `session` field.
- Templates, the `messages` texts, the email body text, `reverse` and `build_absolute_uri` are not modelled. A `Mail` keeps its recipient, its subject, the uid and the token.
- The activation-token generator (module `.tokens`) is not part of this model. `make_token` and `check_token` are uninterpreted, so no one-shot behaviour and no time bucket is claimed. They are modelled as functions of the pk and the stored row only, with no clock: a re-sent mail carries the same token as the first mail as long as the row is unchanged.
- `authenticate` and password hashing are library code. The backend is a function parameter whose matched user must be a stored one. The stored `password` is the credential the form produced.
- `UserCreationForm` and `LoginForm` validation (password match and policy, field formats, `max_length=150`) are reduced to the `fieldsValid` flag. So is `UserCreationForm.clean_username`, which from Django 4.2 on also refuses a username equal, ignoring case, to a stored one. That check reads the stored users, and the model does not relate it to them. The exact-match uniqueness of email and username, which the database's unique constraints enforce, is explicit.
- Views.App.Login: requires that the user `authenticate` returns is a stored one, as a backend that loads users from the user table guarantees.
- Utils.CreateResetToken: requires a stored user, because the function is handed a saved user instance. An unsaved or deleted instance is not modelled.
- Requests other than POST only render the form; the views take an `isPost` flag for this.
- Views.App.Register: `RegisterForm.email` stands for the email after the form's cleaning. The form lower-cases the domain part (`normalize_email`) and applies NFKC normalisation to the `USERNAME_FIELD`, which is `email` (accounts/models.py:19). That cleaning is library code and is not modelled. So "ana@Example.COM" is modelled as the form value "ana@example.com", and the uniqueness check and the stored row both use that value.
- Mail delivery is assumed to succeed. In the source, `email.send()` (accounts/views.py:38 and :112) can raise after the user is saved, and the request then fails with no mail sent. The model always appends the mail to the outbox.
- Uid.Decode: the library decoder is lenient. It drops characters outside the alphabet and also accepts `+` and `/`. `urlsafe_base64_decode` first pads its input with `=`. A `=` after three data characters of a group ends the decoding, and so does `==` after two. A single `=` after two data characters is skipped and decoding goes on. So "MQ=" (padded to "MQ====") and "MQ==MTIz" both decode to the bytes of "1". The model rejects every one of these, `=` included, which gives the invalid-link outcome.
- Uid.ParseDecimal: Python's `int()` also accepts surrounding whitespace, a sign, underscores and non-ASCII digits. The model accepts only ASCII digits. A pk too large for the database column is covered, because no stored user has it.
- Logging in also updates `last_login` through a signal. That field, and the other inherited `AbstractUser` fields, are not modelled.
- `created_at` is a second clock reading, taken when the row is saved. The model uses the same `now` for it. `is_expired` does not read it.
- The uuid4 value of a new reset token is a parameter. A collision shows up as the failed insert the unique constraint causes.
- Profile `bio` and `photo` are not modelled. Only the one-to-one link to the user is kept.
- The 64-bit range of the `BigIntegerField` counters is not modelled. The core only sets them to 0.
- Concurrency and database atomicity are not modelled. Each operation is one atomic step.
- accounts/forms.py holds only declarative fields.
