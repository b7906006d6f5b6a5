# To-do API with OTP accounts — a Dafny model

This project models the two stateful cores of a small Laravel JSON API for
per-user to-do lists:

- **The account / OTP state machine** (`AuthController` and the web
  `Auth\OtpPasswordController`). A user record holds an email, a password
  hash, a nullable verification instant, one OTP slot (`otp`,
  `otp_expires_at`) and, through Sanctum, any number of bearer tokens. The
  handlers `register`, `login`, `sendOtp`, `resetPassword`, `verifyEmail`,
  `logout`, `deleteAccount` and the web `sendOtp` and `reset` each validate,
  then run their checks in a fixed order, and either refuse with a status
  and the database untouched, or apply their update.
- **The owner-scoped to-do table** (`ToDoController` and the `to_dos`
  migration): `index`, `store`, `show`, `update` and `destroy` over a table
  whose rows follow the migration's column, enum, default and foreign-key
  declarations.

The database is MySQL in its strict mode (Laravel's default), with
the `utf8mb4` character set; the column limits below are MySQL's. The
database is one class, `Store.Database`, holding the `users` map, the
token map (token id to owning user id), the `to_dos` map, the
auto-increment counters, and a ghost log of the mails sent. Its `Valid()`
invariant says: every slot holds a code and its expiry together or
neither, and a held code lies in [100000, 999999]; emails are unique; ids
are below their counters; every to-do row satisfies the schema's
constraints and references an existing user. Every handler is a method
that keeps `Valid()` and states its whole effect on the database. The
decisions behind the handlers are pure functions (`Accounts.CheckOtp`,
`ToDoController.StoreRow`, `ToDoController.UpdateRow`, `ToDoController.Index`,
...) and the lemmas about them carry the properties.

The clock is an integer parameter `now` in seconds; the ten-minute window
is 600 seconds. `rand(100000, 999999)` is a nondeterministic choice in that
range. The bearer token of a request is a parameter; `Auth::guard('sanctum')->user()`
is `Database.CurrentUser`.

Behaviour the model follows from the code:

- A code is still accepted at the very instant of its expiry, and refused
  from the next second on: both `isPast()` and `now()->gt(...)` are strict
  comparisons.
- An empty slot is answered "Invalid OTP" (400), the same as a wrong code;
  there is no separate "no code pending" reply. A wrong code is never
  reported as expired.
- The API compares the stored code, read back as its decimal string, with
  the submitted string by `!==`; the web reset compares with PHP 8's loose
  `!=`, so it also accepts the code written with leading zeros
  (`OtpCodes.LooseAcceptsLeadingZero`). On six-digit input the two agree.
- `store` and `update` accept six status values, but the table's enum holds
  three; writing `archived`, `not_started` or `cancelled` makes the
  database refuse the query, an uncaught error (500), with the table
  unchanged.
- `store` reads `$validated['description']` and `$validated['due_date']`;
  Laravel's validated data leaves out absent keys, so a body without either
  key fails with an uncaught error (500), although both columns are
  nullable.
- The validators put no bound on a description's size or a due date's
  year, but a TEXT column holds at most 65535 bytes and a TIMESTAMP column
  only instants from 1970-01-01 00:00:01 to 2038-01-19 03:14:07 UTC; a
  value beyond either makes the query fail (500).
- The to-do controller's authentication middleware is commented out, so a
  request whose token resolves to no user reaches the handler and fails on
  the null user (500), after validation in `store` and before everything
  in the other handlers.
- `deleteAccount` requires the submitted email to belong to some user and
  a non-empty password, but compares neither with the authenticated user,
  whom it deletes along with their to-dos (`onDelete('cascade')`). Sanctum
  tokens carry no foreign key, so the deleted user's tokens stay stored and
  no longer resolve.
- `index` orders by `due_date` ascending with NULL first, as MySQL does.
- A submitted code reaches the handlers either as a string or as a JSON
  integer (`Submitted`). The API casts it with `(string)`, so an integer
  behaves as its decimal string. The web reset compares it with `!=` as it
  came: against an empty slot, PHP 8 compares null with an integer as
  booleans, so the integer 0 gets past the comparison; under Carbon 2 the
  expiry test then passes too and the password is reset (see "## Findings").
- Laravel trims request strings before validation, but not passwords, so
  `required` refuses a password made only of spaces, tabs or line breaks
  (`Blank`) in `register`, `login`, `resetPassword`, `deleteAccount` and
  the web `reset`.

Only the authentication endpoints are routed in `routes/api.php:7-16`; the
to-do handlers and `deleteAccount` are modelled as operations all the same.

## Model

| member | source | states |
|---|---|---|
| OtpCodes.Decimal | app/Http/Controllers/AuthController.php:119 | the stored code read back as a string is a non-empty string of digits |
| OtpCodes.DecimalRoundTrip | app/Http/Controllers/AuthController.php:119 | the numeric value of a code's decimal string is the code itself |
| OtpCodes.SameLengthSameValue | app/Http/Controllers/AuthController.php:109 | two digit strings of the same length and value are identical, so a `digits:6` submission denotes one code |
| OtpCodes.CodeHasSixDigits | app/Http/Controllers/AuthController.php:30 | every code `rand(100000, 999999)` can draw is written with exactly six digits, so it passes the `digits:6` rule |
| OtpCodes.StrictMatchMeaning | app/Http/Controllers/AuthController.php:119-121 | on a six-digit submission and a slot holding an in-range code or nothing, the strict comparison lets through exactly the stored code; an empty slot lets nothing through |
| OtpCodes.LooseMatchMeaning | app/Http/Controllers/Auth/OtpPasswordController.php:43 | the loose `!=` lets through exactly the numeric submissions, string or integer, whose value is the stored code, and against a null slot exactly the integer 0 |
| OtpCodes.PhpString | app/Http/Controllers/AuthController.php:119 | `(string)` keeps a string, writes a non-negative integer as digits denoting that integer, and a negative one with a non-digit |
| OtpCodes.StrictAndLooseAgree | app/Http/Controllers/Auth/OtpPasswordController.php:37-43 | on six-digit submissions the web controller's loose comparison and the API's strict one accept the same codes |
| OtpCodes.LooseAcceptsLeadingZero | app/Http/Controllers/Auth/OtpPasswordController.php:37-43 | the web comparison accepts the code with a leading zero, which the API comparison refuses |
| Accounts.NewUser | app/Http/Controllers/AuthController.php:23-27 | a registered user starts unverified with an empty slot and a hash that matches the chosen password |
| Accounts.IssueOtp | app/Http/Controllers/AuthController.php:30-35 | issuing fills both slot fields together, with the code and now plus ten minutes, and changes no other field |
| Accounts.ResetPassword | app/Http/Controllers/AuthController.php:127-131 | a reset stores a hash matching the new password, clears both slot fields together, and changes nothing else |
| Accounts.MarkVerified | app/Http/Controllers/AuthController.php:168-172 | verification sets the verification instant to now, clears both slot fields together, and changes nothing else |
| Accounts.CheckOtp | app/Http/Controllers/AuthController.php:119-125 | a refusal is "Invalid OTP" or "OTP has expired", both with status 400 |
| Accounts.CheckOtpMeaning | app/Http/Controllers/AuthController.php:119-125 | the API check accepts exactly the pending code while now is not past its expiry, answers "OTP has expired" only for the right code, and "Invalid OTP" for every other submission, an empty slot included |
| Accounts.LooseOtpMeaning | app/Http/Controllers/Auth/OtpPasswordController.php:43-45 | the web check's single combined condition lets through exactly the pending code, by value, while now is not after its expiry, and, when no code is pending, the integer 0 |
| Accounts.EmptySlotAcceptsZero | app/Http/Controllers/Auth/OtpPasswordController.php:37-45 | with no code pending the check as written accepts the integer 0, which the intended check refuses |
| Accounts.IntendedOtpMeaning | app/Http/Controllers/Auth/OtpPasswordController.php:43-45 | the intended check accepts exactly the pending code, by value, while now is not after its expiry, nothing when no code is pending, and agrees with the check as written whenever a code is pending |
| Accounts.IssuedCodeWindow | app/Http/Controllers/AuthController.php:123-125 | a code just issued, submitted as mailed, is accepted up to and including ten minutes later and reported expired from one second after |
| Accounts.OnlyNewestCodeMatches | app/Http/Controllers/AuthController.php:86-93 | after a second issue the first code, when different, is "Invalid OTP", not expired |
| Accounts.ConsumedCodeCannotBeReplayed | app/Http/Controllers/AuthController.php:127-131 | after a reset or a verification the API answers "Invalid OTP" to every submission, the consumed code included; the web check as written refuses every numeric submission except the integer 0, and the intended check refuses them all |
| ToDoSchema.WithDefaults | database/migrations/2025_06_29_092856_create_to_dos_table.php:16-26 | a column an insert names takes the given value, and one it leaves out takes its default: not completed, medium priority, pending status, null description and due date |
| ToDoSchema.Constrain | database/migrations/2025_06_29_092856_create_to_dos_table.php:16-26 | the table accepts a row exactly when its title fits 255 characters, its description fits 65535 UTF-8 bytes, its due date lies in the TIMESTAMP range, priority and status are in their enums and its owner exists; otherwise the query fails with a 500 |
| ToDoSchema.DefaultsConform | database/migrations/2025_06_29_092856_create_to_dos_table.php:18-26 | a row given only a title and an owner gets the declared defaults and is accepted |
| ToDoSchema.CascadeDelete | database/migrations/2025_06_29_092856_create_to_dos_table.php:19-23 | deleting a user removes exactly that user's rows and keeps every other row unchanged |
| ToDoSchema.CascadeKeepsForeignKey | database/migrations/2025_06_29_092856_create_to_dos_table.php:19-23 | after the cascade every row still references an existing user |
| Store.Database.CurrentUser | app/Http/Controllers/ToDoController.php:22 | the guard yields a user only for a stored token whose user still exists |
| Store.Database.FindByEmail | app/Http/Controllers/AuthController.php:85 | the lookup by email finds a user exactly when the email is taken, and then the one holding it |
| Store.Database.MintToken | app/Http/Controllers/AuthController.php:41 | a new token, bound to the user, is added and every other token is kept |
| AuthController.Register | app/Http/Controllers/AuthController.php:14-52 | refuses (422, nothing changed) exactly a blank, short or unconfirmed password, an empty or over-long name or email, or a taken email; otherwise adds one unverified user whose slot holds an in-range code expiring ten minutes on, mails that code, and mints one token |
| AuthController.Login | app/Http/Controllers/AuthController.php:54-79 | 422 exactly when the email is empty or the password blank, 401 exactly when the credentials fail, 403 exactly when they match an unverified user, otherwise a new token for that verified user; users are never changed and a refusal changes nothing |
| AuthController.SendOtp | app/Http/Controllers/AuthController.php:81-103 | refuses an unknown email with nothing changed; otherwise overwrites the slot with a fresh in-range code and expiry, then mails that code |
| AuthController.ResetPassword | app/Http/Controllers/AuthController.php:105-136 | after validation, answers exactly as the OTP check does; only an accepted code stores the new hash and clears the slot; every refusal leaves the database unchanged; no token is minted |
| AuthController.VerifyEmail | app/Http/Controllers/AuthController.php:138-181 | after validation, answers exactly as the OTP check does; only an accepted code sets the verification instant, clears the slot and mints one token; every refusal leaves the database unchanged |
| AuthController.Logout | app/Http/Controllers/AuthController.php:183-187 | removes exactly the token the request carried |
| AuthController.DeleteAccount | app/Http/Controllers/AuthController.php:198-213 | with a known email and a non-blank password, deletes the user the token resolves to, whoever holds the email, with their to-dos, keeping the tokens and sending no mail; 422 otherwise; 404 without such a user; refusals change nothing |
| OtpPasswordController.SendOtp | app/Http/Controllers/Auth/OtpPasswordController.php:13-31 | refuses an unknown email with nothing changed; otherwise overwrites the slot with a fresh in-range code and expiry, then mails that code |
| OtpPasswordController.Reset | app/Http/Controllers/Auth/OtpPasswordController.php:33-54 | validation refuses exactly an unknown email, a non-numeric code, or a blank, short or unconfirmed password; after it, resets exactly when the loose check lets the code, string or integer, through, clearing the slot; otherwise one combined "Invalid or expired OTP" with nothing changed |
| ToDoController.OwnedBelow | app/Http/Controllers/ToDoController.php:23 | lists exactly the caller's rows, each with its stored contents, in ascending id order |
| ToDoController.InsertByDue | app/Http/Controllers/ToDoController.php:23 | inserting into a list ordered by due date keeps it ordered and adds exactly that entry |
| ToDoController.SortByDue | app/Http/Controllers/ToDoController.php:23 | the result is ordered by due date, nulls first, and is a permutation of the input |
| ToDoController.PermutationKeepsDistinctIds | app/Http/Controllers/ToDoController.php:23 | reordering a list without repeated ids repeats none |
| ToDoController.Index | app/Http/Controllers/ToDoController.php:20-29 | lists every row of the caller exactly once and no other row, ordered by due date ascending; 500 without a user |
| ToDoController.IndexSeesOnlyOwnRows | app/Http/Controllers/ToDoController.php:22-23 | two tables that agree on the caller's rows give the caller the same list |
| ToDoController.Show | app/Http/Controllers/ToDoController.php:64-77 | returns the row exactly when the caller owns it; a missing or foreign id is 404 |
| ToDoController.ForeignRowLooksMissing | app/Http/Controllers/ToDoController.php:66-71 | a row owned by someone else is answered exactly as a missing row, by `show` and by `update` whatever the body |
| ToDoController.StoreRow | app/Http/Controllers/ToDoController.php:34-53 | 422 exactly when the rules fail; otherwise a row succeeds exactly when the description and due date keys are present, a user is authenticated, the description and due date fit their columns and the status is in the table's enum, and every other outcome after validation is a 500; a stored row is owned by the caller, not completed, and carries the submitted fields verbatim |
| ToDoController.ValidatedButUnstorable | app/Http/Controllers/ToDoController.php:36-53 | a body that passes the rules but leaves out `description` or `due_date`, or carries a due date past the TIMESTAMP range, ends in a 500 |
| ToDoController.StoreIgnoresClientOwner | app/Http/Controllers/ToDoController.php:44-53 | the `user_id` and `completed` of the body have no effect on what is stored |
| ToDoController.WiderStatusesRefusedByTable | app/Http/Controllers/ToDoController.php:36-42 | a status the validator accepts but the table's enum lacks ends in a 500 on store and on update |
| ToDoController.StoreThenShow | app/Http/Controllers/ToDoController.php:44-76 | a stored row is shown to its owner with every submitted field unchanged |
| ToDoController.Patch | app/Http/Controllers/ToDoController.php:91-100 | each field present in the body replaces the stored one, each absent field keeps its value, and the owner never changes |
| ToDoController.PatchIdempotent | app/Http/Controllers/ToDoController.php:100 | applying the same partial update twice equals applying it once; an update naming no field leaves the row as it was |
| ToDoController.UpdateRow | app/Http/Controllers/ToDoController.php:82-100 | 500 without a user, then 404 for a row the caller does not own whatever the body, then 422 on a failing rule, then the merged row if the table accepts it and a 500 if it refuses it |
| ToDoController.StoreToDo | app/Http/Controllers/ToDoController.php:34-59 | inserts the row `StoreRow` yields under a fresh id and changes nothing else; any refusal leaves the database unchanged |
| ToDoController.UpdateToDo | app/Http/Controllers/ToDoController.php:82-106 | replaces the matched row with the merged one and nothing else; any refusal leaves the database unchanged |
| ToDoController.DestroyToDo | app/Http/Controllers/ToDoController.php:111-123 | removes exactly the caller's matched row; a foreign or missing id is 404 and changes nothing |
| Scenarios.RegisterVerifyLogin | app/Http/Controllers/AuthController.php:14-181 | a new account's login is 403 until the mailed code verifies it within ten minutes; login then succeeds, and replaying the code is "Invalid OTP" |
| Scenarios.ResendInvalidatesOldCode | app/Http/Controllers/AuthController.php:81-136 | after two code requests, a reset with the first code, when different, is "Invalid OTP" and a reset with the second succeeds |
| Scenarios.WebResetAcceptsLeadingZero | app/Http/Controllers/Auth/OtpPasswordController.php:13-54 | the web reset succeeds with the mailed code prefixed by a zero |
| Scenarios.ResetWithoutCodeAfterVerification | app/Http/Controllers/Auth/OtpPasswordController.php:33-54 | after a successful email verification, a web reset with the integer 0 as the code sets the new password |
| Scenarios.DeleteAccountIgnoresSubmittedEmail | app/Http/Controllers/AuthController.php:198-213 | submitting another user's email deletes the caller and leaves that other user in place |
| Scenarios.LogoutKeepsOtherSessions | app/Http/Controllers/AuthController.php:183-187 | after logout the used token no longer resolves and every other token resolves as before |

## Left out

- Mail sending (`Mail::raw`) is a ghost log of (address, code) pairs; delivery and its failure are not modelled.
- Password hashing (`Hash::make`, `bcrypt`, `Hash::check`) is an injective function of the password; salts and the algorithm are not modelled.
- The email-format rule, the `string`/`boolean` type rules, the `date` rule (due dates arrive as instants) and the trimming and empty-string-to-null middleware are not modelled for fields other than passwords; those strings are taken as they are after the middleware.
- The `users` table migration is not part of this model; the `otp` column is assumed to read back as the decimal string of the integer written.
- Numeric strings other than plain digit strings (signs, decimal points, exponents) and JSON floats (such as `123456.0`, which also passes the API's `digits:6` and casts to "123456"), which Laravel's `numeric` rule admits in both controllers, are not modelled; JSON integers are.
- OtpPasswordController.Reset: `Carbon::now()->gt(null)` is read as Carbon 2 defines it, comparing with the current instant, so it is false. Carbon 3 types the argument of `gt`, so null throws there, and under Carbon 3 the empty-slot reset ends in a 500 instead of a new password; the source does not pin the Carbon version.
- The 500 replies of `register` and `sendOtp` for exceptions from the store or the mailer, and the echoed exception messages, are not modelled.
- The 404 branches of `resetPassword` and `verifyEmail` cannot be reached after the `exists:users,email` rule without a concurrent deletion, so the model has none.
- The debug log in `verifyEmail`, the `user` endpoint (a read of the authenticated user), JSON and redirect bodies beyond the status, and flash messages are not modelled.
- Sanctum token internals (plain-text form, abilities, expiry) are left out; a token is a fresh id bound to a user.
- Carbon parsing, time zones, sub-second precision and the `created_at`/`updated_at` columns are left out; instants are whole seconds.
- Store.Database.FindByEmail: emails compare exactly, as under a binary collation; MySQL's default `utf8mb4_unicode_ci` collation makes `unique:users`, `exists:users,email` and `where('email', ...)` ignore case and trailing spaces, which is not modelled, because the model has no case folding.
- Concurrency and row locking are left to the database and not modelled.
- Migration `down()` (schema teardown) and routing are not modelled.
- ToDoController.Index: rows with equal due dates are listed in ascending id order, a choice of this model among the orders the query leaves open; the position of NULL due dates is the MySQL one.

## Findings

| source | as written | input that shows it | evidently intended | confidence | as-written member | corrected member |
|---|---|---|---|---|---|---|
| app/Http/Controllers/Auth/OtpPasswordController.php:37-45 | `numeric` admits a JSON integer, and `$user->otp != $request->otp` is false for a null `otp` and the integer 0; with the expiry also null, `now()->gt(null)` is false under Carbon 2, so the password is reset (under Carbon 3 the typed `gt` throws on null and the request ends in a 500) | a user with no pending code, for example right after verifying their email; body `{"email": e, "otp": 0, "password": p, "password_confirmation": p}` | only the pending code, before its expiry, resets the password; an empty slot accepts nothing | medium under Carbon 2, not executed | Accounts.EmptySlotAcceptsZero | Accounts.IntendedOtpMeaning |
