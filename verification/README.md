# Todo-list backend: a Dafny model of its accounts, authentication and ownership rules

The system is a small task-tracking web backend with two tables, users and
todos. Users register and receive a one-time code by mail. They activate
the account with that code and authenticate with `Authorization: Bearer
<token>`. They then list, read, create, edit, finish and delete their own
todos.

This project models that core as pure state transitions over a `Store`.
The store holds the two tables as maps from id to row, their
auto-increment counters, the process-wide OTP default and the sequence of
mails sent. Every handler takes a store and returns a `Handled`: the reply
(or an exception that escapes the handler) and the store afterwards.

Modules, leaf first:

- `Wrappers`: `Option`, `Result`, `Outcome`.
- `Decimal`: Python's `str(int)` for naturals, with its inverse.
- `Passwords`: `validate_password`.
- `Otp`: `create_otp`, and `str(...)` of the submitted `otp` value.
- `Whitespace`: argument-less `str.split()`, `str.strip()` and `str.lower()`.
- `Records`: the `User`/`Todo` rows, the store and its invariant `Valid` (rows under their own ids, ids below the counters, todo owners present), a process start, the ownership lookup and the cascading user delete.
- `Projections`: the serializers' output field lists.
- `Validation`: request bodies, the whitespace stripping of character fields, and the serializers' input checks.
- `Http`: reply bodies, status codes and escaping exceptions.
- `Authentication`: `CustomUserJWTAuthentication.authenticate`.
- `Accounts`: login, my-info, registration and OTP verification.
- `Todos`: the six todo views.
- `Service`: authentication plus dispatch for one request, and the properties that hold across the whole interface.

The world outside the code becomes parameters:

- the token library is a function from token text to a verdict;
- `check_password` is a predicate on a user and a password;
- the random draw of `create_otp` is an integer in [10000, 99999];
- the clock is a `Time` value `now`;
- the framework's own per-field checks are `shape`, the errors they found;
- `send_mail` appends a `Mail` to the store's outbox.

Behaviour the model keeps as the code has it, because the code does it:

- The OTP default is computed once, when the class is defined, so all users registered by one process get the same code. Each new process (a restart, another worker) draws again, and users registered earlier keep the code of the process that registered them.
- Character fields (name, surname, email, password, title) are stripped of surrounding whitespace before validation, so the password policy sees, and the database stores, the stripped text. None of these columns allows blank values, so a value that is empty once stripped is rejected with "This field may not be blank." and the password policy does not run on it.
- Verification deletes the account on any mismatch, even after activation. The stored code is then empty, so a second submission deletes an active account. A missing `otp` key prints as `"None"` and deletes it too.
- Authentication does not look at `is_active`.
- Authentication failures answer 403, not 401. The authenticator does not override `authenticate_header`, and the framework answers 403 in that case.
- A login whose body omits `password` raises `KeyError` at users/views.py:70. The password column has a default, so the serializer does not require the field.
- A login email shared by several users raises `MultipleObjectsReturned`. Email is not unique.

## Model

| member | source | states |
|---|---|---|
| `Passwords.HasDigit` | users/models.py:10-12 | true exactly when some character of the password is a digit |
| `Passwords.ValidatePassword` | users/models.py:6-13 | under 8 characters fails with "Password should be at least 8 character"; from 8 characters on it passes iff some character is a digit, and otherwise fails with "Password should contain numbers" |
| `Passwords.CheckPassword` | users/models.py:6-13 | `validate_password`'s early-return loop over the characters returns the same result as `ValidatePassword` on every input |
| `Passwords.AcceptedIff` | users/models.py:6-13 | a password is accepted iff it has at least 8 characters and contains a digit |
| `Passwords.LengthCheckFirst` | users/models.py:7-8 | a short password with no digit still gets the length message, because the length check runs first |
| `Decimal.FromNat` | users/models.py:17 | the spelling `str` gives a natural number: non-empty, digits only, no leading zero unless the number is 0 |
| `Decimal.ToNatFromNat` | users/models.py:17 | reading the spelling back gives the number (round trip) |
| `Decimal.FromNatInjective` | users/models.py:17 | different numbers have different spellings |
| `Decimal.FromNatLength` | users/models.py:17 | a number with k decimal digits is spelt with exactly k characters |
| `Otp.CreateOtp` | users/models.py:16-17 | the code for a draw in [10000, 99999] is exactly 5 digits, first digit non-zero, and denotes the draw |
| `Otp.CreateOtpInjective` | users/models.py:16-17 | two draws give the same code iff they are the same draw |
| `Otp.PyStr` | users/views.py:268-273 | `str()` of the submitted value: a missing key or null prints "None", a string prints as itself, a boolean as "True"/"False", and a non-negative integer as digits that read back as the integer, a negative one as "-" followed by such digits |
| `Records.Boot` | users/models.py:33 | a first process over an empty database has empty tables and one OTP default, `create_otp()` drawn once |
| `Records.Restart` | users/models.py:33 | a new process over an existing database keeps every row, counter and mail, keeps the store valid, and has a freshly drawn OTP default |
| `Records.Valid` | todos/models.py:6-14 | the integrity every handler keeps: each row sits under its own id, every id lies below its table's counter, and every todo's owner is a stored user |
| `Accounts.CodeSurvivesRestart` | users/views.py:268-284 | a user registered before a restart with a different draw is still activated by their own code, and deleted by the new default code |
| `Accounts.SuccessiveRegistrationsShareCode` | users/models.py:33 | two users registered one after the other get the same code, the process default |
| `Whitespace.WordLength` | users/authentication.py:18 | the leading run of non-space characters ends at a whitespace character or at the end of the text |
| `Whitespace.Split` | users/authentication.py:18 | `split()` yields only non-empty fields free of whitespace; it yields none iff the text is all whitespace; on text starting with a non-space the first field is the leading run of non-space characters |
| `Whitespace.SplitSeparated` | users/authentication.py:18 | a word followed by any non-empty run of whitespace and more text splits into that word followed by the fields of the rest |
| `Whitespace.SplitWordThenSpace` | users/authentication.py:18 | trailing whitespace after a word yields no empty field |
| `Whitespace.SplitTwo` | users/authentication.py:18 | two words with any whitespace before, between and after them split into exactly those two words |
| `Whitespace.SplitJoin` | users/authentication.py:18 | splitting words joined by single spaces gives back exactly those words |
| `Whitespace.SplitSkipsLeadingSpace` | users/authentication.py:18 | leading whitespace never changes the fields |
| `Whitespace.Strip` | users/serializers.py:25-28 | `strip()` never lengthens the text; a non-empty result neither starts nor ends with whitespace; the result is empty iff the text is all whitespace |
| `Whitespace.StripPadded` | users/serializers.py:25-28 | padding a trimmed text with whitespace on either side and stripping it gives the text back |
| `Whitespace.StripIdempotent` | users/serializers.py:25-28 | stripping twice is stripping once |
| `Whitespace.LowerIsBearerIff` | users/authentication.py:19 | `p.lower() == "bearer"` holds iff p is "bearer" spelt in any mix of upper and lower case |
| `Authentication.ParseHeader` | users/authentication.py:12-23 | the header is absent iff it is missing or empty; it has the wrong part count iff it is non-empty and does not split into two fields; an accepted token is a whitespace-free field; for a header of two fields, the prefix is wrong iff the lowered first field is not "bearer", and otherwise the token is the second field |
| `Authentication.Authenticate` | users/authentication.py:11-34 | succeeds iff the header is a bearer pair, the token is accepted, and its id claim is a stored user id; the principal is then that stored row; the prefix assertion escapes iff the prefix is wrong |
| `Authentication.NoHeaderFails` | users/authentication.py:12-16 | a missing or empty header fails authentication |
| `Authentication.WrongPartCountFails` | users/authentication.py:17-23 | a header that does not split into exactly two fields fails authentication |
| `Authentication.WrongPrefixEscapes` | users/authentication.py:18-23 | two fields whose first is not "bearer" in any case, with any whitespace around and between them, raise `AssertionError`, which `except ValueError` does not catch |
| `Authentication.AnyCaseBearer` | users/authentication.py:18-19 | "Bearer", "bearer", "BEARER" and every other case mix, followed by a token, with any whitespace around and between the two, parse to that token |
| `Authentication.RejectedTokenNoLookup` | users/authentication.py:24-27 | a rejected token fails with "Token invalid: <reason>", whatever the users table holds (no lookup happens) |
| `Authentication.UnknownIdFails` | users/authentication.py:28-32 | an accepted token whose id names no stored user fails with "User not found" |
| `Authentication.StoredUserAuthenticates` | users/authentication.py:28-34 | a bearer header (any whitespace layout) whose token carries a stored user's id authenticates as exactly that row, with no `is_active` condition |
| `Validation.CredentialErrors` | users/models.py:24-31 | the email is required and may not be blank; a blank password gets only the blank error; a non-blank password runs through the policy; an omitted password is allowed; no errors iff the framework found none, the email is present and non-blank and a supplied password passes the policy |
| `Validation.BlankCheck` | users/models.py:21-31 | a value that is empty once stripped adds the blank error under its field and leaves every other field's errors alone; any other value adds nothing |
| `Validation.NameErrors` | users/models.py:21-22 | registration's name and surname pass iff neither is blank once stripped and the framework found nothing else |
| `Validation.ValidateLogin` | users/serializers.py:13-16 | login input is valid iff the framework found nothing, the stripped email is present and non-blank, and a supplied password passes the policy once stripped; the validated data are exactly those two fields, stripped |
| `Validation.ValidateRegistration` | users/serializers.py:25-28 | registration input is valid iff the framework found nothing, the stripped email is present and non-blank, a supplied name or surname is not blank, and a supplied password passes the policy once stripped; the validated data are exactly the five writable fields, the text ones stripped, so `id`, `otp`, `is_active` and `image` are never read |
| `Validation.ValidateTodoCreate` | todos/serializers.py:22-25 | create input is valid iff the framework found no errors and a title is present and not blank once stripped; a missing title gets the required error and a blank one the blank error; the validated data are the stripped title, deadline and is_urgent only |
| `Validation.ValidateTodoEdit` | todos/views.py:369-371 | a partial edit requires nothing; it is valid iff the framework found no errors and a supplied title is not blank once stripped, and it carries only the stripped title and the deadline |
| `Validation.PasswordPaddingIgnored` | users/models.py:25-31 | whitespace around a password changes neither registration nor login validation, nor the validated value |
| `Validation.ConvertedValuesDecide` | users/serializers.py:25-28 | bodies whose stripped text fields and age agree validate alike for registration and login |
| `Validation.PaddedShortPasswordRejected` | users/models.py:6-8 | " abc123 " has 8 characters but 6 after stripping, so registration rejects it with the length message |
| `Validation.BlankPasswordSkipsPolicy` | users/models.py:25-31 | an all-whitespace password gets exactly the blank error under "password", with no policy message, at login and at registration |
| `Accounts.UsersWithEmail` | users/views.py:73 | the ids of exactly the users with the given email, in increasing order |
| `Accounts.NoUserWithEmail` | users/views.py:73 | the email lookup comes back empty when no stored user has that email |
| `Accounts.Login` | users/views.py:65-99 | never changes the store; answers 400 with the serializer errors iff the input is invalid; raises `KeyError` iff the input is valid but has no password; raises `MultipleObjectsReturned` iff a password was sent and several users have the stripped email; a 200 carries tokens for the one user with the stripped email whose password check passes on the stripped password |
| `Accounts.LoginSucceedsIff` | users/views.py:66-95 | tokens are issued iff the input is valid, a password was sent, exactly one user has the stripped email and the password check passes on the stripped password |
| `Accounts.UnknownEmailRejected` | users/views.py:72-78 | valid input with a password whose stripped email no stored user has gets 401 "Invalid email or password", in any store |
| `Accounts.WrongPasswordRejected` | users/views.py:80-84 | valid input naming the one user with that email, with a password the check refuses, gets 401 "Invalid email or password" |
| `Accounts.LoginFailuresIndistinguishable` | users/views.py:72-84 | an unknown email and a wrong password get the identical reply, as a corollary of the two lemmas above |
| `Accounts.LoginShortPasswordRejected` | users/serializers.py:13-16 | the password policy applies to login input: a password that is non-blank but short after stripping gets a 400 whose password errors carry the length message |
| `Accounts.MyInfo` | users/views.py:145-155 | answers the stored principal's my-info projection with 200, or 404 "User not found" when the row is gone; never changes the store |
| `Accounts.NewUser` | users/models.py:20-34 | the inserted row takes the next id, the validated name, surname, age, email and password (defaults "", "", 0 and "" when omitted), an empty image, the process OTP default and is_active false |
| `Accounts.Register` | users/views.py:191-224 | invalid input gives 400 with the details and no change. Valid input inserts exactly one new user under a fresh id and leaves other rows alone. The new user has the submitted fields (text stripped), model defaults for the rest, the process OTP default and is_active false. One mail goes to its email with body "Your verification code is: " plus its code, and tokens are issued for it |
| `Accounts.RegisterIgnoresUnwritable` | users/serializers.py:25-31 | bodies that agree on age and on the stripped name, surname, email and password register identically; the password is stored as the serializer hands it on, stripped |
| `Accounts.Verify` | users/views.py:267-288 | an absent principal gives 404 and no change; a code equal to `str(submitted)` sets is_active and clears the code, changing nothing else; any other submission deletes the user with their todos and still answers 200 "Otp is not correct" |
| `Accounts.FreshCodeActivates` | users/views.py:273-279 | the emailed code, sent as text or as a JSON number, activates a newly registered user |
| `Accounts.WrongCodeCascades` | users/views.py:280-284 | after a wrong code the user is gone, no todo of theirs remains, and every other user and todo is unchanged |
| `Accounts.ResubmissionDeletesActiveAccount` | users/views.py:268-284 | after an activation, every submission except the empty string, including a missing key, deletes the now active account |
| `Accounts.DeletedUserCannotLogin` | users/views.py:72-78 | once a wrong code has deleted the only user with an email, login with that email fails as invalid credentials |
| `Otp.MatchesCode` | users/views.py:268-273 | a submission matches a generated code iff it is that code as a string or the draw as a JSON integer |
| `Otp.EmptyOnlyFromEmptyString` | users/views.py:268-273 | only the empty JSON string prints as the empty text; a missing key prints as "None" |
| `Records.DeleteUser` | todos/models.py:14 | deleting a user removes exactly that user and exactly their todos, leaves every other row as it was, and keeps the store valid |
| `Records.Lookup` | todos/views.py:127 | finds a row iff some todo has that id and that owner, which is iff the principal owns the todo under that id |
| `Records.RemoveTodo` | todos/views.py:294-295 | removes exactly the todo under that id and keeps the store valid |
| `Records.SelectBelow` | todos/views.py:63 | a filtered query: exactly the ids below the bound whose rows satisfy the filter, in increasing order |
| `Records.SelectBelowNone` | todos/views.py:63 | a filtered query that no row satisfies returns the empty list |
| `Todos.OwnedIds` | todos/views.py:63 | exactly the ids of the principal's todos, no duplicates, in increasing order |
| `Todos.ListTodos` | todos/views.py:61-65 | 200 with one entry per todo of the principal, no more and no fewer, each the list projection of the stored row; no change |
| `Todos.Retrieve` | todos/views.py:124-134 | 200 with the full row iff the principal owns a todo with that id, else 404; no change |
| `Todos.Finish` | todos/views.py:173-186 | an owned todo gets is_finished true and nothing else changes; otherwise 404 and no change |
| `Todos.FinishIdempotent` | todos/views.py:173-181 | finishing twice gives the same reply and store as finishing once |
| `Todos.Delete` | todos/views.py:290-305 | removes exactly the owned todo; otherwise 404 and no change |
| `Todos.Create` | todos/views.py:238-250 | invalid input gives 400 with the details and no change. Valid input inserts one todo under a fresh id and changes nothing else. The new todo has the stripped title, is owned by the principal, created at `now`, with deadline default `now`, is_urgent default false and is_finished false, and the reply is 201 with title, deadline and is_urgent |
| `Todos.Edit` | todos/views.py:356-378 | the ownership check comes first: an absent or foreign id gives 404 even for an invalid body; then an invalid body gives 400 with no change; otherwise only the supplied title and deadline change |
| `Todos.ForeignTodoLooksAbsent` | todos/views.py:127-134 | for retrieve, finish, delete and edit, a todo owned by someone else gets the same reply as a missing id, and nothing changes |
| `Todos.CreateIgnoresUnwritable` | todos/serializers.py:22-29 | bodies that agree on the stripped title, deadline and is_urgent create identically: is_finished, created_at, owner and id cannot be set by the client |
| `Todos.EditIgnoresUnwritable` | todos/serializers.py:32-35 | bodies that agree on the stripped title and the deadline edit identically |
| `Todos.EditKeepsFixedColumns` | todos/serializers.py:32-35 | an edit never changes id, created_at, is_finished, is_urgent or owner |
| `Todos.DeadlineDefaultPerRow` | todos/models.py:10-11 | two todos created without a deadline at different clock readings get different deadlines, each the reading its own request took |
| `Projections.ProfileExposesOnly` | users/serializers.py:7-10 | two users have the same embedded profile iff they agree on id, name and surname |
| `Projections.MyInfoExposesOnly` | users/serializers.py:19-22 | two users have the same my-info iff they agree on id, name, surname, email, age and image |
| `Projections.MyInfoHidesSecrets` | users/serializers.py:19-22 | my-info does not depend on password, otp or is_active |
| `Projections.ListItemHidesFlags` | todos/serializers.py:8-13 | a list entry does not depend on is_finished or is_urgent |
| `Projections.DetailExposesAll` | todos/serializers.py:16-19 | two todos have the same detail view iff they are the same row |
| `Service.Dispatch` | todos/urls.py:13-20 | every authenticated handler keeps the store valid |
| `Service.Serve` | users/authentication.py:10-34 | every request keeps the store valid; a failed authentication answers 403 with the failure text and changes nothing |
| `Service.OthersTodosUntouched` | todos/views.py:124-378 | no request changes or removes a todo that is not its caller's, and every todo a request adds belongs to its caller |
| `Service.CreatedAtFixed` | todos/models.py:10 | no request changes the creation time of a todo that survives it |
| `Service.MailOnlyOnRegistration` | users/views.py:196-208 | a mail is sent only by a successful registration, exactly one, to the new user's address with that user's code |

## Left out

- Token signing and decoding (`UntypedToken`, `RefreshToken.for_user`) is third-party cryptography. It is the `tokens` parameter, and an issued token pair is shown only as the user id it is bound to.
- `check_password` is the `checkPassword` parameter. `UserModel` (users/models.py:20) is a plain `models.Model` and defines no `check_password`; the model does not describe hashing.
- Randomness in `create_otp` is the `draw` parameter of `Records.Boot`, `Records.Restart` and `Otp.CreateOtp`.
- The clock (`auto_now_add`, `datetime.now`) is the `now` value of a request.
- Todos.Create: takes one clock reading for both `created_at` and the default deadline. The source reads the clock twice (todos/models.py:10-11): once when the row object is built and again at insert. A real row's default deadline can therefore differ from its `created_at` by the time between the two reads.
- Todos.DeadlineDefaultPerRow: its equality of deadline and creation time follows from `Create`'s single clock reading, not from the source.
- `send_mail` is an append to the outbox. A mail-server failure after the user row is saved is not modelled; it would give a server error with the user already stored.
- The framework's other per-field checks are the `shape` input: JSON type coercion, maximum lengths and e-mail syntax. The whitespace stripping and the blank check of character fields are modelled (`Validation.Trim`, `Validation.BlankCheck`). The framework skips the validators of a field whose value cannot be converted to text; the model still adds the policy message for a password whose `shape` entry already reports such a type error.
- Passwords.ValidatePassword: counts only the ASCII digits '0'-'9'; Python's `str.isdigit` also accepts other Unicode digits (superscripts, digits of other scripts), so the model rejects some passwords the source accepts.
- Authentication.ParseHeader: lowers ASCII letters only; no other character lowers to a letter of "bearer", so the accepted prefixes are the same.
- Authentication.Authenticate: models the `id` claim as an integer or absent; claims of other JSON types are not modelled.
- The submitted `otp` may be null, a boolean, an integer or a string; floats, lists and objects are not modelled.
- The listing order is modelled as increasing id. The query has no `order_by`, so the database's natural order is assumed.
- Running Python with assertions disabled (`-O`) would remove the bearer-prefix check; not modelled.
- Concurrent requests, including verification racing a deletion, are not modelled: requests run one at a time. The 404 branches of my-info and verify are still modelled, for a principal whose row is absent.
- Login and registration declare no authentication class. The project's settings are not part of this model, so they are modelled as running without authentication.
- Swagger annotations, admin registration, image upload handling, `__str__` and `Meta` options do not affect behaviour and are left out.
- URL routing is reduced to the `Request` datatype. The prefixes the routes are mounted under are not part of this model.
