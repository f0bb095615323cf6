# To-do backend core, modelled in Dafny

This project models the request-handling core of a multi-user to-do service: a JSON HTTP API where users
sign up and sign in with an email and a password, receive a session token in an `access_token` cookie,
and then create, list, read, update, toggle and delete their own tasks under `/users/{user_id}/tasks`.

The model covers:

- the per-client sliding-window limiter on the sign-up and sign-in endpoints (`RateLimit`, a class holding
  the request log);
- the two request guards, "who is calling" from the cookie and "does the path name the caller"
  (`Dependencies`);
- the authentication handlers (`AuthRoutes`) and the six task handlers (`TaskRoutes`). The handlers that
  write (sign-up, create, update, delete, toggle) are methods on a `Db` object holding the `users` and
  `tasks` tables. Those that only read are functions (`GetTask`, `Signout`) or methods without a `modifies`
  clause (`Signin`, `ListTasks`) over the table they read;
- the records, their column bounds and the cascade from users to tasks (`Models`);
- the request validation rules and response shapes (`Schemas`);
- the error taxonomy and the JSON error envelope (`Exceptions`);
- the normalisation of the database URL (`DatabaseUrl`);
- the pieces of Python's `str` and `uuid.UUID` the core relies on: `lower`, `strip`, `startswith`,
  `replace`, `str(uuid)` and the UUID parser (`Text`, `Uuids`);
- password hashing and token signing as abstract primitives with soundness predicates (`Security`).

Clocks, identifier generation and password salts are parameters of the operations (`now`, `newId`, `salt`).
A handler's `requires` states what the request schema guarantees before the handler body runs: a request
violating the schema is answered 422 by the web framework and never reaches the handler.

## Model

| member | source | states |
|---|---|---|
| RateLimit.ClientKey | backend/app/rate_limit.py:21 | a request is counted under its client host, and under the shared key "unknown" only when the client is not known |
| RateLimit.ClientKeysSeparate | backend/app/rate_limit.py:21 | two different known hosts never share a key; a key is shared only between an unknown client and a host literally named "unknown" |
| RateLimit.KeepAfter | backend/app/rate_limit.py:15-17 | the purge keeps exactly the timestamps newer than the cutoff, each as many times as it occurs, in their original order (a subsequence), and never grows the list |
| RateLimit.Recorded | backend/app/rate_limit.py:20-27 | after one limiter call every entry of the key is inside the window, a key holding at most 10 entries still does, and a list recorded in time order stays in time order |
| RateLimit.PurgeKeepsOrder | backend/app/rate_limit.py:17 | purging a time-ordered list keeps it ordered, and appending the current time to it keeps it ordered |
| RateLimit.FullWindowRefusesUntilOldestAgesOut | backend/app/rate_limit.py:10-12 | a full ordered window of 10 entries refuses the next request exactly while its oldest entry is younger than 60 seconds |
| RateLimit.KeepAfterAll | backend/app/rate_limit.py:15-17 | when no entry is older than the cutoff the purge keeps the whole list |
| RateLimit.SubsequenceSorted | backend/app/rate_limit.py:17 | dropping entries from an ordered list keeps it ordered |
| RateLimit.SubsequenceMembers | backend/app/rate_limit.py:17 | every kept entry was in the list before |
| RateLimit.AppendSorted | backend/app/rate_limit.py:27 | appending a time no earlier than every entry keeps the list ordered |
| RateLimit.RateLimiter.constructor | backend/app/rate_limit.py:7-8 | the log starts empty (every key reads as an empty list) and bounded |
| RateLimit.RateLimiter.CleanOldEntries | backend/app/rate_limit.py:15-17 | only the key `ip` changes, and it maps to its old list purged of entries at or before `now - window` |
| RateLimit.RateLimiter.CheckAuthRateLimit | backend/app/rate_limit.py:20-27 | the request is refused with RateLimitError exactly when 10 or more entries survive the purge; only the caller's key changes, to the purged list plus `now` when admitted; at most 10 entries per key is preserved |
| Dependencies.GetCurrentUser | backend/app/dependencies.py:19-44 | the caller is resolved exactly when the cookie is present and non-empty, the token decodes, carries a subject, the subject parses as a UUID and names a stored user; every failure is the same AuthenticationError |
| Dependencies.CurrentUserIsStored | backend/app/dependencies.py:39-44 | the resolved caller is the stored user whose id the token's subject names |
| Dependencies.IssuedTokenAuthenticates | backend/app/dependencies.py:19-44 | a token issued for a stored user resolves to that user until it expires, and to AuthenticationError afterwards |
| Dependencies.UnknownSubjectRefused | backend/app/dependencies.py:39-42 | a valid token for an id with no stored user is refused with AuthenticationError |
| Dependencies.VerifyUserOwnership | backend/app/dependencies.py:47-49 | the check fails exactly when the path's user id differs from the caller's id, with AuthorizationError (403) |
| Dependencies.GuardsDistinguishable | backend/app/dependencies.py:24-49 | an unauthenticated caller (401, UNAUTHORIZED) is told apart from an unauthorised one (403, FORBIDDEN); an instance of `Exceptions.KindsDistinct` |
| AuthRoutes.AuthCookie | backend/app/routes/auth.py:16-24 | the session cookie is `access_token`, HttpOnly, not Secure, SameSite lax, and lives 1800 seconds |
| AuthRoutes.CookieExpiresWithToken | backend/app/routes/auth.py:23 | the cookie's lifetime equals the lifetime of the token it carries |
| AuthRoutes.ReplyFor | backend/app/routes/auth.py:54-60 | the reply carries the user's id and email, a token whose subject is the text form of the id, and the cookie holding that same token |
| AuthRoutes.Signup | backend/app/routes/auth.py:40-60 | with the email lower-cased: an existing user with that email gives ConflictError("Account creation failed") and stores nothing; otherwise exactly one user, with that email and the password's hash, is added and the reply is built for it; well-formedness of the tables is kept |
| AuthRoutes.SignupKeepsEmailsUnique | backend/app/models.py:17-19 | adding a user whose email is not taken keeps emails unique |
| AuthRoutes.CaseVariantConflicts | backend/app/routes/auth.py:41-44 | an email differing from a stored one, position by position, only in the case of ASCII letters is taken as well |
| AuthRoutes.Signin | backend/app/routes/auth.py:74-87 | sign-in succeeds exactly when a stored user has the lower-cased email and the password verifies against its hash; every failure is AuthenticationError("Invalid credentials") |
| AuthRoutes.SignupThenSignin | backend/app/routes/auth.py:40-87 | after a successful sign-up, signing in with the same password and any case variant of the email succeeds |
| AuthRoutes.ReplyTokenAuthenticates | backend/app/routes/auth.py:54-55 | the token a sign-up or sign-in hands out resolves to that user on later requests while it has not expired |
| AuthRoutes.SignoutAsWritten | backend/app/routes/auth.py:98-100 | as written: sign-out succeeds exactly when the caller is authenticated and answers a bare 204 that deletes no cookie; otherwise AuthenticationError |
| AuthRoutes.SignoutAsWrittenKeepsSession | backend/app/routes/auth.py:99-100 | as written, after signing out the browser still sends the session cookie, and it resolves to the same user |
| AuthRoutes.Signout | backend/app/routes/auth.py:98-100 | as intended: sign-out succeeds exactly when the caller is authenticated, answering 204 and deleting the `access_token` cookie; otherwise AuthenticationError |
| AuthRoutes.SignoutEndsSession | backend/app/routes/auth.py:99 | after the intended sign-out the browser sends no session cookie, so its next request is refused with AuthenticationError; other cookies are kept |
| TaskRoutes.FindTask | backend/app/routes/tasks.py:99-102 | a task is found exactly when a stored task has that id and belongs to the owner, and it is that task |
| TaskRoutes.CreateTask | backend/app/routes/tasks.py:27-43 | a foreign path gives AuthorizationError and changes nothing; otherwise exactly one task is added under the fresh id, with the stripped title, the given description, not completed, owned by the caller, both timestamps `now`; no other user's task changes |
| TaskRoutes.GetTask | backend/app/routes/tasks.py:91-105 | a foreign path gives AuthorizationError; a task that is missing or belongs to someone else gives NotFoundError("Task not found"); otherwise the caller's task as a response |
| TaskRoutes.OtherUsersTaskNotFound | backend/app/routes/tasks.py:99-104 | another user's task is indistinguishable from a missing one: both answer NotFoundError |
| TaskRoutes.Updated | backend/app/routes/tasks.py:135-140 | an update replaces the title (stripped) and the description only where given, always sets `updated_at`, and keeps id, owner, completion and `created_at` |
| TaskRoutes.EmptyUpdateOnlyTouchesTimestamp | backend/app/routes/tasks.py:135-140 | an update with neither field given changes only `updated_at` |
| TaskRoutes.UpdateIdempotent | backend/app/routes/tasks.py:135-140 | repeating an update changes nothing but `updated_at` |
| TaskRoutes.UpdatesCompose | backend/app/routes/tasks.py:135-140 | two updates in a row equal one update whose fields take the later value where given |
| TaskRoutes.UpdateTask | backend/app/routes/tasks.py:119-144 | a foreign path gives AuthorizationError, a task the caller does not own gives NotFoundError, both changing nothing; otherwise only that task changes, to its update |
| TaskRoutes.DeleteTask | backend/app/routes/tasks.py:157-173 | same error cases; otherwise exactly that task is removed and nothing else changes |
| TaskRoutes.Toggled | backend/app/routes/tasks.py:201-202 | toggling flips completion, sets `updated_at` and changes nothing else |
| TaskRoutes.ToggleTwice | backend/app/routes/tasks.py:201-202 | toggling twice restores the original row except for `updated_at` |
| TaskRoutes.ToggleComplete | backend/app/routes/tasks.py:186-206 | same error cases; otherwise only that task changes, to its toggled form |
| TaskRoutes.InsertNewestFirst | backend/app/routes/tasks.py:72 | inserting a task into the ordered rows adds exactly that task (as a multiset) |
| TaskRoutes.InsertKeepsNewestFirst | backend/app/routes/tasks.py:72 | insertion keeps rows ordered by `created_at`, newest first |
| TaskRoutes.InsertKeepsDistinct | backend/app/routes/tasks.py:69-76 | inserting a task whose id is new keeps ids distinct |
| TaskRoutes.InsertStep | backend/app/routes/tasks.py:69-76 | one insertion extends an ordered enumeration of the ids placed so far by one id |
| TaskRoutes.OrderNewestFirst | backend/app/routes/tasks.py:69-76 | the result lists every task with an id in the given set exactly once, nothing else, newest first |
| TaskRoutes.Page | backend/app/routes/tasks.py:73-74 | the page is the slice `[offset, offset + limit)` clipped to the rows, empty past the end |
| TaskRoutes.ListTasks | backend/app/routes/tasks.py:55-78 | a foreign path gives AuthorizationError; otherwise `total` is the number of the caller's tasks and `tasks` is the requested page (by default the first 50) of all the caller's tasks, newest first |
| Models.NewUser | backend/app/models.py:9-30 | a new user row holds the given id, email and hash, with both timestamps `now` |
| Models.NewTask | backend/app/models.py:33-60 | a new task row is not completed, holds the given fields, with both timestamps `now` |
| Models.PutTaskKeepsWellFormed | backend/app/models.py:45-50 | storing a task that fits the column bounds and belongs to a stored user keeps the tables well formed |
| Models.DeleteTaskKeepsWellFormed | backend/app/models.py:33-60 | removing a task keeps the tables well formed |
| Models.DeleteUser | backend/app/models.py:30 | deleting a user also deletes exactly that user's tasks, keeps every other row unchanged and keeps the tables well formed |
| Models.Db.constructor | backend/app/models.py:9-60 | the tables start empty and well formed |
| Schemas.ValidEmail | backend/app/schemas.py:10 | an address holds an `@` and is at most 254 characters long (the part of `EmailStr` the model keeps) |
| Schemas.ValidSignupRequest | backend/app/schemas.py:9-11 | a valid email and a password of 8 to 128 characters |
| Schemas.ValidSigninRequest | backend/app/schemas.py:14-16 | a valid email and a password of any length |
| Schemas.ValidTaskCreate | backend/app/schemas.py:30-32 | a title of 1 to 255 characters and, when given, a description of at most 2000 |
| Schemas.ValidTaskUpdate | backend/app/schemas.py:35-37 | both fields optional, each bounded as at creation when given |
| Schemas.UpdateBoundsMatchCreate | backend/app/schemas.py:30-37 | a title and a description given in an update are bounded exactly as at creation |
| Schemas.SignupBodySignsIn | backend/app/schemas.py:9-16 | every valid sign-up body is a valid sign-in body |
| Schemas.ToTaskResponse | backend/app/schemas.py:40-48 | a task is serialised with every field but its owner (see `Schemas.ResponseHidesOnlyOwner`) |
| Schemas.StoredTitle | backend/app/routes/tasks.py:36 | the stored title is the request title without surrounding whitespace, never longer |
| Schemas.CreateFitsColumns | backend/app/schemas.py:30-32 | a valid creation request fits the title and description columns |
| Schemas.BlankTitleStoredEmpty | backend/app/schemas.py:31 | a title made only of whitespace passes validation and is stored empty |
| Schemas.Boundaries | backend/app/schemas.py:9-37 | worked examples at the length limits, not a general property: a 255-character title and a 2000-character description pass; empty or 256-character titles, a 2001-character description and a 5-character sign-up password are rejected |
| Schemas.ResponseHidesOnlyOwner | backend/app/schemas.py:40-48 | two tasks give the same response exactly when they differ at most in their owner |
| Security.CreateAccessToken | backend/app/security.py:19-28 | with a sound codec, the token issued at `now` is non-empty and decodes at `now` to its subject with expiry `now + 1800` |
| Security.TokenLifetimeSeconds | backend/app/security.py:23-25 | a token lives 30 minutes, 1800 seconds |
| Security.IssuedTokenDecodes | backend/app/security.py:19-39 | a token decodes to its subject and expiry up to its expiry time and to nothing afterwards |
| Exceptions.NewAppException | backend/app/exceptions.py:5-10 | the base error holds the code, message, status and details it is given (see `Exceptions.AppExceptionDefaults`) |
| Exceptions.AppExceptionDefaults | backend/app/exceptions.py:6 | left out, the status defaults to 400 and the details to None; given, each attribute is kept as passed |
| Exceptions.NotFoundError | backend/app/exceptions.py:13-15 | carries the NotFound code and status of the kind table, the given message (default "Resource not found") and no details |
| Exceptions.ConflictError | backend/app/exceptions.py:18-20 | carries the Conflict code and status, the given message (default "Resource conflict") and no details |
| Exceptions.AuthenticationError | backend/app/exceptions.py:23-25 | carries the UNAUTHORIZED code and 401, the given message (default "Not authenticated") and no details |
| Exceptions.AuthorizationError | backend/app/exceptions.py:28-30 | carries the FORBIDDEN code and 403, the given message (default "Access denied") and no details |
| Exceptions.ValidationError | backend/app/exceptions.py:33-37 | carries the VALIDATION_ERROR code and 422, the given message and the given details |
| Exceptions.RateLimitError | backend/app/exceptions.py:40-42 | carries the RATE_LIMITED code and 429, the given message and no details |
| Exceptions.Envelope | backend/app/exceptions.py:48-54 | the body holds exactly one key, `error`, whose object holds exactly the code, message and details |
| Exceptions.Raise | backend/app/exceptions.py:5-42 | each error kind carries its own code and status, the given message, and details only for ValidationError |
| Exceptions.DefaultConstructors | backend/app/exceptions.py:13-42 | each error class without arguments carries its default message and no details |
| Exceptions.KindOfCode | backend/app/exceptions.py:13-42 | a code read back names the kind that carries it |
| Exceptions.CodeIdentifiesKind | backend/app/exceptions.py:13-42 | the code of a raised error identifies its kind |
| Exceptions.KindsDistinct | backend/app/exceptions.py:13-42 | distinct kinds have distinct codes and distinct statuses |
| Exceptions.AppExceptionHandler | backend/app/exceptions.py:45-55 | the response has the error's status, and the envelope `{"error": {code, message, details}}` reads back to the error |
| Exceptions.HandlerInjective | backend/app/exceptions.py:45-55 | distinct errors give distinct responses |
| DatabaseUrl.Cleaned | backend/app/database.py:8 | surrounding whitespace is stripped, then surrounding quotes (see `DatabaseUrl.CleanedTrims`) |
| DatabaseUrl.CleanedTrims | backend/app/database.py:8 | cleaning never lengthens the URL and leaves it neither starting nor ending with a quote |
| DatabaseUrl.ReplaceFirst | backend/app/database.py:10 | a string without the pattern is unchanged; a string starting with it gets the replacement at the front |
| DatabaseUrl.Rewrite | backend/app/database.py:9-13 | only the scheme is ever rewritten: a changed URL starts with `postgresql+asyncpg://` and its remainder is that of a `postgres://` or `postgresql://` input; any other URL is unchanged |
| DatabaseUrl.EnsureAsyncUrl | backend/app/database.py:6-13 | the result is the cleaned URL or starts with the async scheme |
| DatabaseUrl.SchemesExclusive | backend/app/database.py:9-12 | no URL starts with both legacy schemes, so the order of the two tests does not matter |
| DatabaseUrl.LegacySchemesRewritten | backend/app/database.py:9-12 | `postgres://rest` and `postgresql://rest` both become `postgresql+asyncpg://rest` |
| DatabaseUrl.AsyncUrlKept | backend/app/database.py:13 | a URL already naming the async driver is left unchanged |
| DatabaseUrl.CleanedNoop | backend/app/database.py:8 | a URL with no surrounding whitespace or quotes is already clean |
| DatabaseUrl.RewrittenStaysClean | backend/app/database.py:6-13 | normalising a rewritten URL a second time changes nothing, unless its remainder ends in whitespace that only surfaced once the quotes were stripped |
| Text.Lower | backend/app/routes/auth.py:41 | lower-casing keeps the length, turns each upper-case ASCII letter into its lower-case form and changes no other character |
| Text.LowerEqualIff | backend/app/routes/auth.py:41-44 | two strings lower-case to the same string exactly when they differ, position by position, only in the case of ASCII letters |
| Text.LowerIdempotent | backend/app/routes/auth.py:47 | lower-casing twice is lower-casing once |
| Text.Strip | backend/app/routes/tasks.py:36 | the result is the infix left after cutting everything from the given characters on both sides, and neither starts nor ends with one of them |
| Text.StripNoop | backend/app/database.py:8 | a string that neither starts nor ends with a stripped character is unchanged |
| Text.StripAllStripped | backend/app/routes/tasks.py:36 | a string made only of stripped characters becomes empty |
| Text.StripIdempotent | backend/app/routes/tasks.py:136 | stripping twice is stripping once |
| Text.StripWhitespace | backend/app/routes/tasks.py:36 | the result is never longer and has no surrounding Python whitespace |
| Text.RemoveAll | backend/app/dependencies.py:35 | removing a character leaves none of it and never lengthens the string |
| Text.RemoveAllAppend | backend/app/dependencies.py:35 | removing a character distributes over concatenation |
| Text.RemoveAllAbsent | backend/app/dependencies.py:35 | a string without the character is unchanged |
| Uuids.ToHex | backend/app/routes/auth.py:54 | the digits have the requested width and are all lower-case hexadecimal |
| Uuids.FromHex | backend/app/dependencies.py:34-37 | digits parse exactly when all are hexadecimal, to a value below 16 to the number of digits |
| Uuids.FromHexToHex | backend/app/dependencies.py:34-37 | reading back the digits of a number gives the number |
| Uuids.UuidToString | backend/app/routes/auth.py:54 | the text form has 36 characters with hyphens at 8, 13, 18 and 23 |
| Uuids.ParseUuid | backend/app/dependencies.py:34-37 | a parse succeeds only when 32 characters remain once braces and hyphens are removed |
| Uuids.DropSeparator | backend/app/dependencies.py:35 | removing the hyphens of a group layout grows the digits read so far by the next group |
| Uuids.DropLayoutHyphens | backend/app/dependencies.py:35 | removing the hyphens of the 8-4-4-4-12 layout gives back the 32 digits |
| Uuids.ParseUuidToString | backend/app/dependencies.py:34-37 | the text form of a UUID parses back to the same UUID |
| Uuids.UuidToStringInjective | backend/app/routes/auth.py:54 | distinct UUIDs have distinct text forms, so a token's subject names one user |

## Left out

- Password hashing (bcrypt) and token signing (JWT) are abstract: `Security.PasswordHasher` and `Security.TokenCodec` are records of functions, and the lemmas that need them to work assume `HasherSound` and `CodecSound`. Signing keys, the algorithm name and their `.strip()` are not modelled.
- Security.CreateAccessToken: the optional `expires_delta` argument is not modelled; every caller in the core uses the default lifetime.
- Clocks are parameters: `now` is passed in. The limiter reads the monotonic clock twice per call (purge and append), and the model uses one reading for both.
- Fresh ids (`uuid4`, `gen_random_uuid()`) and bcrypt salts are parameters with a freshness `requires`.
- Concurrency between requests is not modelled: each handler runs atomically, and the limiter's log is shared state without interleaving.
- The SQL engine, sessions, commit and refresh are not modelled: the two tables are maps in a `Db` object, and each handler's database effect is the map update it makes. `get_db` and the connection pool are not part of this model.
- TaskRoutes.ListTasks: the database's `ORDER BY created_at DESC` leaves ties unordered; the model's ordering loop returns one newest-first arrangement, and the contract pins the page down only up to the order of equal `created_at` values.
- Text.Lower: only ASCII letters are lower-cased. Python's `str.lower()` also folds non-ASCII letters, so two emails differing only in non-ASCII case are distinct in the model.
- Schemas.ValidEmail: `EmailStr` is approximated by "contains `@`, at most 254 characters"; the full email grammar and its normalisation are not modelled.
- Uuids.ParseUuid: the parser's deletion of the substrings `urn:` and `uuid:` wherever they occur in the string is not modelled. Neither are the forms `int(hex, 16)` also accepts (sign, underscores, a `0x` prefix, surrounding whitespace), which are rare in a token subject.
- Schema validation is not modelled as code: pydantic rejects invalid bodies before a handler runs, so handlers `requires` the schema predicate. The application's own `ValidationError` class is modelled, but no core path raises it.
- The limiter is modelled on its own. Its composition with the sign-up and sign-in handlers, which run it first as a dependency, is not.
- Application start-up, CORS, configuration loading and the engine options of the database module are not part of this model. Only `_ensure_async_url` is.
- DatabaseUrl.EnsureAsyncUrl is not idempotent in general: `"' x'"` cleans to `" x"`, which a second pass strips further. Only the conditional stability in `DatabaseUrl.RewrittenStaysClean` is claimed.
- Timestamps are integers: time-zone handling and `datetime` precision are not modelled, and the database's `onupdate=now()` is folded into the handler's `now`.
- The server does not revoke session tokens: even with the intended sign-out, a copy of the token stays valid until it expires. The model reflects this (`GetCurrentUser` only checks signature, expiry and the user).

## Findings

| source | as written | input that shows it | evidently intended | confidence | as-written member | corrected member |
|---|---|---|---|---|---|---|
| backend/app/routes/auth.py:98-100 | the handler deletes the cookie on the injected response object but returns a new `Response(status_code=204)`; the framework sends only a returned response, without the injected one's headers | any authenticated `POST /signout`: the 204 carries no `Set-Cookie`, and the browser's next request still authenticates | the reply deletes the `access_token` cookie, ending the browser's session | medium, not executed; rests on the handler text and the framework's documented handling of returned responses | AuthRoutes.SignoutAsWritten, AuthRoutes.SignoutAsWrittenKeepsSession | AuthRoutes.Signout, AuthRoutes.SignoutEndsSession |
