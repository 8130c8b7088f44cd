# Accounts, sessions and navigation of a session-authenticated web application — a Dafny model

This project models the application logic of a small session-authenticated web
application: visitors register and log in, browse static pages, and logged-in
users can "order a coffee", which raises a per-account counter. It covers:

- the **account store** (`database.py`): a table of accounts with a unique,
  case-sensitive username, a password digest and a coffee counter; seeding of
  the two default accounts, lookup by username, account creation that fails on
  a taken username, authentication, and counter increments
  (module `Database`, class `Database.AccountStore`);
- the **request handlers** (`main.py`): login, registration, logout, the form
  pages, the coffee endpoint and the greeting endpoint, as transitions over the
  store and the session record (module `App`, class `App.Session`);
- the **navigation bar** built by `render_page` (module `Navigation`);
- the **registration schema** (`schemas.py`, module `Schemas`) and Python's
  `str.strip` (module `Strings`), with the proof that the schema accepts exactly
  what the handler's inline checks accept;
- the end-to-end flows exercised by `tests/test_main.py` (module `Scenarios`).

The password digest (SHA-256 in the application) is a parameter `hash: string -> string`
given to the store's constructor and to the pure lookups. Nothing is assumed
about it, not even that it is injective: authentication succeeds exactly when
`hash(password)` equals the stored digest. User-facing texts are the fixed
messages of `Messages.Message`, with their Russian texts in `Messages.Text`.
Links in the navigation bar are the names of their endpoints.

Where the code is more specific than the application's description, the model
follows the code: `register_submit` compares the passwords before it looks at
the username, while the schema checks the username first; `create_user` itself
accepts an empty username (only the handler rejects it); `login_submit` does not
strip the username while `register_submit` does.

## Model

| member | source | states |
|---|---|---|
| `Strings.TrimStart` | schemas.py:17 | the result is the suffix of the input left after the leading whitespace (Python `str.isspace`), and does not start with whitespace |
| `Strings.TrimEnd` | schemas.py:17 | the result is the prefix left after the trailing whitespace, and does not end with whitespace |
| `Strings.Strip` | schemas.py:17 | `str.strip()`: empty exactly when the input is all whitespace, otherwise starts and ends with a non-space character |
| `Strings.StripIsFactor` | schemas.py:17 | the stripped string is a factor of the input with only whitespace before and after it |
| `Strings.StripUnique` | schemas.py:17 | any factor with whitespace-only margins and non-space ends is the stripped string |
| `Strings.StripIdempotent` | schemas.py:17-20 | stripping twice equals stripping once |
| `Schemas.ValidateUsername` | schemas.py:14-20 | rejects with the empty-username error exactly the all-whitespace inputs; otherwise returns the stripped input |
| `Schemas.ValidateUsernameIdempotent` | schemas.py:17-20 | validating an already validated username returns it unchanged |
| `Schemas.ValidatePasswords` | schemas.py:22-26 | rejects with the mismatch error exactly when password and confirmation differ; otherwise returns the form unchanged |
| `Schemas.AsForm` | schemas.py:28-39 | the three fields reach the form unchanged (username stripped); accepted iff stripped username non-empty and passwords equal; username error reported first |
| `Database.FindByUsername` | database.py:80-85 | returns an account iff one has exactly that username, and then it is that unique account |
| `Database.Authenticate` | database.py:105-113 | returns an identity iff an account with that username stores `hash(password)`; the identity is that account's id and username; unknown user and wrong password both give none |
| `Database.Insert` | database.py:88-95 | a new account under the next id with the given digest and a zero counter; existing accounts unchanged; usernames stay unique |
| `Database.SeedOne` | database.py:64-76 | one seeding step keeps every existing account, leaves the username present, and adds only that default user |
| `Database.SeedDefaults` | database.py:63-77 | the seeded table is well formed (ids, unique usernames) |
| `Database.SeedingKeepsExistingRows` | database.py:64-69 | seeding never changes or removes an existing account |
| `Database.SeedingAddsEveryUser` | database.py:64-76 | after seeding every default username is present |
| `Database.SeedingAddsOnlyListedUsers` | database.py:70-76 | every added account is a default user with the digest of its password and a zero counter |
| `Database.SeedingPresentUsersIsNoop` | database.py:68-69 | seeding a table that already holds every default username changes nothing |
| `Database.SeedingIsIdempotent` | database.py:63-77 | seeding twice gives the same table as seeding once |
| `Database.SeedingEmptyTable` | database.py:20-23 | seeding an empty table yields exactly admin (id 1) and barista (id 2) with their digests and zero counters |
| `Database.AccountStore.constructor` | database.py:30-36 | an empty, well-formed table whose ids start at 1 |
| `Database.AccountStore.InitDb` | database.py:62-77 | the store becomes the seeding of its old table with the default users; uniqueness is kept |
| `Database.AccountStore.CreateUser` | database.py:88-102 | fails and leaves the table exactly as before iff the username is taken; otherwise adds exactly one account with `hash(password)` and count 0, others unchanged |
| `Database.AccountStore.IncrementCoffeeCount` | database.py:116-124 | absent id: none, table unchanged; present id: count becomes old + 1, that count is returned, every other field and account unchanged |
| `Navigation.VisibleEntries` | main.py:52-61 | logged out: one entry per menu item, position by position; logged in: exactly the entries of the items other than login and register |
| `Navigation.LogoutOnlyWhenLoggedIn` | main.py:62-69 | the logout entry is present iff logged in, and then once, as the last entry |
| `Navigation.NavWhenLoggedOut` | main.py:33-61 | logged out, the navigation is the five base items in order with no logout entry |
| `Navigation.NavWhenLoggedIn` | main.py:33-69 | logged in, the navigation is home, catalog, about in order, then logout |
| `Navigation.BuildNav` | main.py:51-69 | the loop builds exactly the navigation list `Nav(items, loggedIn)` |
| `App.Session.constructor` | main.py:30 | a new session holds no identity and no pending message |
| `App.RenderPage` | main.py:44-80 | the page gets the navigation for the login state, the user and the flash; the flash is removed from the session; nothing else changes |
| `App.LoginForm` | main.py:98-107 | the pending login error and the flash are shown once and removed; the "already logged in" line appears iff a user is in the session |
| `App.LoginSubmit` | main.py:110-123 | correct credentials: identity is exactly the account's id and username, success flash, redirect home; otherwise login error, identity and flash unchanged, redirect to login; store untouched |
| `App.RegisterForm` | main.py:126-135 | the pending registration error and the flash are shown once and removed |
| `App.RegisterPrecheck` | main.py:145-152 | accepts iff passwords equal and stripped username non-empty; the mismatch is reported before the empty username |
| `App.SchemaAgreesWithPrecheck` | main.py:145-152 | the schema accepts exactly the inputs the inline checks accept, with the same username; the errors differ only when both checks fail |
| `App.RegistrationOutcome` | main.py:145-157 | the first failing check in the order mismatch, empty username, existing username; otherwise the stripped username, which is not taken |
| `App.RegisterSubmit` | main.py:138-167 | every rejection sets its error and leaves store, identity and flash unchanged; success inserts exactly one account with the stripped username and logs it in |
| `App.Logout` | main.py:170-174 | identity removed, logout flash set, other messages and the store untouched |
| `App.SayHello` | main.py:177-179 | the message is "Hello " followed by the name |
| `App.SayHelloInjective` | main.py:177-179 | the name can be read back from the greeting |
| `App.Coffee` | main.py:182-193 | always 418; logged in as an existing account, its count grows by exactly one and nothing else changes; otherwise the store is unchanged |
| `Scenarios.Start` | main.py:23-26 | at start-up the store holds the two default accounts and the session is empty |
| `Scenarios.LoginSuccessFlow` | tests/test_main.py:49-62 | after logging in as admin the home page shows the success flash, the identity, the logout link and no login or register link |
| `Scenarios.LoginInvalidCredentialsFlow` | tests/test_main.py:65-76 | a wrong password (whose digest differs) shows the login error and leaves the visitor logged out |
| `Scenarios.RegisterSuccessFlow` | tests/test_main.py:79-95 | registering a new name logs it in as account 3 with the success flash and a logout link |
| `Scenarios.RegisterPasswordMismatchFlow` | tests/test_main.py:98-112 | mismatched passwords show the mismatch error and create no account |
| `Scenarios.RegisterDuplicateFlow` | tests/test_main.py:115-138 | registering the same name twice shows the duplicate error and creates one account only |
| `Scenarios.LogoutFlow` | tests/test_main.py:141-153 | after logout the home page shows the logout flash, login and register links and no logout link |
| `Scenarios.CoffeeLoggedOutFlow` | tests/test_main.py:163-167 | coffee while logged out answers 418 and changes no count |
| `Scenarios.CoffeeLoggedInFlow` | tests/test_main.py:170-184 | coffee as admin answers 418 and raises admin's count from 0 to 1, barista's stays 0 |

## Left out

- SHA-256 (`hashlib`): the digest is the parameter `hash`; no property of SHA-256 is used.
- The schema migration in `init_db` (`PRAGMA table_info`, `ALTER TABLE`): database DDL, not application logic; the model's counter is never missing.
- The database engine, asynchronous sessions, `commit`/`refresh`/`rollback` and `async`/`await`: the table is an in-memory map changed atomically by each operation.
- Jinja2 rendering, `TemplateResponse` and `url_for`: a page is the record of values given to the template; links are endpoint names.
- Cookie signing and serialisation by the session middleware and its secret key: the session is a plain record.
- The `IntegrityError` branch of `register_submit` (main.py:159-163): it only fires when another request inserts the same username between the duplicate check and the insert; in a sequential model the preceding check makes it unreachable, and the model proves the insert succeeds there.
- Logging and the swallowed exception in `coffee`: side-channel output only; the increment itself cannot fail in the model.
- The `root`, `catalog` and `about` handlers: each is `RenderPage` with a fixed template and page name.
- FastAPI application wiring, the lifespan hook (modelled only as `Scenarios.Start`) and `Form(...)` parameter injection, including the 422 answer for a missing form field.
- The 64-character length of the username column: SQLite does not enforce it.
- Database.AccountStore.IncrementCoffeeCount: counts are unbounded naturals; SQLite's 64-bit integer limit and the `or 0` fallback for a NULL count (impossible once the column is NOT NULL) are not modelled.
- Database.AccountStore.CreateUser: ids come from a counter that starts at 1 and is not consumed by a failed insert; SQLite's rule (largest existing id plus one) gives the same ids because accounts are never deleted, but the model does not state that equality.
