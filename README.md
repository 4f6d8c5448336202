# Budget manager backend: the store and its route handlers

This project models the server of a multi-user budgeting application: an
Express process whose route handlers (server.js) run SQL statements against
one SQLite database (database.js).

The database has six tables:
- users
- system_settings, a single row holding the registration switch
- per-user settings
- bills
- one-off amount overrides per (bill, year, month)
- cleared-transaction flags

Each handler checks the session and then runs a handful of INSERT, UPDATE and
DELETE statements. The schema's constraints decide which of those statements
fail:
- NOT NULL
- CHECK on the due day, the frequency and the month
- UNIQUE
- foreign keys with ON DELETE CASCADE, enforced because the handle turns
  foreign keys on

The model has two layers.

- **Specification layer.** `Schema` is the database as a value `Db`: one map
  or set per table plus the AUTOINCREMENT counters. `Db.Valid` is the
  schema's constraints together with one rule the handlers keep themselves:
  an override belongs to its bill's owner. `Accounts`, `Admin` and `UserData`
  give every route a function from the database, the session and the request
  to the reply status, the new database and the reply body. The error replies
  carry the exact status codes and messages of server.js. `Ordering` defines
  the listing order `ORDER BY due_day, name` under SQLite's BINARY collation.
- **Store layer.** `Server.Store` is the database handle. It is a class with
  one field per table. Each handler is a method that updates those fields in
  place, step by step as the handler does. Its `ensures` ties the reply and
  the new tables to the route function, and keeps `Valid`. Two methods carry
  loops:
  - the `bills.forEach` insert loop of setup and registration, proved against
    the recursive `Accounts.InsertBills`;
  - the bill listing, proved sorted, free of repeated ids and complete against
    `UserData.IsBillListing`.

Sessions are explicit values `Option<Session>`. `requireAuth` and
`requireAdmin` are the guards `Common.Guarded` and `Common.AdminGuarded`.
Sessions are never checked against the users table, because the server does
not check them either. A session that outlives its user is therefore modelled
with the consequences that follow:
- a bill insert or a cleared-flag insert fails on the foreign key (status 500);
- a password change fails with a 500.

Setup and registration run the user, settings and bill inserts as independent
statements. A failure part-way leaves the user and whatever was inserted
before the failure in place. The model states this and does not assume
atomicity.

Three behaviours of the code shape the model:
- **Effective amount.** The server never computes the effective amount of a
  bill in a month; it only stores overrides. `UserData.EffectiveAmount`
  defines that reading (the override amount if there is one, else the base
  amount) as a query over the tables.
- **Settings rows.** A user does not always own exactly one settings row. A
  setup or registration request without settings leaves a user with none. A
  settings update for such a user matches no row and succeeds with an empty
  reply.
- **Missing system_settings row.** Registration refuses (403) when that row
  is missing, while the setup status and the admin settings route report
  registration as allowed in that case. The row is missing only before
  `initDatabase` has run, and `Schema.InitDatabase` always inserts it, so no
  request sees the two readings differ.

## Model

| member | source | states |
|---|---|---|
| Common.Guarded | server.js:38-44 | requireAuth: the handler's reply exactly when the session has a non-zero user id, otherwise 401 "Unauthorized" and no body |
| Common.AdminGuarded | server.js:47-53 | requireAdmin: the handler's reply exactly when the session has a user id and the admin flag, otherwise 403 "Forbidden - Admin access required" (also with no session) |
| Schema.ParseFrequency | database.js:70 | the frequency CHECK admits a text exactly when it is the name of one of the four frequencies, and yields that frequency |
| Schema.BillFromInput | database.js:64-75 | a bill row is written exactly when name, amount, due day and frequency are present, 1 <= due_day <= 31 and the frequency is admitted; the row holds the request's values, the caller's user id and notes defaulting to the empty text |
| Schema.Db.Valid | database.js:17-103 | the CREATE TABLE constraints (AUTOINCREMENT ids below the counters, UNIQUE usernames, foreign keys, the due_day, frequency and month CHECKs) plus the rule that an override belongs to its bill's owner; every route and every store method keeps it |
| Schema.EmptyDb | database.js:17-103 | freshly created tables are empty, satisfy every constraint, and have no system_settings row |
| Schema.InitDatabase | database.js:106-109 | the system_settings row is inserted with allow_registration = 1 only when absent; rerunning keeps an existing flag; constraints are preserved |
| Schema.InsertBill | server.js:478-483 | an INSERT into bills succeeds exactly when the user exists and the row passes NOT NULL and CHECK; it adds exactly that row under the next AUTOINCREMENT id (fresh in a valid database) and changes nothing else |
| Schema.DeleteBillRow | database.js:88 | deleting a bill removes it and exactly the overrides on it (ON DELETE CASCADE); everything else is unchanged and constraints are preserved |
| Schema.DeleteUserRow | database.js:57-100 | deleting a user removes the user, their settings, every bill, override and cleared flag they own and every override on their bills; nothing of theirs remains and every other row is kept |
| Schema.DeleteUserRowValid | database.js:80-90 | in a valid database the user-delete cascade keeps every override of other users and leaves a valid database |
| Schema.Own | server.js:620-623 | the rows selected `WHERE user_id = ?` from settings, bills, overrides and cleared_transactions: exactly the user's rows, with their stored values |
| Ordering.NameLeTotal | server.js:465 | any two names are comparable under BINARY collation |
| Ordering.NameLeTransitive | server.js:465 | BINARY collation order is transitive |
| Ordering.NameLeAntisymmetric | server.js:465 | two names that collate each before the other are equal |
| Ordering.ListedBeforeTotal | server.js:465 | the `ORDER BY due_day, name` order relates any two bills |
| Ordering.ListedBeforeTransitive | server.js:465 | the `ORDER BY due_day, name` order is transitive |
| Ordering.Insert | server.js:465 | inserting a row into a listing yields the listing plus that row (as a multiset) |
| Ordering.InsertMembers | server.js:465 | after insertion the listing holds exactly the old rows and the new one |
| Ordering.InsertSorted | server.js:465 | inserting into a sorted listing keeps it sorted |
| Ordering.InsertDistinct | server.js:465 | inserting a row with a new id keeps ids distinct |
| Ordering.SortRows | server.js:465 | the sort step of the listing returns every candidate bill exactly once, with its stored value, sorted by due day and then name |
| Accounts.SetupStatus | server.js:58-72 | setup is needed exactly when there are no users; registration is reported allowed unless the flag is 0 (a missing row reads as allowed) |
| Accounts.InsertBills | server.js:120-136 | the insert loop touches only the bills table and its counter, and advances the counter by at most one per bill (exactly one per bill when it completes) |
| Accounts.InsertBillsOk | server.js:126-135 | the loop completes exactly when the user exists (or there are no bills) and every bill passes the constraints |
| Accounts.InsertBillsRows | server.js:126-135 | the i-th new id holds the row of the i-th requested bill: the inserted bills are a prefix of the request, in order |
| Accounts.InsertBillsKeeps | server.js:126-135 | every bill outside the new ids is kept with its value |
| Accounts.InsertBillsValid | server.js:126-135 | the loop preserves the constraints, keeps existing bills, and every new bill belongs to the user |
| Accounts.InsertBillsNew | server.js:126-135 | every id the loop handed out holds the request's bill at the same position |
| Accounts.BillsStored | server.js:120-136 | the outcome of the bills loop: the counter grows by at most one per bill (one per bill when it completes), the new ids hold the request's bills in order, and every older bill is kept with its value |
| Accounts.InsertBillsStored | server.js:126-135 | the loop's result satisfies `Accounts.BillsStored` |
| Accounts.InsertBillsStops | server.js:126-135 | a loop that does not complete stored exactly the bills before position n, where bill n fails its constraints or the user does not exist: `forEach` throws at the first failing INSERT |
| Accounts.StoppedAtFailure | server.js:126-135 | on failure, the number of bills stored is the position of a bill that fails its constraints |
| Accounts.InsertBillsOutcome | server.js:120-136 | for an existing user, the loop satisfies `Accounts.BillsStored` and `Accounts.StoppedAtFailure`, completes exactly when every bill passes, keeps the constraints and adds only the user's bills |
| Accounts.AccountCreated | server.js:89-141 | what a setup or registration leaves behind for a free username: the user, the settings row with setup_completed = 1, the bills before the first failing one (all of them on success), every other table unchanged, and the session exactly on success |
| Accounts.CreateAccount | server.js:89-141 | a taken name is a 500 with no change; otherwise `Accounts.AccountCreated`: the user row with the hashed password and the admin flag under the next id; then, when settings were sent, their row with setup_completed = 1 and the bills loop's outcome (`Accounts.BillsStored`, and on a failure `Accounts.StoppedAtFailure`); overrides, cleared flags and the system_settings row unchanged; the session exactly when every statement succeeded; a failure leaves the earlier inserts in place |
| Accounts.CreateAccountIsolated | server.js:89-141 | creating an account leaves every other user's account and rows unchanged |
| Accounts.Initialize | server.js:75-148 | 400 "Setup already completed" with no change when any user exists; otherwise the new admin is the only user, and the settings row, the stored bills and the untouched tables are as `Accounts.AccountCreated` states; a successful reply opens an admin session |
| Accounts.Register | server.js:151-230 | 403 with no change when the system_settings row is missing or disables registration; 400 "Username already exists" with no change for a taken name; otherwise a non-admin account is created as `Accounts.AccountCreated` states (settings row with setup_completed = 1, the request's bills, every other table and user unchanged) and a successful reply opens a non-admin session |
| Accounts.Login | server.js:233-258 | success exactly when a user has this name and the password's hash; unknown name and wrong password get the identical 401; the session carries the stored id, name and admin flag |
| Accounts.AuthStatus | server.js:271-281 | authenticated exactly when the session has a user id, reporting the session's name and admin flag |
| Accounts.ChangePassword | server.js:284-303 | 401 without a session; 500 when the session's user no longer exists; 401 "Current password is incorrect" unless the current password hashes to the stored digest; otherwise only that user's digest changes |
| Accounts.RegisterThenLogin | server.js:151-258 | after a successful registration the same credentials log in as the new, non-admin user |
| Accounts.ChangePasswordThenLogin | server.js:233-303 | after a password change the new password logs in, and an old password with a different hash no longer does |
| Accounts.SetupStatusAgreesWithRegister | server.js:58-159 | once the system_settings row exists, the setup status advertises registration exactly when registration is not refused with 403 |
| Accounts.InitializeIsolated | server.js:75-148 | setup leaves every other user's account and rows unchanged |
| Accounts.RegisterIsolated | server.js:151-230 | registration leaves every other user's account and rows unchanged |
| Accounts.SetupThenListing | server.js:120-136 | after setup with one bill, that bill under the first new id is all the new user owns of the bills table, and their listing shows it and nothing else |
| Admin.GetSystemSettings | server.js:308-316 | admins only; the registration flag, read as allowed when the row is missing |
| Admin.UpdateSystemSettings | server.js:319-335 | admins only; sets the flag of the existing row (no row: no change and no reply row); nothing else changes |
| Admin.ListUsers | server.js:338-350 | admins only; every user id with its name and admin flag and nothing else (no password digest) |
| Admin.DeleteUser | server.js:353-370 | admins only; 400 "Cannot delete your own account" with no change for the caller's own id; otherwise success, the tables become the cascade `Schema.DeleteUserRow`: the user is gone and owns no row anywhere, while the system_settings row and both AUTOINCREMENT counters stay as they were |
| Admin.DeleteUserKeepsOthers | server.js:353-370 | deleting a user leaves every other user and all of their rows unchanged |
| Admin.ToggleAdmin | server.js:373-390 | admins only; 404 "User not found" for an unknown id; otherwise flips that user's admin flag, returns the new value, and changes nothing else |
| Admin.ToggleAdminTwice | server.js:373-390 | toggling the same user twice restores the database |
| Admin.Admins | server.js:396 | the users whose is_admin is 1 |
| Admin.Stats | server.js:393-408 | admins only; the user, admin and bill counts, with admins never more than users |
| Admin.SwitchThenRegister | server.js:156-158 | once an admin sets the flag (row present), registration is refused with 403 exactly when the flag is off |
| UserData.GetSettings | server.js:413-421 | the caller's own settings row, or none |
| UserData.UpdateSettings | server.js:424-460 | no row: success, no change, empty reply; missing columns: 500 with no change; otherwise the caller's values are replaced, setup_completed kept, and nothing else changes |
| UserData.IsBillListing | server.js:465 | what the bill listing returns: sorted by due day then name, no id twice, only the user's stored bills, and all of them |
| UserData.ListingMatchesExport | server.js:463-471 | a bill listing holds exactly the ids of the bills the caller owns |
| UserData.CreateBill | server.js:474-491 | succeeds exactly when the caller's user exists and the bill passes the constraints; the reply is the new row under a fresh id, owned by the caller; a failure changes nothing |
| UserData.CreateThenDeleteBill | server.js:474-532 | deleting a bill just created restores the database except the AUTOINCREMENT counter |
| UserData.UpdateBill | server.js:494-520 | 404 "Bill not found" with no change unless the caller owns the bill; then every column but the owner is rewritten exactly when the row passes the constraints, else 500 with no change |
| UserData.OwnsBill | server.js:500 | the ownership lookup of the bill and override routes: the bill exists and belongs to the session's user |
| UserData.DeleteBill | server.js:523-532 | always success for a session; removes the bill and its overrides only when the caller owns it, otherwise no change |
| UserData.ListOverrides | server.js:535-543 | exactly the caller's overrides |
| UserData.SetOverride | server.js:546-568 | 404 with no change unless the caller owns the bill; 500 with no change when year, month or amount is missing or the month is outside 0..11; otherwise exactly one override for (bill, year, month) holds the new amount, owned by the caller, and every other override is unchanged |
| UserData.SetOverrideTwice | server.js:556-562 | setting an override twice leaves what setting only the second amount leaves (last writer wins) |
| UserData.DeleteOverride | server.js:571-581 | always success for a session; removes the override only when it is the caller's, otherwise no change |
| UserData.SetThenDeleteOverride | server.js:546-581 | deleting an override that was just created restores the database |
| UserData.EffectiveAmount | database.js:80-90 | the amount of a bill in a month: the override for that exact (bill, year, month) if any, else the base amount; none for an unknown bill |
| UserData.SetOverrideThenEffective | server.js:556-562 | after an override is set that month comes to the new amount and every other month is unchanged |
| UserData.DeleteOverrideThenEffective | server.js:574-575 | after the owner deletes an override that month comes back to the base amount |
| UserData.ListCleared | server.js:584-592 | exactly the caller's cleared keys |
| UserData.ToggleCleared | server.js:595-615 | removes the caller's flag for the key when present (reply false), otherwise inserts it (reply true) or fails with 500 when the session's user is gone; the reply equals the new membership |
| UserData.ToggleClearedTwice | server.js:599-610 | toggling the same key twice restores the database |
| UserData.Export | server.js:618-637 | the session's username with exactly the caller's settings, bills, overrides and cleared keys, and no row of anyone else |
| UserData.UpdateSettingsIsolated | server.js:424-460 | a settings update leaves other users' accounts and rows unchanged |
| UserData.CreateBillIsolated | server.js:474-491 | creating a bill leaves other users' accounts and rows unchanged |
| UserData.UpdateBillIsolated | server.js:494-520 | updating a bill leaves other users' accounts and rows unchanged |
| UserData.DeleteBillIsolated | server.js:523-532 | deleting any bill id, owned or not, leaves other users' accounts and rows unchanged |
| UserData.SetOverrideIsolated | server.js:546-568 | setting an override leaves other users' accounts and rows unchanged |
| UserData.DeleteOverrideIsolated | server.js:571-581 | deleting any override key leaves other users' accounts and rows unchanged |
| UserData.ToggleClearedIsolated | server.js:595-615 | toggling a cleared flag leaves other users' accounts and rows unchanged |
| Server.Store.constructor | database.js:17-103 | a new handle holds empty tables that satisfy the constraints |
| Server.Store.InitDatabase | database.js:106-109 | seeds the system_settings row in place exactly as `Schema.InitDatabase` |
| Server.Store.SetupStatus | server.js:58-72 | counts the users and reads the flag, replying as `Accounts.SetupStatus` |
| Server.Store.InsertBill | server.js:121-134 | one bill INSERT in place: the tables become those of `Schema.InsertBill`, or stay as they were when it fails |
| Server.Store.InsertBills | server.js:126-135 | the forEach loop, stopping at the first failing INSERT: the tables and the outcome are those of `Accounts.InsertBills` |
| Server.Store.CreateAccount | server.js:89-141 | the three kinds of INSERT in place, keeping the constraints, as `Accounts.CreateAccount` |
| Server.Store.Initialize | server.js:75-148 | the setup route in place, as `Accounts.Initialize` |
| Server.Store.Register | server.js:151-230 | the registration route in place, as `Accounts.Register` |
| Server.Store.Login | server.js:233-258 | reads the user by name and compares the hash, replying as `Accounts.Login` |
| Server.Store.ChangePassword | server.js:284-303 | the password change in place, as `Accounts.ChangePassword` |
| Server.Store.GetSystemSettings | server.js:308-316 | replies as `Admin.GetSystemSettings` |
| Server.Store.UpdateSystemSettings | server.js:319-335 | the flag UPDATE in place, as `Admin.UpdateSystemSettings` |
| Server.Store.ListUsers | server.js:338-350 | replies as `Admin.ListUsers` |
| Server.Store.DeleteUser | server.js:353-370 | the guarded user delete in place, as `Admin.DeleteUser` |
| Server.Store.DeleteUserRow | server.js:363 | the DELETE and its cascades in place, as `Schema.DeleteUserRow` |
| Server.Store.ToggleAdmin | server.js:373-390 | the admin flip in place, as `Admin.ToggleAdmin` |
| Server.Store.Stats | server.js:393-408 | counts users, admins and bills, replying as `Admin.Stats` |
| Server.Store.GetSettings | server.js:413-421 | replies as `UserData.GetSettings` |
| Server.Store.UpdateSettings | server.js:424-460 | the settings UPDATE in place, as `UserData.UpdateSettings` |
| Server.Store.ListBills | server.js:463-471 | 401 without a session; otherwise the caller's bills, each once with its stored value, sorted by due day then name (`UserData.IsBillListing`) |
| Server.Store.CreateBill | server.js:474-491 | the bill INSERT in place, as `UserData.CreateBill` |
| Server.Store.UpdateBill | server.js:494-520 | the ownership check and UPDATE in place, as `UserData.UpdateBill` |
| Server.Store.DeleteBill | server.js:523-532 | the owner-scoped DELETE and its cascade in place, as `UserData.DeleteBill` |
| Server.Store.ListOverrides | server.js:535-543 | replies as `UserData.ListOverrides` |
| Server.Store.SetOverride | server.js:546-568 | the ownership check and upsert in place, as `UserData.SetOverride` |
| Server.Store.DeleteOverride | server.js:571-581 | the owner-scoped DELETE in place, as `UserData.DeleteOverride` |
| Server.Store.ListCleared | server.js:584-592 | replies as `UserData.ListCleared` |
| Server.Store.ToggleCleared | server.js:595-615 | the lookup and DELETE or INSERT in place, as `UserData.ToggleCleared` |
| Server.Store.Export | server.js:618-637 | the four owner-scoped SELECTs, replying as `UserData.Export` |

## Left out

- HTTP plumbing: Express routing, CORS, body parsing, cookies, session-store expiry, static and SPA serving and `app.listen` (server.js:1-32, 639-652). Sessions are explicit parameters and results.
- Logout (server.js:261-268) only destroys the session object. With sessions as explicit values, it amounts to the caller dropping its session.
- bcrypt: hashing is the uninterpreted function `hash` given to the store, and a password matches a digest exactly when it hashes to it. Salts, cost factors and the asynchronous calls are not modelled.
- `generateRandomData` and its `shuffle`, `random` and `randomAmount` helpers (database.js:115-202) depend on `Math.random` and float formatting. They also insert settings and bills without the NOT NULL `user_id`, so on an empty database they throw instead of seeding. They are not modelled as an operation.
- Timestamps (`created_at`, `updated_at`, `cleared_at`, `exported_at`) and console logging. Admin.ListUsers: the `ORDER BY created_at DESC` order of the user list is not modelled, because the list is a map from id to user.
- REAL money columns are whole numbers (`Amount = int`); the server does no arithmetic on them, and floating-point rounding is not modelled.
- The 500 replies carry the raw exception text; the model has one `ServerError` status for every failing statement.
- Request values arrive as given. JSON type coercion, `parseInt` of route parameters and the truthiness of `allow_registration` (given to the model as a boolean) are not modelled. The body fields username, password, currentPassword, newPassword, transaction_key and the route ids are always present (a missing password makes bcrypt throw, a 500 the model does not show); only the NOT NULL columns of settings, bills and overrides may be missing.
- The surrogate ids of settings, overrides and cleared_transactions rows are not modelled. Those tables are keyed by their UNIQUE columns, which is how every handler addresses them.
- Server.Store.ListBills: rows that tie on both due day and name may come in any order, as SQL leaves it; the model does not fix SQLite's tie order.
- A failed statement leaves the database unchanged, as SQLite's statement-level atomicity gives.
- Each handler is modelled as one atomic step. The setup, registration and password-change handlers are `async` and wait for bcrypt between their check and their write (server.js:80-90, 162-172, 288-296), so requests can interleave there. Three interleavings the model does not show: two setups on an empty users table both pass the count check and both create an admin; two registrations of the same free name give the second a 500 from the UNIQUE constraint instead of the 400; a user deleted during a password change turns the UPDATE into a no-op that is still reported as success.
