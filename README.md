# Locations API: a Dafny model of the store, the request checks and the handlers

The service is a small HTTP API. Users register with an email and a password and log in from a
device. Each login issues a token whose text is an xid: a globally unique id built from the time,
the machine, the process and a counter, so it is unique but neither random nor hard to guess.
With that token in the `X-Auth-Token` header a user records the positions they report and lists
everyone's reported positions. A position marked private is listed without its owner's names.
Logging out deletes tokens by id.

The model has six modules:

- `Errors` (errors.dfy): the `Option` and `Result` wrappers and the errors the core can produce.
- `Strconv` (strconv.dfy): Go's `strconv.Atoi` on a 64-bit platform, with `Itoa` as its inverse.
- `Strings` (strings.dfy): Go's `strings.TrimSpace` with the `unicode.IsSpace` character set.
- `Api` (api.dfy): the JSON request shapes and the listed `Location` entry, the `Validate` checks, and `HashPassword`. The other response bodies are the `Body` constructors in `Handlers`.
- `Database` (db.dfy): the three tables as a class `Db`.
  - Each table is a sequence of rows in insertion order, plus the last value of its id sequence.
  - Each SQL statement the service issues is a method on `Db` or a function of the rows.
  - A `Where` value stands for each `WHERE` clause the service puts on the tokens table.
  - `Valid()` is the store invariant:
    - ids are serial and ascending in every table;
    - no id sequence has gone past the largest 32-bit value;
    - no two users share an email.
  - The store refuses what PostgreSQL refuses, and each refusal is an error the handlers turn
    into a 500 through `ErrorHandler`:
    - an `integer` parameter (`user_id`, `token_id`) outside the 32-bit range is `OutOfRange`;
    - a `varchar` parameter holding U+0000 is `NulInText`;
    - an insert after a `SERIAL` sequence has issued 2^31 - 1 is `SequenceExhausted`.
- `Handlers` (handlers.dfy): the two authorisation gates and the five route handlers.
  - A handler receives the store, the path parameter, the header token and the bound body.
  - A body gin could not bind is `None`.
  - A handler returns a `Response`, which is a status and a body.
  - A panic that `ErrorHandler` recovers is a 500 response that carries the error.

`Scenarios` (scenarios.dfy) chains handlers on a fresh store. It predicts whole request
sequences from the handlers' contracts alone:

- a duplicate registration;
- a login followed by a logout;
- the anonymity of a private location;
- the refusal of a live token on another user's path;
- a path user id beyond the 32-bit `user_id` column, which is a 500;
- an email holding U+0000, which passes validation and is a 500 with no row stored.

Two things in the code differ from what its callers expect, and the model follows the callers:

- `NewUser` is declared to return only an error (db/db.go:74-78).
  - Its one caller binds two results, an id and an error (pkg/handlers/handlers.go:90), and
    replies with that id.
  - The model's `Db.NewUser` returns `Result<int>`, and the id is the new serial id of the row.
- `AuthorizeHeader` does not return after the first `Abort` (pkg/handlers/handlers.go:332-335).
  - A blank token is therefore still looked up.
  - The request stays aborted either way, so the gate passes exactly when the token is not
    blank, holds no U+0000 and is live.
  - The model performs the same lookup.
  - When the lookup panics, `ErrorHandler` answers 500, but the middleware neither aborts nor
    calls `Next`. Gin then goes on to the route handler. The gate's outcome is then
    `Recovered`, and the handlers behind the gate run for it as they do for `Next` (see
    "## Findings").

Inputs from outside the service become parameters:

- bcrypt's hash is `generated: Result<string>`, and its comparison is `verify`.
- The xid token secret is `secret`.
- Gin's JSON binding gives an `Option` of the request.
- The route table in cmd/main.go:65-78 puts logout, add-location and listing behind the header
  gate. In the model, that is each of those handlers' precondition
  `!AuthorizeHeader(db, token).Abort?`: the gate either passed the request or recovered from
  a panic.

## Model

| member | source | states |
|---|---|---|
| Strconv.Atoi | pkg/handlers/handlers.go:34-37 | a parsed path id lies in the 64-bit `int` range; any failure is a `NumError` naming the input |
| Strconv.AtoiItoa | pkg/handlers/handlers.go:34 | every 64-bit id written in decimal with an optional minus sign parses back to itself |
| Strconv.AtoiRejectsNonNumeric | pkg/handlers/handlers.go:34-37 | a path id containing a character that is neither a digit nor a leading sign is refused with `NumError` |
| Strings.TrimSpaceEmpty | pkg/handlers/handlers.go:332 | a token trims to the empty string exactly when all its characters are white space |
| Api.RegisterRequest.Validate | pkg/api/api.go:30-34 | a registration is valid exactly when all six fields are non-empty |
| Api.HashPassword | pkg/api/api.go:20-27 | hashing succeeds exactly when bcrypt does; on success only the password changes, to the hash; on failure the request is untouched and the error is reported |
| Api.LoginRequest.Validate | pkg/api/api.go:49-51 | a login is valid exactly when email, password and device are non-empty |
| Api.AddLocationRequest.Validate | pkg/api/api.go:89-91 | a report is invalid exactly when its timestamp is the zero time or either coordinate is 0 |
| Api.LoginRequest.CompareHashAndPassword | pkg/api/api.go:53-57 | the password matches exactly when bcrypt's comparison accepts the stored hash and this request's password; email and device play no part |
| Database.LookupEmail | db/db.go:116-119 | the users query finds a row exactly when some user has the email, and the row it finds has that email |
| Database.Count | db/db.go:189-192 | `count(token)` is at most the table size and is 0 exactly when no row matches the clause |
| Database.Delete | db/db.go:159-160 | `DELETE` removes exactly the matching rows: the survivors are the rows that do not match, and the table shrinks by the match count |
| Database.FirstMatch | db/db.go:174-178 | the id query finds a row exactly when one matches, and the row it finds matches |
| Database.JoinUsers | db/db.go:235-237 | the join rows of one location are its views with exactly the users whose id equals its user_id |
| Database.Redact | db/db.go:261-264 | a listed entry keeps its privacy flag, position and time; a private entry has empty names; a public entry is unchanged |
| Database.CountIsOne | db/db.go:197 | the `count == 1` test means exactly one row matches |
| Database.AtMostOneWithId | db/db.go:159-160 | with serial ids, at most one token row has a given owner and id, so DeleteToken removes one row or none |
| Database.DeleteKeepsSerial | db/db.go:159-160 | deleting token rows keeps ids serial and ascending |
| Database.DeleteKeepsSecretsUnique | db/db.go:159-160 | deleting token rows keeps token secrets unique |
| Database.OwnershipIsNotLiveness | db/db.go:187-210 | with unique secrets, a live token passes CheckUserToken for its owner and fails it for any other user |
| Database.DeletedSecretIsDead | db/db.go:158-170 | once a token row with a unique secret is deleted, no row carries that secret |
| Database.NoneDeleted | db/db.go:159-166 | a delete that matches nothing leaves the table unchanged |
| Database.JoinUsersOwner | db/db.go:235-237 | with serial user ids a location joins exactly one row, the one with its owner |
| Database.JoinAppend | db/db.go:235-237 | a new location adds only its own join rows, at the end of the listing |
| Database.Join | db/db.go:234-238 | every listed row is some location joined with a user whose id equals its user_id |
| Database.JoinOnePerLocation | db/db.go:234-238 | when every location's owner is registered, the listing has exactly one row per location, in table order, each with its owner's names |
| Database.Db.constructor | db/db.go:39-72 | freshly created tables are empty, and their id sequences have issued nothing |
| Database.Db.GetUser | db/db.go:115-134 | an email holding U+0000 is an error; otherwise the returned user has a non-zero id exactly when the email is registered, and that user is the only row with the email; a missing email gives the zero user and no error |
| Database.Db.NewUser | db/db.go:74-101 | an email holding U+0000 is refused; a registered email gives `UserEmailAlreadyExist`; another text field holding U+0000 or an exhausted id sequence is refused, all with no change; otherwise one row with the next serial id is appended, and the store invariant, including unique emails, holds |
| Database.Db.NewToken | db/db.go:137-155 | a user id outside 32 bits, a secret or device name holding U+0000, or an exhausted id sequence is refused with no change; otherwise one token row is appended with the next serial id, above every earlier id; secrets stay unique exactly when the new secret was unused; a fresh secret is then live and owned by the user |
| Database.DeleteOutcome | db/db.go:158-170 | a delete succeeds exactly when both ids fit 32 bits and some row has that owner and id, and then returns the token id; with in-range ids the only failure is `DeleteTokenFailed` |
| Database.Db.DeleteToken | db/db.go:158-170 | the result is `DeleteOutcome` of the old table; on success the table becomes the rows that do not match owner and id, exactly one row fewer; on failure nothing changes; unique secrets stay unique |
| Database.Db.GetTokenID | db/db.go:173-184 | a user id outside 32 bits or a secret holding U+0000 is an error; otherwise a non-zero id is returned exactly when the user has a token with that secret, and it is that row's id; otherwise 0 and no error |
| Database.Db.CheckUserToken | db/db.go:187-198 | a user id outside 32 bits or a secret holding U+0000 is an error; otherwise true exactly when exactly one row has this owner and this secret |
| Database.Db.IsTokenExist | db/db.go:201-210 | a secret holding U+0000 is an error; otherwise true exactly when exactly one row has this secret |
| Database.Db.NewLocation | db/db.go:213-230 | a user or token id outside 32 bits, or an exhausted id sequence, is refused with no change; otherwise one location row is appended with the next serial id, above every earlier id, bound to the user and the token |
| Database.Db.GetLocations | db/db.go:233-270 | the listing has one entry per join row, in order, and each entry is that row with the privacy rule applied |
| Handlers.ErrorHandler | pkg/handlers/handlers.go:22-28 | a recovered panic is answered with 500 and a body carrying the error |
| Handlers.AuthorizeHeaderAborting | pkg/handlers/handlers.go:329-358 | the header gate as intended: it never lets a recovered panic through; it passes exactly when the token is not blank and is live, and it aborts with 401 or, for a token the database refuses, with 500 |
| Handlers.AuthorizeHeader | pkg/handlers/handlers.go:329-358 | the request passes exactly when the token is not all white space, holds no U+0000, and exactly one token row carries it; a token holding U+0000 makes the lookup panic, which is recovered; otherwise 401 |
| Handlers.AuthorizeUser | pkg/handlers/handlers.go:30-46 | a non-numeric path id, a path id outside 32 bits, or a token holding U+0000 is an error; otherwise the verdict is true exactly when exactly one row has the path user and the header token, and then GetTokenID finds that token |
| Handlers.HandleRegister | pkg/handlers/handlers.go:59-110 | unbindable JSON 400; invalid request 400; hash failure 500; email holding U+0000 500; registered email 409; another field holding U+0000 or an exhausted id sequence 500, all with no change; otherwise 201 with the new id and the user row stored with the hashed password |
| Handlers.HandleLogin | pkg/handlers/handlers.go:123-170 | invalid request 400; email holding U+0000 500; unknown email 404; wrong password 401; secret or device holding U+0000 or an exhausted id sequence 500, all with no change; otherwise 200 with the new token id and secret, and the token row stored for that user and device |
| Handlers.Revoke | pkg/handlers/handlers.go:215-222 | the ids reported as invalidated are a prefix of the requested ids, and the whole list is reported exactly when no deletion failed |
| Handlers.RevokeRemovesOnlyOwned | pkg/handlers/handlers.go:215-222 | logout removes exactly the caller's rows with the invalidated ids; every other row survives |
| Handlers.RevokeStopsAtFailure | pkg/handlers/handlers.go:216-220 | when logout stops early, its error is what deleting the next requested id from the remaining tokens gives: an id outside 32 bits, or an id that names no remaining token of the caller |
| Handlers.RevokeKeepsSerial | pkg/handlers/handlers.go:215-222 | logout keeps token ids serial and ascending |
| Handlers.InvalidateTokens | pkg/handlers/handlers.go:215-222 | the delete loop leaves the tokens `Revoke` describes and returns its invalidated ids, or the delete error when it stopped early |
| Handlers.HandleLogout | pkg/handlers/handlers.go:186-228 | non-numeric or out-of-range path id 500; foreign token 401; unbindable body 400, all with no change; otherwise the requested ids are revoked in order, with 200 and the ids, or 500 with the failed deletion's error that keeps the deletions already made |
| Handlers.HandleAddLocation | pkg/handlers/handlers.go:243-299 | non-numeric or out-of-range path id 500; foreign token 401; unbound or invalid report 400, all with no change; an exhausted id sequence 500 with no change; otherwise 201 with the new id, and the row is stored for the path user and the header token's id |
| Handlers.HandleGetLocations | pkg/handlers/handlers.go:313-327 | for any request the header gate does not abort, 200 with every joined location in order, private entries without names |
| Scenarios.RegisterTwice | pkg/handlers/handlers.go:90-101 | registering one email twice gives 201 with id 1, then 409, and leaves one user row |
| Scenarios.LoginThenLogout | pkg/handlers/handlers.go:160-226 | after register and login the token is live; logging out its id answers 200 with that id, and the token is no longer live |
| Scenarios.PrivateLocationIsAnonymous | db/db.go:261-264 | a private location reported by a logged-in user is listed with its time and position and with empty names |
| Scenarios.ForeignTokenRejected | pkg/handlers/handlers.go:245-252 | a live token passes the header gate but gets 401 on another user's path, and no location is stored |
| Scenarios.OutOfRangeUserId | pkg/handlers/handlers.go:30-46 | a logged-in user's live token on the path id 3000000000, beyond the 32-bit `user_id` column, is answered 500 with the out-of-range error, and no location is stored |
| Scenarios.NulEmailRegister | db/db.go:74-101 | a valid registration whose email holds U+0000 is answered 500 with the refusal, and no user is stored |
| Scenarios.RecoveredGateReachesListing | pkg/handlers/handlers.go:337-356 | the token "\0", which no lookup accepts, gets `Recovered` from the gate, and the listing route still answers with every joined location |
| Scenarios.RecoveredGateAborted | pkg/handlers/handlers.go:337-356 | under the intended gate the same token is aborted with 500 |

## Left out

- Connections and schema setup are not modelled: `NewDB`, `Close`, and the SQL of `CreateTables` (db/db.go:22-72). The model starts from empty tables. A failed connection, a lost connection and a server fault are not modelled; each would be a 500 through `ErrorHandler`. The refusals the model does follow are those its parameters alone decide: 32-bit `integer` columns, U+0000 in text, and exhausted `SERIAL` sequences.
- Text is a sequence of characters. The driver's refusal of text that is not valid UTF-8 is left out, as is the exact error text PostgreSQL gives for each refusal.
- Go's HTTP server refuses a header value holding a control character such as U+0000, but it accepts the bytes 0x80-0xFF, so a token that is not valid UTF-8 reaches the lookup and is refused by the database. The model has no bytes outside its characters and uses U+0000 as the stand-in for any token text the database refuses; the `Recovered` outcome of Handlers.AuthorizeHeader and the route that runs after it (see "## Findings") stand for that case.
- Handlers.HandleGetLocations: after a recovered panic in the gate, the status line is the 500 already written and the listing is appended to that response's body. The model's response is what the handler writes, a 200 with the listing; how gin composes two writes into one response is not modelled.
- The `RowsAffected() == 0` branches after an insert (db/db.go:96-98, 145-147, 221-223) cannot happen with an in-memory insert.
- Database.Db.NewUser, Database.Db.NewToken, Database.Db.NewLocation: the `timecreated` column and `time.Now()` are dropped, because no read in the core uses them.
- Reading `last_value` of an id sequence returns the id of the row just inserted. Under concurrent inserts the database would not promise that. Concurrency and request interleaving are not modelled.
- Coordinates are integers (`Coord`) and timestamps are integers with 0 as Go's zero `time.Time`.
  - This leaves out floating point: `-0.0 == 0` holds and NaN is never 0.
  - It also leaves out the `time.Time` comparison of location and monotonic parts.
  - The `time timestamp` column (db/db.go:67) stores a time without its zone offset and rounded to microseconds, so a listed time can differ from the reported one. The model lists the reported time unchanged.
  - `Validate` only compares these with 0.
- Api.LoginRequest.CompareHashAndPassword: bcrypt is a parameter `verify`, so the model says nothing about hashing itself.
  - Api.HashPassword is likewise given `generated`, the outcome of `bcrypt.GenerateFromPassword`.
- The xid token secret is a parameter. The service relies on secrets being unique but does not check it.
  - Database.Db.NewToken states what happens when a secret is reused.
  - Database.OwnershipIsNotLiveness and Database.DeletedSecretIsDead require unique secrets.
- `SELECT` order is unspecified in SQL. The model uses table (insertion) order for `GetUser`, `GetTokenID` and `GetLocations`.
- Strconv.Atoi: Go distinguishes a syntax error from a range error; both are `NumError` here.
  - The error message text of `ErrorHandler` is left out too: the body carries the error value.
- Handlers.HandleLogout and Handlers.HandleAddLocation: the second `strconv.Atoi` of the path id (pkg/handlers/handlers.go:204, 265) repeats the first on the same string, so the model reuses its value.
- Handlers.HandleAddLocation: the panic when `GetTokenID` returns 0 or fails (pkg/handlers/handlers.go:278-285) cannot happen. The ownership gate has just run the same query with the same user id and token and found the token, and the contract states that.
- Database.Db.GetLocations: an empty listing is the empty sequence. Go returns a nil slice, which gin writes as JSON `null`.
- Routing, Swagger and server start-up in cmd/main.go are not modelled. Only the gate each route sits behind is kept, as a precondition.

## Findings

| source | as written | input that shows it | evidently intended | confidence | as-written member | corrected member |
|---|---|---|---|---|---|---|
| pkg/handlers/handlers.go:337-356 | when the token lookup panics, the deferred `ErrorHandler` writes a 500 and the middleware returns without `Abort`, so gin runs the route handler; GET /locations/ then writes the whole listing for a caller with no live token | header `X-Auth-Token` whose text the database refuses (in the model "\0"; over HTTP, bytes that are not valid UTF-8) | a recovered panic in the gate aborts the request, so only a live token reaches a route | high; not executed | Scenarios.RecoveredGateReachesListing | Handlers.AuthorizeHeaderAborting |

The handlers are specified for every request the gate as written does not abort. The last
`ensures` of Handlers.AuthorizeHeaderAborting shows that every request the intended gate passes is
among those, so the handler contracts hold under either gate.
