# todo-backend: authentication and owner-scoped to-do operations

This project is a Dafny model of `index.js`, the request logic of a small
to-do backend. It covers three parts:

- **`validateDate`**: the anchored pattern `^\d{4}-\d{2}-\d{2}$` (the
  `full-date` shape of section 5.6 of RFC 3339), followed by the JavaScript
  `Date` parser.
- **`authenticateToken`**: the token is the second space-separated piece of
  the `Authorization` header. The scheme word is never checked. The outcome
  is 401, 403, or `req.user` set to the decoded payload.
- **The seven route handlers**: register, login, list, add, set-completed,
  set-text and delete. They work on two tables, `users` and `todos`. Each
  handler runs a fixed sequence of checks and then its parameterised SQL.
  Register issues two statements, a SELECT and then an INSERT; every other
  handler issues one. The SELECT, UPDATE and DELETE on `todos` name the
  caller as owner in their WHERE clause. The INSERT into `todos` puts the
  caller in its VALUES list.

Modules:

- `Wrappers`: `Option`, and JavaScript truthiness (`Truthy`) for a field that
  is either absent or a string.
- `Collaborators`: the foreign libraries, held abstract in `Env`.
  - `bcrypt.hash` is `hash(password, salt)`; the random salt is a parameter.
  - `bcrypt.compare` is `compare`.
  - `jwt.sign` is `sign(claims, now)`; the clock reading is a parameter.
  - `jwt.verify` is `verify: token -> Option<Claims>`; `None` stands for "throws".
  - `new Date(s)` not being NaN is `dateOk`.
- `DateFormat`: the pattern as a sequence of character classes, an anchored
  matcher, and `ValidateDate`.
- `Tokens`: `String.prototype.split` for a one-character separator, its
  inverse `Join`, the header-to-token extraction, and the middleware's
  decision `Gate`.
- `Tables`: the row types, and each SELECT, UPDATE and DELETE as a function
  over rows in table order. The two INSERTs are appends of one row, written
  inside the `Register` and `AddTodo` methods; `Tables` proves what such an
  append preserves. It also holds the ownership-isolation lemmas and the
  storage-level invariants (primary keys, the UNIQUE username).
- `Server`: class `TodoServer` keeps the tables and their id counters as
  fields, and each handler is a method.
  - The handlers return `Response(status, body)`.
  - Each handler states exactly what its statement does to the tables.
  - `AuthenticateToken` writes `req.user` on a `Request` object.
  - `Serve` runs a protected request through the middleware and then, at
    most once, through its handler.

A failed query is modelled as a boolean parameter of the handler. The handler
then answers 500 "Database error" and leaves the tables as they were.

## Model

| member | source | states |
|---|---|---|
| `DateFormat.FullDatePatternShape` | index.js:20-21 | the regex test, written as the anchored match `Matches` against `FullDatePattern`, accepts exactly the strings of the shape `DDDD-DD-DD` |
| `DateFormat.ValidateDate` | index.js:19-24 | true exactly when the string has the shape `DDDD-DD-DD`: length 10, ASCII digits at 0-3, 5-6 and 8-9, `-` at 4 and 7, nothing before or after. It must also pass the abstract `Date` check |
| `DateFormat.MatchesPointwise` | index.js:20-21 | the anchored match of a pattern of character classes holds exactly when the lengths agree and every character is in its position's class |
| `Tokens.Split` | index.js:29 | `split(" ")` gives at least one piece, and no piece contains the separator |
| `Tokens.JoinSplit` | index.js:29 | splitting loses nothing: joining the pieces with the separator gives back the header |
| `Tokens.SplitJoin` | index.js:29 | splitting a join of separator-free pieces gives back exactly those pieces |
| `Tokens.SplitAtSeparator` | index.js:29 | the first separator ends the first piece, and splitting continues after it |
| `Tokens.SplitPiecesCount` | index.js:29 | `split(" ")` yields a second piece exactly when the header contains a space |
| `Tokens.TokenOf` | index.js:28-29 | no header gives `undefined`; the empty header gives `""`; a non-empty header gives a token exactly when it contains a space; a token never contains a space |
| `Tokens.TokenIsSecondWord` | index.js:28-29 | for any scheme word, the token is the text between the first space and the next space or the end |
| `Tokens.NoSpaceNoToken` | index.js:28-31 | a header with no space (including the empty header) yields a falsy token |
| `Tokens.Gate` | index.js:27-42 | the request is admitted only with a truthy token that `verify` decodes, and then exactly with the decoded payload. Every refusal is 401 or 403 |
| `Tokens.MissingTokenDenied` | index.js:28-33 | no header, or a header without a space (`"Bearer"`), gives 401 "Access denied. No token provided." |
| `Tokens.EmptyTokenDenied` | index.js:29-33 | an empty second piece (`"Bearer "`, `"Bearer  x"`) gives 401 |
| `Tokens.RejectedTokenForbidden` | index.js:35-41 | a present token that `verify` refuses gives 403 "Invalid token.", whatever the scheme word |
| `Tokens.VerifiedTokenAdmitted` | index.js:35-38 | a present token that `verify` accepts admits the request with exactly the decoded payload, whatever the scheme word |
| `Tables.SelectUsersByName` | index.js:54 | the selected rows are exactly the users with that username |
| `Tables.LookupFindsTheUser` | index.js:97-107 | with unique usernames, the lookup returns that user's row and nothing else, so `results[0]` is that user |
| `Tables.RegisterKeepsUsersWellFormed` | index.js:54-69 | appending a row whose name the pre-check found absent, under the counter's id, keeps ids and usernames unique |
| `Tables.SelectTodos` | index.js:135 | the listed rows are exactly the rows with that date and that owner |
| `Tables.SelectSeesOwnRowsOnly` | index.js:135 | the listing is the caller's own rows filtered by date, in table order |
| `Tables.SelectNonInterference` | index.js:135-141 | two tables that agree on the caller's rows give the caller identical listings, so other users' rows never influence the result |
| `Tables.InsertIsolated` | index.js:157-159 | inserting a row owned by the caller leaves every other owner's rows unchanged |
| `Tables.AppendKeepsTodosWellFormed` | index.js:157-159 | inserting under the auto-increment counter keeps todo ids distinct and below the counter |
| `Tables.UpdateCompleted` | index.js:179 | the same rows in the same places. A row with the given id and owner gets the new `completed`; every other row is unchanged |
| `Tables.UpdateCompletedIsolated` | index.js:179 | every other owner's rows are unchanged |
| `Tables.UpdateText` | index.js:197 | the same rows in the same places. A row with the given id and owner gets the new text; every other row is unchanged |
| `Tables.UpdateTextIsolated` | index.js:197 | every other owner's rows are unchanged |
| `Tables.UpdateKeepsTodosWellFormed` | index.js:179 | an update that never changes an id keeps the primary key valid |
| `Tables.DeleteTodo` | index.js:211 | the surviving rows are exactly those without both the given id and the caller as owner |
| `Tables.DeleteIsolated` | index.js:211 | every other owner's rows are unchanged |
| `Tables.FilterKeepsTodosWellFormed` | index.js:211 | removing rows keeps todo ids distinct |
| `Server.TodoServer.Register` | index.js:45-86 | a missing username or password gives 400. A failed query gives 500. A taken username gives 400 "Username already exists". Otherwise exactly one row `(next id, username, hash(password, salt))` is appended and the status is 201. Every refusal leaves `users` unchanged, and usernames stay unique |
| `Server.RegisterTwice` | index.js:45-86 | registering one name twice in sequence gives 201 then 400 "Username already exists", and leaves exactly one row with that name |
| `Server.TodoServer.Login` | index.js:89-122 | missing fields give 400. An unknown username and a wrong password give the same `LoginRefused` response. A right password gives 200 with a token signed over exactly `{id, username}` of that user's row. The tables are not changed |
| `Server.TodoServer.ListTodos` | index.js:127-143 | a date failing `validateDate` gives 400. Otherwise the result is 200 with exactly the caller's rows on that date (possibly none). Nothing is changed |
| `Server.TodoServer.AddTodo` | index.js:146-172 | the presence check comes before the date check, and both failures leave the table unchanged. On success exactly one row `{fresh id, text, date, completed: false, caller}` is appended and echoed. Other owners' rows are unchanged |
| `Server.TodoServer.SetCompleted` | index.js:175-187 | the table becomes the `UPDATE` of the caller's row with that id. The same 200 message comes whether or not a row matched. Other owners' rows are unchanged |
| `Server.TodoServer.SetText` | index.js:190-205 | missing text gives 400 and changes nothing. Otherwise the same as `SetCompleted`, for the text column |
| `Server.TodoServer.RemoveTodo` | index.js:208-219 | the table becomes the `DELETE` of the caller's row with that id. The same 200 message comes whether or not a row matched. Other owners' rows are unchanged |
| `Server.Request.constructor` | index.js:28 | a request carries its `Authorization` header, which nothing changes, and starts with no `req.user`; `user` is the field that `AuthenticateToken` writes |
| `Server.TodoServer.AuthenticateToken` | index.js:27-42 | on refusal it answers 401 or 403 and leaves `req.user` alone. On admission it sets `req.user` to the decoded payload and answers nothing |
| `Server.TodoServer.Serve` | index.js:127-219 | a refused request gets the middleware's 401 or 403, and no table or `req.user` changes. An admitted request carries `req.user` equal to the decoded payload, never answers 401 or 403, and leaves every other owner's rows unchanged |

## Left out

- Express wiring, CORS, request logging, `app.listen`, the final 500 error middleware and `console.error` (index.js:2-16, 221-230). These are HTTP and I/O plumbing.
- The hard-coded secret key and port (index.js:10-11). These are configuration. The secret is implicit in the abstract `sign` and `verify`.
- bcrypt's hashing and comparison, and jsonwebtoken's signing and verification. These are foreign cryptographic code, kept as abstract functions of `Env`. Nothing is assumed about `verify(sign(c))`.
- The one-hour token expiry. `verify` takes no clock, and a server's `env` is fixed, so a token accepted once is accepted on every later request. The model cannot express a token expiring between requests.
- Collaborators.Env.verify: the model assumes every payload `verify` returns is `{id: nat, username: string}`, and that `verify`'s answer does not change over time. In the source `jwt.verify` returns whatever JSON was signed. The secret is written in the source, so anyone can sign a payload whose `id` is a string, an array or an object. That `id` goes unchanged into the `user_id` parameter of every todo statement. The ownership-isolation results rest on this assumption.
- The `Date` parser in `validateDate` (index.js:22-23). It is engine-dependent, so it is the abstract `dateOk`. Whether `2024-02-30` is a date is therefore not decided here.
- The MySQL driver. Each handler's query either succeeds with the SQL semantics written in `Tables`, or fails as a whole (a boolean parameter, giving 500 and no change).
- Auto-increment ids are modelled as counters that only a successful insert advances. MySQL may also consume ids on failed inserts.
- MySQL string comparison: the model compares usernames and dates by exact equality. The schema is not part of this model, and in MySQL these comparisons are collation-dependent: letter case, accents and trailing spaces may or may not matter. How a string compares with a DATE column is also not modelled.
- The JSON form of rows returned by the driver is not modelled: dates come back as date objects and `completed` as 0/1.
- The `ER_DUP_ENTRY` branch of register (index.js:72-74). It only arises when two registrations race, and the model is sequential. It would give the same 400 as the pre-check.
- The `try`/`catch` around register (index.js:82-85) and a `bcrypt.hash` rejection inside the query callback. In a sequential model with a total `hash`, neither can happen.
- Body fields are modelled as absent or a string. Numbers, booleans and objects sent as `username`, `password`, `text` or `date` are not modelled.
- The `:id` path parameter is a string that MySQL converts to a number. It is modelled as an integer.
- The `completed` body field is modelled as a boolean. Other JSON values, such as an absent field written as NULL, are not modelled.
- `Claims` carries only `{id, username}`. The `iat` and `exp` fields that `jwt.verify` also returns are left out.
- Server.TodoServer.Serve: its contract states the middleware's outcome and the ownership isolation that every route shares. The exact effect of each route is stated by that route's handler method, which `Serve` calls once.
- Concurrency and the async callback structure. Handlers are modelled as running one at a time, each to completion.
