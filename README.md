# Nexa Chat server: message store and request gate

This project models the core of the Nexa Chat server (`server.js`). It is a multi-room chat
web application with a login gate over a hard-coded user table. A session remembers the
logged-in user. A flat JSON document `{lastId, messages}` stores every message of every
room. The model is a sequential state machine over three things:

- the store document, as the fields `lastId` and `messages` of `Server.ChatServer`;
- the client's session, as the field `user: Option<string>`, where `None` means anonymous;
- the fixed configuration: the credential table `Auth.Users` and the backend flag `usePostgres`.

Each HTTP handler is a method of `Server.ChatServer` that returns an abstract `Response`
(a JSON status and payload, a redirect, or a page document). The methods that write change only
the fields named in their `modifies` clause.

The pure parts are functions, with lemmas about them:

- the credential check (`Auth.CredentialsMatch`);
- the field check (`Server.FieldsPresent`);
- the append (`Messages.Append`);
- the room listing (`Messages.Listing`). It keeps the room's rows with `InRoom`, then sorts
  them stably by timestamp with `SortByTime`, an insertion sort that matches the stable
  `Array.prototype.sort`.

The main results:

- A listing is characterised exactly (`ListingCharacterized`). It is the ONE sequence that is
  ordered by timestamp and that holds, for every timestamp, exactly the room's rows with that
  timestamp, in insertion order. `SortedByTimeUnique` proves that such a sequence is unique.
- The listing holds the room's rows with their multiplicities, and never a row of another room.
- In a valid store, ties in timestamp are broken by id.
- Every sequence of appends from the initial store numbers the rows 1, 2, 3, ….
- An appended row is listed exactly once in its room and changes no other room's listing.

Modelling decisions:

- Body fields are `Option<string>`. JavaScript truthiness of such a value is `Optional.Present`:
  the value is given and is not empty.
- The clock is the `now: int` parameter of `PostMessage`. Timestamps are integers.
- The outcome of the file I/O is a `storageOk: bool` parameter. A failure gives the abstract 500
  `Database error`. The model treats the rewrite of the store file as all-or-nothing, so after
  any failure the store is unchanged (see "## Left out" for what this misses).
- The debug endpoint's health check is a `Probe` parameter.
- `users[username] && users[username] === password` is modelled as: the key is present, its
  password is not empty (truthy), and the password equals the given one. Inherited properties
  such as `toString` or `__proto__` never equal a string password, so a plain key test is
  faithful. For the demo table, `Auth.DemoTableLogins` shows that this is "the pair is in the
  table".
- A failed login leaves the session as it was, so it does not log out a user who is already
  logged in (`Login`'s second ensures).

## Model

| member | source | states |
|---|---|---|
| `Auth.MatchesExactlyTablePairs` | server.js:86 | if the table has no empty password, the login check passes exactly when both fields are given, the username is a key and the password equals its entry |
| `Auth.DemoTableLogins` | server.js:67-73 | with the five demo users, a login succeeds exactly for a (username, password) pair of the table; `vishnu`/`pass123` passes, `vishnu`/`pass234` fails |
| `Auth.DemoLoginAuthenticates` | server.js:86-87 | a successful login against the demo table stores a truthy user, so the session counts as authenticated afterwards |
| `Server.DebugAfterStartup` | server.js:25-26 | a server started from `DATABASE_URL`, then asked `GET /api/debug`, answers 200 and reports mode `file` exactly when the URL is unset or empty (`postgres` otherwise); a fresh session has no user. This goes through the constructor, `ChatServer.Debug` and `DebugReport` |
| `Server.UsePostgres` | server.js:25 | no ensures; the truthiness test `if (process.env.DATABASE_URL)`. Characterised by `Server.DebugAfterStartup` and the constructor row |
| `Auth.Users` | server.js:67-73 | constant, no ensures; the five demo users. Characterised by `Auth.DemoTableLogins` |
| `Auth.CredentialsMatch` | server.js:86 | no ensures; `users[username] && users[username] === password`. Characterised by `Auth.MatchesExactlyTablePairs` and `Auth.DemoTableLogins` |
| `Auth.IsAuthenticated` | server.js:98 | no ensures; the truthiness test on `req.session.user`, written once and used by every protected handler (server.js:98, 109, 117, 141). Characterised by `Auth.DemoLoginAuthenticates` and the handler rows |
| `Server.FieldsPresent` | server.js:146 | no ensures; both `chat_name` and `text` are given and non-empty (the test of server.js:146 fails). Characterised by `Server.ChatServer.PostMessage`'s 400 branch |
| `Messages.InitialStore` | server.js:59 | constant, no ensures; `{lastId: 0, messages: []}`. Characterised by `Messages.ReplayNumbersRows` and the constructor row |
| `Messages.NewRow` | server.js:160-162 | no ensures; the row with id `lastId + 1`. Characterised by `Messages.AppendKeepsValid` and `Messages.AppendedRowListedOnce` |
| `Messages.Append` | server.js:160-165 | no ensures; sets `lastId` and pushes the new row. Characterised by `Messages.AppendKeepsValid`, `Messages.ReplayNumbersRows`, `Messages.AppendKeepsOtherRooms` and `Messages.AppendListedLast` |
| `Messages.InRoom` | server.js:131 | no ensures; the room filter. Characterised by `Messages.InRoomSelects` and `Messages.InRoomKeepsIdsIncreasing` |
| `Messages.SortByTime` | server.js:131 | no ensures; the stable sort by timestamp. Characterised by `Messages.SortByTimeSortsAndPermutes`, `Messages.SortByTimeStable` and `Messages.SortedByTimeUnique` |
| `Messages.Listing` | server.js:131 | no ensures; the filter followed by the sort. Characterised by `Messages.ListingCharacterized`, `Messages.ListingSelectsRoom` and `Messages.ListingBreaksTiesById` |
| `Server.DebugReport` | server.js:176-197 | the debug body reports mode `file` exactly when `usePostgres` is false (`postgres` otherwise), echoes the session user, and has `dbOk` true and `dbError` null exactly when the health check succeeds |
| `Server.ChatServer.constructor` | server.js:59 | the server starts with the store `{lastId: 0, messages: []}`, an anonymous session, the demo table and the backend chosen from the environment; the store invariant holds |
| `Server.ChatServer.Login` | server.js:82-95 | on a credential match: 200 `Login successful`, and `session.user` becomes the username; otherwise: 401 `Invalid credentials`, and the session is unchanged; the store is never touched |
| `Server.ChatServer.Chat` | server.js:97-101 | an authenticated session gets the chat page; an anonymous one is redirected to `/` |
| `Server.ChatServer.Logout` | server.js:103-105 | the session is destroyed: afterwards `user` is absent and the session is not authenticated; the response redirects to `/` |
| `Server.ChatServer.GetCurrentUser` | server.js:108-113 | an authenticated session gets 200 with its username; an anonymous one gets 401 `Not logged in` |
| `Server.ChatServer.GetMessages` | server.js:116-136 | anonymous: 401 `Not logged in`; storage failure: 500 `Database error`; otherwise 200 with a list that is the room's listing as `IsRoomListing` defines it; the method has no `modifies` clause, so two listings with no write in between are identical |
| `Server.ChatServer.PostMessage` | server.js:140-172 | anonymous: 401, store unchanged; missing or empty `chat_name` or `text`: 400, store unchanged; storage failure: 500, store unchanged; otherwise the row gets id `lastId + 1`, the session user as sender, the request's room and text and the clock reading as timestamp; `lastId` becomes that id; `messages` grows by exactly that row at the end; 200 returns that same row; the store invariant is kept |
| `Server.ChatServer.Debug` | server.js:176-198 | responds 200 with the debug report for the current session user, the backend flag and the health check |
| `Messages.AppendKeepsValid` | server.js:160-165 | an append keeps ids strictly increasing, positive and at most `lastId`; the new id is larger than every stored id, so the new row is not already stored |
| `Messages.ReplayNumbersRows` | server.js:160-165 | starting from `{lastId: 0, messages: []}`, every sequence of appends gives row i the id i+1 and the fields of the i-th post; `lastId` equals the number of rows; the store invariant holds |
| `Messages.InRoomSelects` | server.js:131 | the room filter keeps each row of the room as often as it is stored, and no row of another room |
| `Messages.InRoomKeepsIdsIncreasing` | server.js:131 | if the ids of a list increase, the ids of the rows the room filter keeps still increase; in a valid store, where ids increase in stored order, the kept rows therefore come out in stored order |
| `Messages.InsertPermutes` | server.js:131 | one insertion step adds exactly the inserted row |
| `Messages.InsertSorted` | server.js:131 | one insertion step keeps a list ordered by timestamp |
| `Messages.InsertAtTime` | server.js:131 | one insertion step puts the row after every row with the same timestamp |
| `Messages.SortByTimeSortsAndPermutes` | server.js:131 | the sort returns a permutation of its input, with timestamps non-decreasing |
| `Messages.SortByTimeStable` | server.js:131 | the sort is stable: for each timestamp, the rows with that timestamp keep their input order |
| `Messages.SortedByTimeUnique` | server.js:131 | two time-sorted lists that agree on the ordered rows of every timestamp are equal, so any stable sort gives the same result |
| `Messages.ListingCharacterized` | server.js:131 | a list is the room's listing exactly when it is ordered by timestamp and holds, for every timestamp, the room's rows with that timestamp in insertion order |
| `Messages.ListingSelectsRoom` | server.js:131 | the listing has non-decreasing timestamps and holds each row of the room as often as it is stored; rows of other rooms never appear |
| `Messages.ListingBreaksTiesById` | server.js:131 | in a valid store, listed rows with equal timestamps appear in increasing id order, which is insertion order |
| `Messages.AppendedRowListedOnce` | server.js:160-165 | after an append to a valid store, the new row appears exactly once in its room's listing, with all fields unchanged |
| `Messages.AppendKeepsOtherRooms` | server.js:160-165 | an append does not change the listing of any other room |
| `Messages.AppendListedLast` | server.js:161-165 | if no stored row is later than the clock reading, the new row comes last in its room's listing, after the old listing unchanged |

## Left out

- Server.ChatServer.GetMessages: requires file-store mode (`!usePostgres`), so even its 401 short-circuit (server.js:117), which comes before the backend branch and does not depend on the mode, is stated only in file mode. The Postgres branch (`SELECT … ORDER BY timestamp`) belongs to an external database, and SQL gives no tie-break guarantee.
- Server.ChatServer.PostMessage: requires file-store mode (`!usePostgres`), so even its 401 and 400 short-circuits (server.js:141, 146-148), which come before the backend branch and do not depend on the mode, are stated only in file mode. The Postgres `INSERT … RETURNING` branch is external database behaviour.
- Server.ChatServer.PostMessage: a failed rewrite is modelled as leaving the store unchanged. In the code, `fs.writeFile` opens the file with flag `'w'` and truncates it, so a write that fails after the open can leave an empty or partial file. Every later read or parse of it then fails with 500. The model does not capture that damaged state.
- Messages.ReplayNumbersRows: ids are unbounded integers in the model. In the code they are JavaScript numbers (doubles), and from 2^53 on `(store.lastId || 0) + 1` no longer increases. So strictly increasing, distinct ids, as `ReplayNumbersRows`, `AppendKeepsValid` and `Valid()` state them, hold in the code only below that bound.
- Server.ChatServer.Debug: the health check is an abstract `Probe`. In Postgres mode, a query that succeeds with a row count other than 1 (`dbOk` false, `dbError` null) is not modelled.
- The Postgres pool and its SSL options are not modelled, and neither is the table creation at startup.
- Express routing, body parsing, `express-session`, cookie signing and the `SESSION_SECRET` default are framework plumbing. One client's session is a single `user` field. Session expiry is external to the code.
- File I/O (`fs.access`, `fs.readFile`, `fs.writeFile`) and `JSON.parse`/`JSON.stringify` are foreign calls. The store is in-memory state, and an I/O failure is the `storageOk` parameter.
- A store file that already exists at startup is not modelled: the model starts from `{lastId: 0, messages: []}`. Since the store always has both fields, the `store.lastId || 0` and `store.messages || []` fallbacks for a malformed file have no effect in the model.
- `Date` and ISO-8601 strings are not modelled. Timestamps are integers from a clock parameter, and an unparseable date string (a `NaN` comparison) cannot occur.
- Body fields that are not strings are not modelled. This covers numbers or arrays from JSON, and arrays from the extended URL-encoded parser, which would reach `users[…]` through string conversion.
- The lost-update race between concurrent read-modify-write appends is not modelled. The model is sequential.
- `GET /` (the login page), static files, `console.log` and `app.listen` are not modelled. They hold no logic.
