# IDI balance ledger — a Dafny model

IDI is a small coin-transfer service with two servers. Both keep user records with a balance.

- `server.js` keeps the users in an in-memory table. It offers sign-up, log-in, a current-user lookup, a transfer from the caller to another user, and an administrator's mint/burn ("adjust").
- `node.js` keeps the users in a JSON file. It offers the same transfer and adjust, with fewer checks.

Each handler is a chain of guards followed by an update of one or two balances. The model strips the HTTP layer. Each handler becomes a pure function from the user list and the request to either the new list or the error it replies with (`Result`). A rejected request therefore has nothing to write back.

Files:

- `basics.dfy` (module `Basics`): `Option`, `Result`, the error replies (`Failure`), JavaScript truthiness of a body field, the first-match lookup of `Array.prototype.find` (`FirstIndex`), and sums of balances.
- `memory_ledger.dfy` (module `MemoryLedger`): the in-memory server. It covers the start table, `findUser`, the sign-up, log-in, transfer and adjust handlers, and `/api/me`. It also models the server as a state machine over the table (`Handle`, `Run`). The table invariant is `Valid`: usernames are unique and no balance is negative. The money supply is `Total`.
- `file_ledger.dfy` (module `FileLedger`): the file-backed server. A stored balance (`Balance`) is a number, `null`, or absent. `balance || 0` reads `null` and an absent balance as 0. `balance -= a` tells them apart: `null` counts as 0 and gives `-a`, while an absent balance gives `NaN`, which is written to the file as `null`.
- `variants.dfy` (module `Variants`): stores an in-memory record as a file record whose balance is present. It then proves where the two servers agree and where they diverge.

Modelling choices:

- The caller's identity, which the server decodes from a bearer token, is a `Principal` input: a username and a role.
- The sign-up `id` (a clock reading in the source) is a parameter.
- Body fields are optional values. A string field fails the guard when it is missing or empty, as `!s` does.
- In `server.js` an amount is `Option<int>`: `None` is a missing or `null` amount, and `!amount` rejects both, along with zero. In `node.js` the amount is an `int`.
- Both servers look up the sender and the recipient first and then update them one after the other on the same objects. The model performs the two updates in sequence and reads the recipient from the already-debited list. This makes a transfer to oneself come out as the source computes it. In `server.js` the table is unchanged. In `node.js` a numeric balance is kept. A `null` balance ends at 0, because `-a` is read back and `a` added. An absent balance ends at the amount, because `NaN` is read as 0.

The code has none of the following, and neither does the model:

- a refusal of transfers to oneself;
- a transaction log;
- detection of superseded tokens;
- clamping or a sign check of amounts in `node.js`.

## Model

| member | source | states |
|---|---|---|
| Basics.FirstIndex | server.js:48 | `find` returns the first position holding the name, and nothing exactly when no element holds it |
| MemoryLedger.FindUser | server.js:47-49 | `findUser` yields the first record with the username, and none exactly when the username is not registered |
| MemoryLedger.FindUserUnique | server.js:47-49 | with unique usernames, `findUser` finds the one record that carries the name |
| MemoryLedger.InitialUsersValid | server.js:16-44 | the start table has unique usernames and non-negative balances, and its supply is 10000840 |
| MemoryLedger.Signup | server.js:68-86 | a missing or empty field gives 'All fields are required'; a taken username gives 'Username already exists'; otherwise exactly one record is appended with the given fields, balance 0 and role 'user', and the old records are untouched |
| MemoryLedger.SignupPreservesValid | server.js:73-86 | after a successful sign-up the username is registered, usernames stay unique, balances stay non-negative and the supply is unchanged |
| MemoryLedger.Login | server.js:102-107 | every failure is the one 'Invalid username or password' reply, whether the user is unknown or the password is wrong; success returns a stored record with that username and password |
| MemoryLedger.LoginMatchesCredentials | server.js:104-106 | on a table with unique usernames, log-in succeeds if and only if some record has exactly that username and password |
| MemoryLedger.CurrentUser | server.js:123-125 | `/api/me` returns the caller's record exactly when the caller is registered, else 'User not found' |
| MemoryLedger.Send | server.js:136-146 | a missing recipient or a missing, zero or negative amount gives 'Invalid parameters'; an unknown sender or recipient gives 'User not found'; then a balance below the amount gives 'Insufficient balance', and otherwise it succeeds; success debits the sender, credits the recipient and leaves every other record as it was, and a self-transfer changes nothing |
| MemoryLedger.SendConservesTotal | server.js:143-146 | a successful transfer leaves the sum of all balances unchanged |
| MemoryLedger.SendPreservesValid | server.js:140-146 | a successful transfer keeps usernames unique and every balance non-negative |
| MemoryLedger.SelfSendKeepsTable | server.js:140-146 | a transfer to oneself of a positive amount that the balance covers is accepted and leaves the table exactly as it was |
| MemoryLedger.Adjust | server.js:156-166 | a caller whose role is not 'admin' gets 'Unauthorized' before anything else is checked; a missing username or a missing or zero amount gives 'Invalid parameters'; an unknown target gives 'User not found'; success sets the target's balance to max(0, old + amount) and changes nothing else |
| MemoryLedger.AdjustPreservesValid | server.js:162-166 | an adjustment keeps usernames unique and every balance non-negative |
| MemoryLedger.AdjustAppliedAmount | server.js:165-166 | the supply moves by the change actually applied to the target: on a target whose balance is 0 or more, a mint adds the amount and a burn removes the smaller of the balance and the amount burnt |
| MemoryLedger.Handle | server.js:68-169 | a rejected request leaves the table unchanged; log-in and `/api/me` never change it; an adjustment by a non-administrator is refused as 'Unauthorized'; only sign-up changes the usernames |
| MemoryLedger.HandlePreservesValid | server.js:68-169 | every request, accepted or rejected, keeps the table valid |
| MemoryLedger.RunPreservesValid | server.js:68-169 | any sequence of requests keeps a valid table valid |
| MemoryLedger.ReachableTablesValid | server.js:16-169 | every table reachable from the start table has unique usernames and no negative balance |
| MemoryLedger.HandleConservesUnlessAdmin | server.js:136-166 | any request other than an administrator's adjustment leaves the supply unchanged |
| MemoryLedger.RunConservesUnlessAdmin | server.js:136-166 | a sequence of requests without administrators' adjustments leaves the supply unchanged |
| FileLedger.Find | node.js:18 | the first stored record with the username; a missing username matches no record |
| FileLedger.Adjust | node.js:15-22 | an unknown username gives 'User not found'; otherwise the target's balance becomes (old, or 0 if missing) + amount, with no floor, no role check and no zero check, and no other record changes |
| FileLedger.AdjustMovesTotal | node.js:21 | an adjustment moves the supply, missing balances counted as 0, by exactly the amount |
| FileLedger.FileOpsKeepNames | node.js:18-36 | neither handler changes any username, so a list with unique usernames keeps them unique |
| FileLedger.Send | node.js:27-37 | an unknown sender or recipient gives 'User not found'; then a balance (or 0) below the amount gives 'Insufficient balance', and otherwise it succeeds; success debits the sender (`null` as 0, an absent balance saved as `null`), credits the recipient's balance (or 0) and changes no other record; on a self-transfer a number is kept, `null` becomes 0 and an absent balance becomes the amount |
| FileLedger.SendConservesTotal | node.js:35-36 | unless the sender's record has no balance key, a successful transfer conserves the supply |
| FileLedger.SendFromNullBalance | node.js:33-36 | on a transfer to another user, a sender whose balance is `null` passes only for an amount of at most 0, is saved as minus the amount, and the supply is unchanged |
| FileLedger.SendFromMissingBalance | node.js:33-36 | on a transfer to another user, a sender with no balance key passes only for an amount of at most 0, is saved with a `null` balance, and the supply moves by the amount, so value is destroyed when the amount is negative |
| FileLedger.SendNegativeAmountDrainsRecipient | node.js:33-36 | on a transfer to another user from a sender whose balance reads as 0 or more, a negative amount is accepted and lowers the recipient's balance, below zero when its balance was smaller than the amount's magnitude |
| Variants.FindAgrees | node.js:30-31 | on a stored copy of the table, the file lookup finds the same record as `findUser` |
| Variants.SendVariantsAgree | node.js:27-37 | for a positive amount and a non-empty recipient, the file transfer from the caller's own account gives the same error as the in-memory one or the same new list |
| Variants.SendVariantsDiverge | node.js:33 | on a table with no negative balance, an amount of zero or less is refused in memory but accepted by the file server when both users exist |
| Variants.AdjustVariantsAgree | node.js:21 | an administrator's adjustment with a non-zero amount and a non-empty username, that does not take the balance below zero, gives the same result in both servers |
| Variants.AdjustVariantsDiverge | node.js:21 | an administrator's burn past zero on a registered user gives balance 0 in memory and the negative sum in the file |
| Variants.AdjustGuardsOnlyInMemory | node.js:15-22 | for a non-empty username that is registered, a non-administrator or a zero amount is refused in memory but accepted by the file server, where a zero amount leaves the list unchanged |

## Left out

- HTTP plumbing (server.js:2-13, 171; node.js:2-6, 41): routing, body parsing, CORS, static files and status codes. Each failure is a `Failure` case instead.
- Token signing and verification (server.js:5, 52-63, 88, 109): the token library is not part of this model. The verified claims are the `Principal` input, and the role in the claims is trusted as the source trusts it.
- The JSON reply bodies: each is a projection of the record or table the model returns. The log-in and sign-up tokens are not modelled.
- File reads and writes and JSON encoding (node.js:10, 17, 22, 29, 37): the parsed list is the input and the returned list is what gets written. `GET /api/users` (node.js:9-12) only returns the file's contents and is not modelled.
- Several server processes sharing one file: their read-modify-write cycles could interleave. Within one Node process the handlers read and write synchronously and cannot interleave, so each request is modelled as running alone.
- `Date.now()` identifiers (server.js:78): nondeterministic, so the identifier is a parameter.
- JavaScript numbers and coercion: fractional amounts, string amounts (where `+=` would concatenate), and `NaN` from arithmetic on non-numbers are not modelled. Balances and amounts are unbounded integers. JavaScript numbers are doubles, so integers beyond 2^53 are rounded, and an amount such as `1e400` parses as `Infinity`. Neither is modelled. The conservation and non-negativity results hold for the source only while amounts and balances stay within that exact range.
- A missing or `null` amount in node.js: there it would coerce to `NaN` or `0` inside the arithmetic, and the model takes the amount as an integer.
- Stored records without a username, and non-string usernames in node.js: every record is assumed to carry a string username.
- Non-string body fields in server.js (username, password, fullName, email, toUsername): `!s` lets any truthy JSON value through, and `===` keeps the number 123 apart from the string "123". The model takes these fields as strings.
- Features the code does not have: a transaction log, stale-token detection, refusal of self-transfers, locking and atomic sections.
