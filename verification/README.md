# Signup and login handlers of a user-management API

A Dafny model of the two authentication route handlers of an Express/Prisma
user-management service: `POST /api/auth/signup`, which validates a
`{name, email, password}` body, refuses an email that is already registered,
hashes the password and creates a user row; and `POST /api/auth/login`, which
validates `{email, password}`, looks the user up, checks the password against
the stored digest and mints a one-hour access token.

Both handlers are pure functions from (store, request body, collaborators) to
an `Outcome`: the HTTP status and JSON body sent, and the store after the
request. The pieces:

- `fields.dfy` (`Fields`): request-body fields as `Option<string>`; `Missing`
  is JavaScript's `!x`, true for an absent field and for `""`.
- `store.dfy` (`UserStore`): the users table as a `map` keyed by email, plus
  the id the repository assigns to the next row; `FindUnique` and `Create`
  stand for the two Prisma calls, with the unique index on email.
- `hashing.dfy` (`Hashing`): bcrypt as an abstract `Hasher` of two function
  values. Its law `compare(p, hash(p))` is the predicate `Sound`, taken as a
  precondition by the lemmas that need it.
- `tokens.dfy` (`Tokens`): the JWT as an opaque value holding its claims, its
  issue time and its expiry (the `exp` claim of section 4.1.4 of RFC 7519).
- `responses.dfy` (`Responses`): reply bodies, statuses and the exact message
  strings the handlers send.
- `auth.dfy` (`Auth`): the two handlers.
- `sessions.dfy` (`Sessions`): properties of several requests in a row.

The clock (`nowMs`), the hasher and failures (`Fault`: the lookup rejects, or
the insert rejects) are parameters of the handlers. In signup, `WriteFails`
also stands for a rejection of `bcrypt.hash`, which comes between the lookup
and the insert and ends the request the same way.

Some behaviours of the handlers differ from what a client of a REST signup
endpoint would expect; the model keeps them as the code has them:

- a successful signup answers 200, not 201, and always reports `userId: 1`
  rather than the id the new row received;
- a signup whose only missing field is `name` is not rejected: it reaches the
  uniqueness lookup and, if the email is fresh, creates a row;
- when email and password are both missing, the signup message is
  "Email is required";
- the signup handler has no catch: under Express 4 a rejected database call
  leaves the request without any reply (`NoReply`) instead of a 500;
- the login catch-all reply is `{"message": "Intenal server error"}`, spelled
  as in the handler.

## Model

| member | source | states |
|---|---|---|
| Auth.Signup | index.js:9-40 | Both email and password missing gives 400 "Email is required"; exactly one missing gives 400 "Email and password are required"; a missing name alone passes validation; a known email gives 400 "Email already in use"; 200 with "User created successfully" and userId 1 happens exactly for a valid body, a fresh email and no database fault, and then the table gains one row for the email holding the given name and the digest of the password; every other outcome leaves the store unchanged; the store invariant is preserved |
| Auth.Register | index.js:23-39 | The step after validation only: a rejected lookup gives no reply and no write; a known email gives 400 "Email already in use"; for a fresh email a rejected insert gives no reply and no write, and otherwise the reply is 200 "User created successfully" with userId 1, the table gains exactly the row {next id, name, email, digest of the password} and the next id advances by one |
| Auth.Login | index.js:41-79 | Login always replies and never changes the store; a missing email or password gives 400 "Email and password is required"; a rejected lookup gives 500; an unknown email gives 404 "User not found", never 401; 401 "Invalid credentials" exactly when the email is known and the password does not match the stored digest; 200 exactly when it matches, with userdata {id, name, email} of the stored row and a token whose claims are that row's id and email and whose issue time is the request time in whole seconds and whose expiry is one hour after issue; on a well-formed table the userdata and the token name the email the request gave |
| UserStore.FindUnique | index.js:23 | The lookup finds a row exactly when the email is a key of the table, and on a well-formed table the row found carries the email asked for and an id the repository has already assigned |
| UserStore.Create | index.js:31-35 | The insert is refused exactly when the email already has a row; otherwise the new row has the next id, the given name, email and digest, no other row changes, the table grows by one and the store invariant (rows filed under their email, distinct ids below the next id) is preserved |
| Tokens.Sign | index.js:66 | The token carries exactly the given claims, its issue time is the signing time truncated to whole seconds, and it expires 3600 seconds after issue |
| Tokens.SignedTokenLifetime | index.js:66 | A token signed at time T is accepted by an expiry check up to 3599 s after T and refused from T plus one hour on |
| Sessions.SignupValidationIgnoresStore | index.js:11-22 | A signup that validation rejects gets a 400 reply that does not depend on the store or on database behaviour, so the store is never consulted |
| Sessions.LoginValidationIgnoresStore | index.js:44-48 | A login that validation rejects gets a 400 reply that does not depend on the store, the clock or database behaviour |
| Sessions.SignupThenDuplicate | index.js:23-28 | Right after a successful signup, the next valid signup with the same email, unless its lookup rejects, gets 400 "Email already in use" and leaves the store unchanged |
| Sessions.SignupThenLogin | index.js:29-74 | With a hasher for which a password matches its own digest, logging in right after a successful signup with the same email and password, with no database fault, gives 200, userdata of the new row and a token for the new row's id and email |
| Sessions.SignupThenWrongPassword | index.js:60-65 | With a hasher that tells passwords apart, logging in to a freshly created account with any other non-empty password, with no database fault, gives 401 "Invalid credentials" |
| Sessions.SignupAll | index.js:9-40 | Serving signups one after another never removes or changes an existing row, preserves the store invariant, and grows the table by exactly the number of 200 replies |
| Sessions.RepeatAfterRegistered | index.js:23-28 | Replaying a valid signup for an email already in the table any number of times, with any database behaviour on each replay, never succeeds |
| Sessions.Walkthrough | index.js:9-74 | One client session on an empty table, with a sound and collision-free hasher: signing up A / a@x.com / secret123 gives 200 and userId 1; repeating it gives 400 "Email already in use"; logging in with it gives 200 with userdata {1, A, a@x.com} and a token for id 1 and a@x.com; a wrong password gives 401; an unknown email gives 404; a signup with empty email and password gives 400 "Email is required" |
| Sessions.SignupSucceedsOnce | index.js:23-39 | The same valid signup for a fresh email, sent one or more times with no database fault on the first attempt and any database behaviour afterwards, succeeds exactly once |

## Left out

- Express setup, routing, JSON body parsing, the port and `app.listen`: transport, not decision logic.
- Environment loading and every `console.log`: configuration and logging.
- Body fields that are not strings (numbers, `null`, objects): the model takes each field as an optional string.
- bcrypt internals (salt, cost factor 10, the randomness of `hash`): `hash` is one fixed function per `Hasher`, and `compare` is only constrained by the lemmas' preconditions.
- Sessions.SignupThenWrongPassword: assumes a hasher under which no password matches another's digest; bcrypt reads only the first 72 bytes of a password, so two passwords sharing those bytes log in to each other's account, which this lemma does not cover.
- Tokens.Sign: the token is a structured value, not the signed compact string; the header, the signature and the hard-coded signing secret are not modelled.
- Email comparison is exact string equality; the collation of the underlying database table is not part of this model.
- The database schema is not part of this model: a row created with a missing name keeps the name as absent, and a schema that rejects it would show up only as a `WriteFails` fault.
- Ids are assumed to be integers from a counter that starts at 1 and advances by one per created row; a failed insert that uses up an auto-increment value, or string ids (uuid, cuid), are not modelled. Sessions.SignupThenLogin and Sessions.Walkthrough state the new row's id under this assumption.
- The Express version is assumed to be 4, where a rejection the signup handler does not catch goes unhandled and no reply is sent (Node 15 and later then end the process, which is not modelled); under Express 5 the router would pass it to the default error handler and answer 500.
- Failures of bcrypt or of token signing inside login (which would also reach the 500 reply): only database failures are modelled.
- The race between the lookup and the insert under concurrent signups: requests are served one at a time.
