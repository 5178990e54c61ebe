# Account lifecycle of the homework REST API, in Dafny

This project models `services/authService.js`, the part of the REST API that manages user
accounts: `register`, `login`, `checkCurrentUser`, `logout`, `verification` (consuming the
emailed secret) and `resendVerification`. They all act on the shared `User` collection, whose
documents hold an email, a password digest, an avatar URL, the `verify` flag, the pending
`verificationToken` and the session `token`.

Layout:

- `collaborators.dfy` (module `Collaborators`): bcrypt, jsonwebtoken, uuid, gravatar and the mail
  transport, reduced to symbolic values. A digest records the part of the password bcrypt
  reads, its first 72 characters, so `Matches(p, Hash(q))` holds exactly when `p` and `q` agree
  there. A session token records the id it was signed for and the clock second it was signed at, because `jwt.sign` adds an `iat` claim. The n-th uuid drawn is
  `Fresh(n)`. A send either is `Delivered` or has `Failed`.
- `accounts.dfy` (module `Accounts`): the account record, the collection `Users`, the error
  classes with their exact messages, the store invariant `Valid`, and the two lookups the service
  uses (`findOne({email})` and the match of `findOneAndUpdate({verificationToken})`).
- `lifecycle.dfy` (module `Lifecycle`): each operation as a transition from a store to the next
  store and the call's result or error. These contracts carry the guarantees: which error is raised
  and when, the order of the checks, which fields change, and that no other account changes.
- `auth_service.dfy` (module `AuthService`): class `UserStore`. Its `accounts` map is updated in
  place. It has one method per operation, with the same lookups and updates as the service, and
  each method is proved equal to the matching transition.
- `traces.dfy` (module `Traces`): arbitrary sequences of requests. They keep the invariant, never
  remove an account or change its identity, never un-verify it, and never accept a consumed
  secret again.
- `scenarios.dfy` (module `Scenarios`): properties that span several operations.

Modelling choices:

- ObjectIds and verification secrets come from one counter, `issued`. The new account gets id
  `issued` and secret `Fresh(issued)`. This captures the only thing the service relies on, that a
  new id or uuid has never been seen before.
- Mongoose's `findByIdAndUpdate` and `findOneAndUpdate` return the document as it was before the
  update, because the service does not pass `{ new: true }`. So `login`'s `updatedUser`, and the
  account returned by `logout` and by `verification`, are the pre-update records.
- `register` stores the plain password at `services/authService.js:30`. The hashing must happen in
  a save hook of `db/usersModel`, which is not part of this model. The model stores `Hash(password)`.
- Registration looks up the email (`services/authService.js:21`) and then inserts
  (`services/authService.js:34`) in two steps. The model makes each operation one atomic step.
- A failed mail delivery throws a plain `Error` (`services/authService.js:50`,
  `services/authService.js:145`), modelled as `Internal`.
- `logout` updates first and checks afterwards (`services/authService.js:93-100`). With no account
  the update does nothing, so this is the same as checking first.
- Clock time (`now`) and mail delivery outcomes (`Delivery`) are parameters.

## Model

| member | source | states |
|---|---|---|
| Collaborators.Hash | services/authService.js:30 | symbolic stand-in for the bcrypt hashing applied on save: the digest depends only on the first 72 characters of the password |
| Collaborators.Matches | services/authService.js:61 | symbolic stand-in for `bcrypt.compare`: a candidate matches a digest exactly when hashing the candidate gives that digest, so only the first 72 characters count |
| Collaborators.LongPasswordsShareDigest | services/authService.js:61 | two passwords that agree on their first 72 characters match each other's digest |
| Collaborators.Sign | services/authService.js:70-72 | symbolic stand-in for `jwt.sign`: a token naming the account id and the second it was signed at |
| Collaborators.Fresh | services/authService.js:26 | symbolic stand-in for `uuid()`: the n-th secret drawn |
| Collaborators.FreshNeverRepeats | services/authService.js:26 | the assumption the service makes of `uuid()`: distinct draws give distinct secrets |
| Collaborators.AvatarOf | services/authService.js:31 | symbolic stand-in for `gravatar.url`: an avatar URL determined by the email alone |
| Accounts.FindByEmail | services/authService.js:21 | `User.findOne({email})` finds an account exactly when one has that email, and with emails unique it is that account |
| Accounts.FindByVerificationToken | services/authService.js:106-107 | the update's filter matches nothing exactly when no account holds the secret, otherwise the unique holder |
| Lifecycle.Register | services/authService.js:20-53 | a taken email raises "Email in use" and changes nothing; otherwise exactly one account is added under a new id, with that email, a digest of the password, the gravatar of the email, unverified, no session and a secret no other account holds; the existing accounts are untouched; failed mail delivery raises an error but the account stays; the invariant is kept |
| Lifecycle.Login | services/authService.js:55-80 | "Email or password is wrong" exactly when no account with that email matches the password (unknown email and wrong password alike); "Email not verified" exactly when the password matches an unverified account; otherwise the result is the token signed for the account's id with the pre-update document, and that token is stored on that account alone; every failure leaves the store unchanged |
| Lifecycle.CheckCurrentUser | services/authService.js:82-90 | succeeds exactly when the id is stored, with the stored account unchanged; otherwise "Not Authorized" |
| Lifecycle.Logout | services/authService.js:92-103 | fails exactly when checkCurrentUser does, with the same error and no change; otherwise returns the pre-update account and clears its session token, and nothing else in the store changes |
| Lifecycle.Verification | services/authService.js:105-119 | an unknown or consumed secret raises NotFound "User not found" and changes nothing; the account holding the secret becomes verified and loses the secret, and the pre-update account is returned; afterwards no account holds the secret |
| Lifecycle.ResendVerification | services/authService.js:121-149 | NotFound exactly when no account has the email; ValidationError for a verified account; otherwise the unchanged account, or an error when mail fails; the secret it re-sends still verifies that account |
| AuthService.UserStore.Register | services/authService.js:20-53 | the in-place insert leaves the store and result that Lifecycle.Register specifies, and keeps the invariant |
| AuthService.UserStore.Login | services/authService.js:55-80 | the in-place `$set: { token }` leaves the store and result that Lifecycle.Login specifies |
| AuthService.UserStore.CheckCurrentUser | services/authService.js:82-90 | reads only, and returns what Lifecycle.CheckCurrentUser specifies |
| AuthService.UserStore.Logout | services/authService.js:92-103 | the in-place `$set: { token: null }` leaves the store and result that Lifecycle.Logout specifies |
| AuthService.UserStore.Verification | services/authService.js:105-119 | the in-place `$set: { verificationToken: null, verify: true }` leaves the store and result that Lifecycle.Verification specifies |
| AuthService.UserStore.ResendVerification | services/authService.js:121-149 | reads only, and returns what Lifecycle.ResendVerification specifies |
| Traces.Apply | services/authService.js:20-149 | every exported operation, successful or failing, keeps the store invariant: unique emails, unique pending secrets, verified exactly when the secret is consumed, a session only on a verified account and signed for its id |
| Traces.Run | services/authService.js:20-149 | any sequence of operations keeps the store invariant and never lowers the id counter |
| Traces.ApplyKeeps | services/authService.js:74-111 | one operation never removes an account, never changes its email, digest or avatar, and never un-verifies it |
| Traces.RunKeeps | services/authService.js:20-149 | the same holds across any sequence of operations, so sessions come and go without affecting verification |
| Traces.RunKeepsRetired | services/authService.js:26-34 | a consumed secret is never held by any account again, whatever operations follow, because new secrets are fresh |
| Traces.ConsumedSecretNeverAcceptedAgain | services/authService.js:105-119 | after a successful verification(t), verification(t) fails with NotFound after any further operations |
| Scenarios.RegisterTwiceConflicts | services/authService.js:21-24 | after register(email), exactly one account has that email, and registering it again raises "Email in use" and changes nothing |
| Scenarios.RegisterVerifyLoginLogout | services/authService.js:20-103 | register, verification with the mailed secret, login and logout all succeed; login yields the token signed for the new id; the account ends verified with no secret and no session |
| Scenarios.LogoutUndoesLogin | services/authService.js:70-96 | login followed by logout of that account leaves the store as before, except that the account's session token is null |
| Scenarios.LoginIgnoresPasswordTail | services/authService.js:55-79 | a verified account registered with password p logs in with any q that agrees with p on the first 72 characters, as bcrypt's comparison allows |
| Scenarios.ResendKeepsSecretValid | services/authService.js:121-149 | after registering, resendVerification succeeds or fails only on delivery, and the originally mailed secret still verifies the account |

## Left out

- Route wiring and multer upload storage (`routes/api/auth.js`) are not modelled: they are transport plumbing with no logic of their own.
- Avatar resizing (`middleware/imageResizingMiddleware.js`) is not modelled: it does pixel work and file I/O in a foreign library. The avatar upload and subscription controllers it serves are not part of this model either.
- The mail message (sender, subject, HTML link) and the SendGrid call are not modelled. Only their success or failure is, and it happens after any state change.
- Collaborators.Hash: bcrypt's 72-byte limit is counted in characters, so for a password with multi-byte characters the model cuts at a later point than bcrypt does.
- bcrypt, jsonwebtoken, uuid and gravatar are symbolic values, not their algorithms. In particular there is no salted hash, no JWT encoding or signature check, no random uuid and no MD5 of the email.
- The randomness of uuids is replaced by a counter. Freshness is the only property the service depends on.
- `jwt.verify`, which the authorization middleware uses on later requests, is not part of this model.
- Concurrent requests are not modelled. In particular, the window between the email check and the insert in `register` is absent, because every operation is one atomic step.
- Database failures, and ObjectId cast errors for malformed ids, are not modelled. Ids are natural numbers and the store never fails.
- Email addresses are compared exactly. Any trimming or lower-casing done by the `db/usersModel` schema is not part of this model.
- Reading the API keys and the signing secret from the environment (`dotenv`) is not modelled. The signing secret plays no part in the symbolic tokens.
