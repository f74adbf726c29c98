# Refresh-token lifecycle of the token-based login service

This project models how the service's authentication controller drives the
rows of its `refresh_tokens` table, and proves properties of that model in
Dafny.

The controller has one handler per request:

- **register** and **login** each issue a new active row that expires seven days out.
- **refresh** rotates a token. It looks up an active, unexpired row for the
  presented token, revokes that row and inserts a successor for the same user.
- **logout** revokes the row holding the presented token.
- **logout-all** revokes every row of the signed-in user.

Three files:

- `refresh_token.dfy` (module `RefreshTokens`) models the row schema of
  `models/RefreshToken.js`: required `token`, `userId` and `expiresAt`;
  `isRevoked` defaulting to false; optional `userAgent` and `ipAddress`.
  It also holds the two table constraints (distinct primary keys, the unique
  index on `token`) and the three table operations the controller uses:
  `create` (`Created`), `update … set isRevoked = true where …` (`Updated`)
  and the active-token `findOne` (`ActiveIndex`). The `Extends` relation
  says what a table may become: rows are only appended or revoked.
- `auth_controller.dfy` (module `Auth`) gives each handler of
  `controllers/authController.js` as a function from the old table to the
  response (status and message) and the new table: `RegisterStep`,
  `LoginStep`, `RefreshStep`, `LogoutStep` and `LogoutAllStep`. The class
  `AuthController` owns the mutable table (`records: seq<Record>`). Its
  methods `Register`, `Login`, `Refresh`, `Logout` and `LogoutAll` do the same
  work step by step: loops for the lookup, the uniqueness check and the
  row-by-row update. Each method is proved equal to its step function.
- `auth_properties.dfy` (module `AuthProperties`) states what each handler
  answers and writes. It also states what holds after any sequence of later
  requests (`Run`): the table invariant is kept, revocation is permanent,
  rotation is single-use, and logout and logout-all end sessions for good.

Inputs that the handlers do not decide themselves are parameters:

- the clock `now`, in milliseconds, in place of `Date.now()` / `new Date()`;
- the newly generated refresh-token value `newToken`;
- `signatureOk`, the outcome of `verifyRefreshToken` on the presented token (it throws on a bad signature);
- the user store's answers: `emailTaken` for register; `found: Option<User>`
  with `isActive`, plus `passwordValid`, for login; and for refresh, the set
  `users` of user ids that still have a row (`storedToken.user`).

A row's primary key is its position in the table. Rows are never deleted, so
a new position is a new key, which is what the UUIDv4 default guarantees.

Three facts about the code that the model keeps:

- **Three failure messages.** Refresh failures answer 401 with three
  different messages: "Refresh token required" (no cookie), "Invalid or
  expired refresh token" (lookup or owner fails) and "Invalid refresh token"
  (signature check or a later error). The model keeps all three.
- **Rotation is two separate writes.** The code revokes the old row
  (`authController.js:146-149`) and then creates the successor (`:151-157`),
  with no transaction around them. If the create fails (here: the new token
  is already in the table), the old row stays revoked, no successor exists,
  and the caught error answers 401. `RefreshStep` and `RefreshOutcome` model
  this path.
- **A duplicate token has no dedicated error.** The unique index rejects the
  insert and the handler's generic `catch` answers: 500 for register and
  login, 401 for refresh.

## Model

| member | source | states |
|---|---|---|
| `RefreshTokens.WellFormed` | models/RefreshToken.js:5-14 | A table meeting the schema's constraints holds no two rows with the same primary key and no two rows with the same token (the unique index at lines 42-46). |
| `RefreshTokens.Created` | models/RefreshToken.js:10-30 | Inserting succeeds exactly when the token is not yet in the table. On success it appends one row that holds the given token, owner and expiry, with `isRevoked` false. Earlier rows are untouched, and both table constraints still hold. |
| `RefreshTokens.Updated` | controllers/authController.js:146-149 | The `update … set isRevoked = true where …` keeps the table's length. Exactly the rows matching the where clause become revoked, and every other row is unchanged. |
| `RefreshTokens.ActiveIndex` | controllers/authController.js:125-132 | The lookup returns the first row whose token matches, that is not revoked, and whose `expiresAt` is strictly greater than `now`. It returns nothing when no row qualifies. |
| `RefreshTokens.UpdatedKeepsTable` | models/RefreshToken.js:5-14 | An update only ever revokes rows. It keeps primary keys distinct and tokens unique, and it changes no token. |
| `RefreshTokens.UpdatedNoMatch` | controllers/authController.js:185-188 | An update whose where clause matches no row leaves the table as it was. |
| `RefreshTokens.ActiveIndexUnique` | models/RefreshToken.js:42-46 | Under the unique index, a row that is active for a token is the row the lookup returns. |
| `RefreshTokens.DeadTokenNotFound` | models/RefreshToken.js:42-46 | Under the unique index, if a token's row is revoked or expired, the lookup finds nothing for that token. |
| `Auth.Presented` | controllers/authController.js:118 | The cookie passes the truthiness test `!refresh_token` (also `if (refresh_token)` at line 184) exactly when it is present and not the empty string. |
| `Auth.Issue` | controllers/authController.js:32-38 | The seven-day `RefreshToken.create` shared by register, login (lines 85-91) and refresh (lines 151-157) succeeds exactly when the new token is unused. It then appends exactly one active row for the user with the request metadata, expiring at `now + 604800000`, and keeps both table constraints. |
| `Auth.RegisterStep` | controllers/authController.js:11-59 | Register keeps both table constraints. It changes the table only by appending: every old row is kept exactly as it was. |
| `Auth.LoginStep` | controllers/authController.js:61-112 | Login keeps both table constraints. It changes the table only by appending: every old row is kept exactly as it was. |
| `Auth.RefreshStep` | controllers/authController.js:114-178 | Refresh keeps both table constraints. Every row it changes is only revoked, and it can append rows. |
| `Auth.LogoutStep` | controllers/authController.js:180-204 | Logout keeps both table constraints. Every row it changes is only revoked. |
| `Auth.LogoutAllStep` | controllers/authController.js:206-228 | Logout-all keeps both table constraints. Every row it changes is only revoked. |
| `Auth.AuthController.constructor` | models/RefreshToken.js:39-54 | The controller starts over any table that satisfies the schema's constraints. |
| `Auth.AuthController.TokenExists` | models/RefreshToken.js:42-46 | The scan answers whether some row already holds the token. This is the check the unique index makes. |
| `Auth.AuthController.FindOne` | controllers/authController.js:125-132 | The scan returns the same row as the active-token lookup `ActiveIndex`. |
| `Auth.AuthController.Create` | controllers/authController.js:32-38 | The method appends exactly the row `Created` describes. On a duplicate token it fails and writes nothing. |
| `Auth.AuthController.Update` | controllers/authController.js:146-149 | The row-by-row loop leaves the table equal to `Updated`, and it keeps the table constraints. |
| `Auth.AuthController.Register` | controllers/authController.js:11-59 | The method's answer and new table are those of `RegisterStep`. |
| `Auth.AuthController.Login` | controllers/authController.js:61-112 | The method's answer and new table are those of `LoginStep`. |
| `Auth.AuthController.Refresh` | controllers/authController.js:114-178 | The method's answer and new table are those of `RefreshStep`. |
| `Auth.AuthController.Logout` | controllers/authController.js:180-204 | The method's answer and new table are those of `LogoutStep`. |
| `Auth.AuthController.LogoutAll` | controllers/authController.js:206-228 | The method's answer and new table are those of `LogoutAllStep`. |
| `AuthProperties.RegisterOutcome` | controllers/authController.js:15-51 | A taken email answers 409 and writes nothing. Register answers 201 exactly when the email is free and the new token unused. Then it appends exactly one active row for the new user, expiring at `now + 604800000`. Otherwise the table is unchanged. |
| `AuthProperties.LoginOutcome` | controllers/authController.js:65-96 | An unknown user, an inactive user and a wrong password all give the same answer, 401 "Invalid credentials", and write nothing. Login answers 200 exactly when the credentials hold and the new token is unused. Then it appends exactly one active row for the user, expiring at `now + 604800000`. |
| `AuthProperties.RefreshOutcome` | controllers/authController.js:118-177 | Refresh answers only 200 or 401. A missing cookie, no active unexpired row, a missing owner or a failed signature check each answer 401 and write nothing. Refresh answers 200 exactly when these checks pass and the new token is unused. If only the create fails, the old row is left revoked with no successor. |
| `AuthProperties.RefreshRotates` | controllers/authController.js:125-157 | For the row holding the presented token, refresh succeeds exactly when that row is active, its owner exists, the signature checks and the new token is unused. Then that row is revoked and one active row for the same owner is appended, expiring at `now + 604800000`. Every other row is unchanged. |
| `AuthProperties.DeadRowRejected` | controllers/authController.js:125-140 | A row that is revoked, or whose `expiresAt <= now`, is never accepted. Refresh answers 401 "Invalid or expired refresh token" and writes nothing. |
| `AuthProperties.LogoutOutcome` | controllers/authController.js:182-196 | Logout always answers 200 "Logout successful". It revokes exactly the rows holding the presented token. A missing cookie or an unknown token changes nothing. |
| `AuthProperties.LogoutAllOutcome` | controllers/authController.js:208-219 | Logout-all answers 200. It revokes every row of the user and leaves every other row unchanged. |
| `AuthProperties.MetadataNotConsulted` | models/RefreshToken.js:31-38 | The answers of refresh, login and register are the same under any request metadata and any stored `userAgent`/`ipAddress`. |
| `AuthProperties.SameTokensHasToken` | models/RefreshToken.js:42-46 | Two tables holding the same tokens position by position agree on which tokens are taken. |
| `AuthProperties.ActiveIndexIgnoresMetadata` | controllers/authController.js:125-132 | The lookup gives the same answer on two tables that differ only in metadata. |
| `AuthProperties.RunKeepsTable` | controllers/authController.js:32-213 | Any sequence of requests keeps distinct primary keys and unique tokens. No row is deleted, and owner, token and expiry of every row stay fixed. The only change to a row is `isRevoked` going from false to true, never back. |
| `AuthProperties.RevocationPermanent` | controllers/authController.js:146-149 | A revoked row stays exactly as it is, whatever requests follow. |
| `AuthProperties.RevokedTokenRefusedForever` | controllers/authController.js:125-140 | After any later requests, a refresh presenting the token of a revoked row answers 401. |
| `AuthProperties.SingleUse` | controllers/authController.js:125-157 | After a successful refresh with a token, any later refresh with that token answers 401, whatever requests came in between. |
| `AuthProperties.LogoutEndsSession` | controllers/authController.js:182-188 | After logout with a token of the table, every later refresh with that token answers 401. |
| `AuthProperties.LogoutAllEndsSessions` | controllers/authController.js:208-213 | After logout-all for a user, every later refresh with any token that user held before answers 401. |
| `AuthProperties.RotationScenario` | controllers/authController.js:85-157 | Login issues r1, and r1 rotates to r2. Presenting r1 again is refused, and r2 then rotates to r3. |
| `AuthProperties.LogoutAllScenario` | controllers/authController.js:85-213 | A user logs in twice, getting r1 and r2. After logout-all, both r1 and r2 are refused. |

## Left out

- HTTP handling is not modelled: request bodies, `res.status(...).json(...)`, `console.error`, and the access token with its `expiresIn` in the response body. Only the status, the message and the table change are modelled.
- Cookie transport is not modelled: setting the access and refresh cookies, and `clearAuthCookies` on refresh failure and on logout. It is response configuration.
- The 500 answers for database failures are not modelled, except the one for a duplicate token. An unreachable store is I/O that the model does not represent.
- The user store is an oracle. Creating the user row in register, password hashing (`validatePassword`) and the `lastLoginAt` update in login are left out. So is the consequence that a register whose token insert fails has still created the user.
- Token generation and signing are not modelled. The JWT claims, the secrets and the entropy of generated values are left out. The signature check is the `signatureOk` parameter. Note that the stored refresh token is the signed JWT, which carries the user id, and not the random `generateRefreshToken` value.
- An exception thrown by `generateTokenPair` (a missing secret) is not modelled. In refresh (`authController.js:144`) the code answers 401 and writes nothing, the same as the modelled signature-failure path. In register (`:30`) and login (`:83`) it answers 500. In register the user row already exists by then, and in login `lastLoginAt` is already updated; the model has no such path for either handler.
- Database collation is not modelled. The database is created with `COLLATE utf8mb4_unicode_ci` (`scripts/setupDatabase.js:15`). Unless the connection configuration overrides it, the `token` column inherits that collation. The unique index and the `where: { token }` lookups (`authController.js:127`, `:187`) then compare tokens ignoring case and trailing spaces. The model compares tokens by exact string equality. So in the code, logout with a case-variant of a stored token revokes that row, where the model revokes nothing. In the code, refresh with such a variant finds the row, fails `verifyRefreshToken` and answers "Invalid refresh token", where the model answers "Invalid or expired refresh token".
- The precision of `expiresAt` is not modelled. It is a `DataTypes.DATE` (`models/RefreshToken.js:24`), which MySQL stores by default as a DATETIME of whole seconds. So `expiresAt == now + 604800000` holds in the code only to the second. The model keeps milliseconds.
- The real clock and the environment variables are not modelled. `now` is a parameter.
- Concurrency is not modelled. Refresh is three separate awaited database calls with no transaction. The model treats each handler as one sequential step and makes no claim about two simultaneous refreshes of the same token.
- Some schema details are not modelled: the `createdAt`/`updatedAt` timestamps, the 500-character limit on `token`, the secondary indexes on `userId` and `expiresAt`, and the cascade delete on owner removal. The foreign key to users appears only as the `users` set that refresh consults.
- `getProfile` is not modelled. It reads the signed-in user and touches no refresh token.
- Routing, database setup and the model associations are not modelled. They are wiring and I/O.
