# OVEN backend: a Dafny model of the token lifecycle, webhook store and log redaction

The OVEN backend is a NestJS service with two concerns. The first is
authentication: users register with a username and password. Logging in gives
them a short-lived access token and a refresh token recorded in a table. A
refresh token can be rotated once for a new pair. The second concern is
receiving webhooks: the store keeps incoming events, and they are listed most
recent first.

This project models the logic under those endpoints and proves properties of
it:

- **Stores.** `UserRepository` and `RefreshTokenRepository` are classes over
  `map` tables keyed by user id and by token string. `WebhookRepository` and
  the in-memory `StorageRepository` are classes over a `seq` of records in
  insertion order.
- **Token handling.** `TokenHandler` signs access and refresh tokens, saves
  the refresh row (seven days on) and validates access tokens.
  - jsonwebtoken and bcrypt are function-valued parameters (`Crypto.Jwt`,
    `Crypto.Hasher`).
  - The laws the model relies on are the predicates `LawfulJwt` and
    `LawfulHasher`. They are stated as preconditions where a proof needs them.
- **Authentication service.** `AuthService.register`, `login` and
  `refreshToken` are each a specification function from the tables before the
  call to the tables after it and the outcome. Examples are `Auth.RefreshStep`
  and the `catch` block's error mapping. The class methods make the same reads
  and writes and are proved to match.
- **Guards.** The two guards split the `Authorization` header as JavaScript's
  `split(' ')` does (`Guards.Split`, with its `Join` round trip). The accept
  and reject rules are proved case by case.
- **Webhook listing.** `findAll` sorts by `receivedAt` descending and cuts a
  `skip`/`take` window. Its properties are proved: the result is sorted, its
  elements are elements of the full listing, and pages of one size are
  disjoint.
- **DTOs.** The request DTO rules become parse functions over JSON bodies. The
  response mappers of both endpoint groups are modelled too.
- **Logging.** `sanitizeArgs` and the `@LogMethod()` wrapper are modelled.
  `sanitizeArgs` is a loop over the sensitive field names, proved equal to a
  closed-form redaction. The wrapper is a plain higher-order function.

Time is an integer count of milliseconds, passed in as `now`. The token
library sees whole seconds (`TokenHandler.Seconds`). The user id, which the
service draws with `randomUUID()`, the webhook id, which the store generates,
and bcrypt's salt are parameters too.

Some behaviours follow from the code as written and are proved as such:

- The refresh-row expiry is fixed at seven days, whatever the refresh token's
  own `expiresIn` says.
- `validateToken` refuses refresh tokens.
- `getAllWebhooks` passes no paging arguments, so it returns the whole list.
- Signing is deterministic with second-granularity `iat`. So two logins of one
  user in the same second produce the same refresh token, and the second save
  fails on the token key (`Auth.LoginTwiceInOneSecondCollides`).
- Likewise, a refresh in the second its token was issued hands back the same
  string (`Auth.SameSecondRefreshReplays`), so one-time use holds only for
  tokens from an earlier second (`Auth.RotatedTokenIsNew`,
  `Auth.RefreshTwiceFails`).

The code's tests expect otherwise in two places, and the model follows the
code:

- They expect `validateToken` to accept a refresh token.
- They expect `getAllWebhooks` to forward paging arguments.

Three more behaviours of the code are modelled as they are:

- `findAll` has no default and no cap on `page` or `limit`. Without a limit
  it returns the whole table; a limit without a page gives the first `limit`
  records. Page 0 counts as no page, so it reads the same records as page 1.
- The order of records with equal `receivedAt` is left to the database.
- No validation pipe is installed. The DTO rules (`AuthDto.ParseCredentials`,
  `WebhookDto.ParseCreateWebhook`) are modelled as parsing functions of their own,
  and the services do not depend on them.

## Model

| member | source | states |
|---|---|---|
| Users.FindByUsername | src/repositories/user.repository.ts:21-25 | in a well-formed table, a user is found exactly when some row has that username, and it is that row |
| Users.FindById | src/repositories/user.repository.ts:27-31 | a user is found exactly when the id is a key, and it is the row under that key |
| Users.ExistsByUsername | src/repositories/user.repository.ts:33-38 | true exactly when some row has that username |
| Users.ExistsIffFound | src/repositories/user.repository.ts:33-38 | "the count of users with that username is positive" holds exactly when `findByUsername` finds one |
| Users.Count | src/repositories/user.repository.ts:40-42 | the number of users in the table |
| Users.Created | src/repositories/user.repository.ts:9-13 | succeeds exactly when the id is unused and no row has the username, otherwise fails on the id or the username key; on success the table gains exactly the new row, stamped with `now` twice, and keeps every other row |
| Users.CreatedAddsOneUser | src/repositories/user.repository.ts:9-13 | `create` succeeds exactly when id and username are unused; it then adds exactly the new row (count + 1), keeps ids and usernames unique, and the new user is found under both keys |
| Users.UserRepository.Create | src/repositories/user.repository.ts:9-13 | the table becomes the created table and the row is returned, or the store's error is returned and nothing changes; well-formedness is preserved |
| RefreshTokens.Saved | src/repositories/refreshToken.repository.ts:21-29 | saving succeeds exactly when the token is a new key; it then adds exactly that row and keeps every other one |
| RefreshTokens.RefreshTokenRepository.Save | src/repositories/refreshToken.repository.ts:21-29 | the table becomes the saved table, or the error is returned and the table is unchanged |
| RefreshTokens.FindByToken | src/repositories/refreshToken.repository.ts:31-35 | the row is found exactly when the token is a key, and it is that row |
| RefreshTokens.RefreshTokenRepository.Delete | src/repositories/refreshToken.repository.ts:37-42 | removes the token's row if there is one; an absent token leaves the table (and its size) unchanged |
| RefreshTokens.DeleteIdempotent | src/repositories/refreshToken.repository.ts:37-42 | deleting twice equals deleting once; deleting an absent token changes nothing |
| RefreshTokens.RefreshTokenRepository.DeleteByUserId | src/repositories/refreshToken.repository.ts:44-48 | exactly the rows of other users remain |
| RefreshTokens.RefreshTokenRepository.DeleteExpired | src/repositories/refreshToken.repository.ts:50-59 | exactly the rows with `expiresAt >= now` remain, and the returned number is how many rows went |
| RefreshTokens.DeleteExpiredPartition | src/repositories/refreshToken.repository.ts:50-59 | kept and expired rows partition the table, and their sizes add up to its size |
| RefreshTokens.RemovedCount | src/repositories/refreshToken.repository.ts:58 | removing a set of present keys shrinks the table by the size of that set |
| RefreshTokens.RefreshTokenRepository.Count | src/repositories/refreshToken.repository.ts:61-63 | the number of keys in the table |
| TokenHandler.GenerateAccessToken | src/helper/token.ts:10-16 | under lawful signing, a non-empty space-free string that verifies, until `accessTtl` seconds on, to `{userId, username, type: access}` issued now |
| TokenHandler.IssueRefreshToken | src/helper/token.ts:18-33 | signs `{userId, type: refresh}`, then succeeds exactly when that string is not yet a key; it adds exactly the row (token, userId, now + 7 days) and returns the saved token |
| TokenHandler.GenerateRefreshToken | src/helper/token.ts:18-33 | the repository's table and the returned token are those of `IssueRefreshToken`; a failed save changes nothing and is passed on |
| TokenHandler.ValidateToken | src/helper/token.ts:35-47 | Ok exactly when the token is present, verifies and has type "access", with `{userId, username}` from its payload; every failure is the single "Invalid token" |
| TokenHandler.AccessTokenRoundTrip | src/helper/token.ts:10-43 | a generated access token validates, before its expiry, to exactly the user's id and username |
| TokenHandler.ExpiredAccessTokenRejected | src/helper/token.ts:44-46 | from its expiry on, an access token is refused with "Invalid token" |
| TokenHandler.RefreshTokenRejected | src/helper/token.ts:39-41 | a refresh token is always refused by `validateToken` |
| TokenHandler.ForeignSecretRejected | src/helper/token.ts:44-46 | a token signed under another secret is refused |
| AuthDto.ParseCredentials | src/dto/auth.dto.ts:3-21 | a login/register body is accepted exactly when both fields are non-empty strings, and the DTO holds those strings |
| AuthDto.ParseRefreshTokenBody | src/dto/auth.dto.ts:58-62 | a refresh body is accepted exactly when `refreshToken` is a non-empty string |
| AuthDto.UserResponse | src/dto/auth.dto.ts:23-32 | the user view carries the user's username and both timestamps |
| AuthDto.LoginResponseFromModel | src/dto/auth.dto.ts:34-47 | the login response holds the user view and both tokens unchanged |
| AuthDto.LoginResponseHidesIdAndHash | src/dto/auth.dto.ts:23-47 | the login response depends only on username and timestamps, never on id or hash; both tokens pass through unchanged |
| Auth.RegisterStep | src/services/auth.service.ts:20-38 | register never touches the token table; a failure changes nothing; a success answers "User registered successfully" and the fresh id is then a user |
| Auth.LoginStep | src/services/auth.service.ts:40-56 | login never touches the user table; a failure changes nothing; a success adds exactly the returned refresh token, which was not yet a key |
| Auth.RefreshStep | src/services/auth.service.ts:59-100 | refresh never touches the user table; a failure adds no token; a success needs the presented token stored and replaces its key by the returned refresh token |
| Auth.RegisterOutcome | src/services/auth.service.ts:20-38 | a taken username is a Conflict "Username already exists" with nothing created; success happens exactly when the username and the fresh id are unused; it adds exactly one row holding the hash, returns "User registered successfully", and keeps the table well formed |
| Auth.RegisterStoresHash | src/services/auth.service.ts:27-35 | the stored hash is not the password and matches it |
| Auth.RegisterTwiceConflicts | src/services/auth.service.ts:22-25 | a second registration of one username conflicts and leaves one user with that name |
| Auth.LoginOutcome | src/services/auth.service.ts:40-56 | unknown user and wrong password give the same "Invalid credentials" and change nothing; success happens exactly when the password matches and the refresh string is unused; it adds exactly one row (user, now + 7 days) and returns that token, the user's access token and the user view |
| Auth.RegisterThenLogin | src/services/auth.service.ts:40-56 | after registering, the same password logs in (unless the token key collides) with an access token that validates to the new user; any other password is refused |
| Auth.LoginTwiceInOneSecondCollides | src/services/auth.service.ts:52-53 | a second login in the same second signs the same refresh token and fails on the token key |
| Auth.RefreshMapsLibraryErrors | src/services/auth.service.ts:91-99 | the library's expiry error becomes "Refresh token has expired", any other verification error becomes "Invalid refresh token: " + its message; nothing changes |
| Auth.RefreshChecksTypeFirst | src/services/auth.service.ts:63-65 | a verified non-refresh token is refused with "Invalid token type", whatever the tables hold |
| Auth.RefreshChecksStoredRow | src/services/auth.service.ts:67-75 | an unknown token is "Refresh token not found"; a row with `expiresAt < now` is deleted and "Refresh token expired" is thrown; `expiresAt == now` is not expired |
| Auth.RefreshRotates | src/services/auth.service.ts:77-90 | a missing user is "User not found" and the row stays; otherwise the new refresh token is the refresh claims signed now, the rotation succeeds exactly when that string is not a key once the presented row is gone, the presented row is then replaced by exactly the new one and a fresh access token is returned; if the new save fails, the deletion stays |
| Auth.RefreshTwiceFails | src/services/auth.service.ts:82-85 | once rotated into a different token, presenting the old one again fails ("Refresh token not found" while it still verifies) |
| Auth.RotatedTokenIsNew | src/services/auth.service.ts:82-85 | the rotated token differs from a presented token issued in an earlier second |
| Auth.SameSecondRefreshReplays | src/services/auth.service.ts:82-85 | a refresh within the issuing second hands back the presented string and its row, and can be repeated |
| Auth.AuthService.Register | src/services/auth.service.ts:20-38 | the outcome and the new tables are those of `RegisterStep`; user-table invariants preserved |
| Auth.AuthService.Login | src/services/auth.service.ts:40-56 | the outcome and the new tables are those of `LoginStep` |
| Auth.AuthService.RefreshToken | src/services/auth.service.ts:58-100 | the outcome and the new tables are those of `RefreshStep`, check for check and write for write |
| Guards.Split | src/guards/jwt-auth.guard.ts:17 | the pieces are space-free, there is at least one, and joining them with single spaces gives the header back |
| Guards.JwtGuardDecision | src/guards/jwt-auth.guard.ts:13-29 | accepts only a header whose first piece is "Bearer", with the principal the validator gave for the second piece; every refusal is one of the guard's three messages |
| Guards.JwtGuardNeedsHeader | src/guards/jwt-auth.guard.ts:13-15 | a missing or empty header is "No authorization header" and the validator is not consulted |
| Guards.JwtGuardFormat | src/guards/jwt-auth.guard.ts:17-29 | unless the first piece is exactly "Bearer" and a non-empty second piece follows, the header is refused as badly formatted; otherwise the header is "Bearer " + token + (nothing or a space and more), the validator sees only the token, and its failure becomes "Invalid or expired token" |
| Guards.JwtGuardAcceptsBearer | src/guards/jwt-auth.guard.ts:17-29 | conversely, every header "Bearer " + t + rest with rest empty or starting with a space hands t to the validator |
| Guards.JwtGuardRejectsBareToken | src/guards/jwt-auth.guard.ts:19-21 | "valid-token" is refused as badly formatted |
| Guards.JwtGuardRejectsLowerCase | src/guards/jwt-auth.guard.ts:19-21 | "bearer valid-token" is refused: the scheme is case-sensitive |
| Guards.JwtGuardRejectsMissingToken | src/guards/jwt-auth.guard.ts:19-21 | "Bearer" and "Bearer " are refused as badly formatted |
| Guards.IssuedAccessTokenPassesJwtGuard | src/guards/jwt-auth.guard.ts:23-26 | a fresh access token behind "Bearer " passes the guard with the real validator and yields the user's id and username |
| Guards.JwtAuthGuardCanActivate | src/guards/jwt-auth.guard.ts:9-30 | on success returns true and sets `request.user` to the validator's result; on failure returns the guard's error and leaves `request.user` as it was |
| Guards.AuthGuardCanActivate | src/guards/auth.guard.ts:7-25 | a missing or empty header is "Unauthorized"; otherwise the second piece goes to the validator, its errors pass through unchanged, and whenever it returns, the guard returns true |
| Guards.AuthGuardIgnoresScheme | src/guards/auth.guard.ts:17-18 | any space-free first piece, however spelled, is ignored |
| Guards.AuthGuardRefusesEmptyToken | src/guards/auth.guard.ts:17-22 | a `Bearer ` header with nothing after the space hands the validator the empty string, which jsonwebtoken refuses, so the request is refused with "Invalid token" |
| Webhooks.SortDesc | src/repositories/webhook.repository.ts:19-23 | a permutation of the table (multiset equal, same length) |
| Webhooks.SortDescSorted | src/repositories/webhook.repository.ts:20 | the listing is ordered by `receivedAt`, non-increasing |
| Webhooks.SortDescUnique | src/repositories/webhook.repository.ts:20 | sorting keeps ids distinct |
| Webhooks.InsertSorted | src/repositories/webhook.repository.ts:20 | inserting into a descending list keeps it descending |
| Webhooks.Window | src/repositories/webhook.repository.ts:16-23 | `skip`/`take`: the length is what remains after `skip`, capped at `take`; element k is element skip + k |
| Webhooks.FindAll | src/repositories/webhook.repository.ts:15-24 | sorted; exactly `limit` records when the page lies inside the table, the remainder when it overhangs, none past the end; the whole sorted table when no limit is given; element k is element `skip + k` of the sorted table |
| Webhooks.SkipOf | src/repositories/webhook.repository.ts:16 | `(page - 1) * limit` when both are present and non-zero, 0 otherwise |
| Webhooks.PageStarts | src/repositories/webhook.repository.ts:16 | a later page starts at least `limit` records after an earlier one |
| Webhooks.PagesDisjoint | src/repositories/webhook.repository.ts:16-23 | two different page numbers ≥ 1 of one size share no record, in a table with unique ids |
| Webhooks.PageZeroIsPageOne | src/repositories/webhook.repository.ts:16 | page 0 is falsy in the skip computation, so it returns exactly page 1, and the two overlap when non-empty |
| Webhooks.FindBySource | src/repositories/webhook.repository.ts:32-37 | exactly the records with that source, each as often as stored, most recent first |
| Webhooks.FindByEvent | src/repositories/webhook.repository.ts:39-44 | exactly the records with that event, each as often as stored, most recent first |
| Webhooks.FindById | src/repositories/webhook.repository.ts:26-30 | nothing exactly when no record has that id, otherwise the first record with it |
| Webhooks.Deleted | src/repositories/webhook.repository.ts:54-58 | an absent id is an error (`RecordNotFound`); otherwise exactly the records with other ids remain |
| Webhooks.WebhookRepository.Create | src/repositories/webhook.repository.ts:9-13 | appends the record with the given fields, store-assigned id and `receivedAt`, and returns it; a taken id is refused and nothing changes |
| Webhooks.WebhookRepository.Delete | src/repositories/webhook.repository.ts:54-58 | removes the one record with that id (one fewer record), or fails on an absent id and changes nothing |
| Webhooks.WebhookRepository.Count | src/repositories/webhook.repository.ts:46-48 | the number of records |
| Webhooks.WebhookRepository.DeleteAll | src/repositories/webhook.repository.ts:50-52 | the table is empty |
| Storage.StorageRepository.Save | src/repositories/storage.ts:8-10 | appends at the end: one more entry, earlier entries unchanged |
| Storage.StorageRepository.GetAll | src/repositories/storage.ts:12-14 | the entries in insertion order |
| Storage.StorageRepository.GetById | src/repositories/storage.ts:16-18 | undefined exactly when no entry has that id, otherwise the first saved entry with it |
| Storage.FirstSavedWins | src/repositories/storage.ts:16-18 | entries saved after the first one with an id do not change what `getById` finds |
| Storage.StorageRepository.Count | src/repositories/storage.ts:20-22 | the number of entries |
| Storage.StorageRepository.Clear | src/repositories/storage.ts:24-26 | no entries remain and every lookup finds nothing |
| WebhookDto.ParseCreateWebhook | src/dto/webhook.dto.ts:6-29 | a body is accepted exactly when source and event are non-empty strings and payload is present, not null and not the empty string |
| WebhookDto.EmptyObjectPayloadAccepted | src/dto/webhook.dto.ts:27-28 | an empty object is an acceptable payload |
| WebhookDto.WebhookResponseFromModel | src/dto/webhook.dto.ts:51-58 | source, event, payload and receivedAt are copied unchanged |
| WebhookDto.WebhookResponseHidesId | src/dto/webhook.dto.ts:51-58 | the response does not depend on the webhook's id |
| WebhookDto.CreateWebhookResponseFromModel | src/dto/webhook.dto.ts:65-69 | carries the webhook's id |
| WebhookDto.ResponsesOf | src/dto/webhook.dto.ts:80 | same length and order as the input, element i the response of webhook i |
| WebhookDto.GetAllWebhooksResponseOf | src/dto/webhook.dto.ts:79-82 | `data` maps the webhooks element by element, and the pagination gets (page, limit, totalItems) as passed |
| WebhookService.WebhookService.CreateWebhook | src/services/webhook.service.ts:10-17 | creates a record from exactly the input's source, event and payload and returns the repository's result |
| WebhookService.WebhookService.GetAllWebhooks | src/services/webhook.service.ts:19-22 | `findAll` with no page and no limit: every record, most recent first |
| WebhookService.UnpagedIsFirstFullPage | src/services/webhook.service.ts:19-22 | the unpaged listing equals page 1 of any size covering the table |
| WebhookService.WebhookService.GetWebhookById | src/services/webhook.service.ts:24-27 | the repository's `findById`: nothing exactly when no record has that id, otherwise the first stored record with it |
| WebhookService.WebhookService.GetWebhookCount | src/services/webhook.service.ts:29-32 | the number of records |
| LogDecorator.RedactedFields | src/decorators/log.decorator.ts:60-69 | same keys; present sensitive keys hold "***REDACTED***"; every other value, nested objects included, is unchanged |
| LogDecorator.Sanitized | src/decorators/log.decorator.ts:59-73 | non-objects (null included) are unchanged, objects are redacted copies |
| LogDecorator.SanitizedArgs | src/decorators/log.decorator.ts:57-58 | one result per argument, in the same position |
| LogDecorator.SanitizeArg | src/decorators/log.decorator.ts:59-73 | the copy-then-overwrite loop over the five sensitive names yields the closed-form redaction |
| LogDecorator.SanitizeArgs | src/decorators/log.decorator.ts:57-75 | the map over the arguments yields `SanitizedArgs` |
| LogDecorator.SanitizeIdempotent | src/decorators/log.decorator.ts:63-69 | sanitizing twice equals sanitizing once |
| LogDecorator.SanitizeHidesSecrets | src/decorators/log.decorator.ts:63-69 | objects that differ only in sensitive values sanitize alike |
| LogDecorator.LogMethod | src/decorators/log.decorator.ts:19-46 | the wrapped call's result or error is handed back unchanged; the log is the entry line with the sanitized arguments, then a success line or an error line with the error's message |
| LogDecorator.LoggedArgsHideSecrets | src/decorators/log.decorator.ts:22-24 | a sensitive value of an argument appears on the entry line only as "***REDACTED***" |

## Left out

- jsonwebtoken and bcrypt internals. The model does not cover the signing and hashing algorithms, the encoding of `iat`/`exp`, or the parsing of duration strings such as "15m" and "7d". They are function parameters constrained by `LawfulJwt`/`LawfulHasher`, and the lifetimes are `Config.accessTtl`/`refreshTtl` in seconds.
- `LawfulHasher` idealises bcrypt. It assumes that a hash matches no other password and that a hash is never the password itself; `Auth.RegisterStoresHash` rests on that second law. bcrypt compares only the first 72 bytes, and collisions are not modelled.
- `LawfulJwt` assumes that `verify` refuses the empty string with "jwt must be provided". It says nothing else about strings that no `sign` produced.
- Prisma and PostgreSQL. Connections and the generic `create`/`findUnique` pass-throughs of the repositories are not modelled. The only store errors are the ones a unique key or a missing row causes. The message text of those errors stands in for Prisma's.
- When a user `create` breaks both unique keys, the model reports the id. It does not model which constraint the database would name first.
- The refresh-token table's `createdAt` column and foreign keys, the webhook table's column defaults, and the user table's `updatedAt` maintenance are not shown in the source. The model stamps `createdAt == updatedAt == now`.
- Asynchrony, the request timeout interceptor, rate limiting and concurrency are left out. Each call is atomic, and the check-then-create race in `register` is not modelled.
- Time does not advance within one call. Every `new Date()` of one request is the same `now`.
- `Date.setDate` works in local-calendar (DST-aware) arithmetic. The model adds exactly seven days of milliseconds instead.
- The controllers, the response envelopes in `src/dto/common.dto.ts`, and the arithmetic of `PaginationMetadata` are not part of this model. The last of these is imported from `./common.dto` (src/dto/webhook.dto.ts:4), but src/dto/common.dto.ts defines only `BaseResponse` and `ErrorResponse`, so the class is missing from the source as given.
- Configuration and environment reads are parameters: the secret, the lifetimes, and the `JWT_SECRET` default.
- The dependency-injection modules and bootstrap are not modelled.
- The `console.log` in `generateRefreshToken` is not modelled. It prints the secret.
- `LogClass` works by reflection and is not modelled. The logger's output format, `JSON.stringify`, the execution-time measurements and `error.stack` are also left out. The log is modelled as a list of entries.
- LogDecorator.Arg has no arrays, Dates or functions. In the source, `{...arg}` would turn them into plain objects; the model does not capture that.
- For `in`, the model considers only own keys, and prototype-chain keys are ignored. No sensitive name is an `Object.prototype` key.
- `this` binding and the `async` wrapping of `LogMethod` are not modelled.
- Webhooks.SkipOf: `page` and `limit` are natural numbers. Negative or fractional values, which would make Prisma reject or reverse the window, are not modelled.
- Webhooks.SortDesc: the order of records with equal `receivedAt` is up to the database. The model keeps insertion order, which is stable.
- Storage.StorageRepository.GetAll: the source returns the internal array itself, so callers share it. The model returns a copy of the sequence.
- The DTO validity rules are not applied in front of the services, because no validation pipe is installed. Only the `@IsString`/`@IsNotEmpty` rules are modelled. Other class-validator options and Swagger metadata are not.
- The service operations take their fields as strings. A body with a missing or non-string field reaches bcrypt, Prisma or jsonwebtoken unvalidated, and they throw; those exceptions are not modelled.
- Numbers in JSON bodies (`Json.JNum`) and in logged arguments (`LogDecorator.Arg`'s `Num`) are integers. Fractions, NaN and infinities are not modelled.
- Tests that contradict the code are not modelled: a mocked `validateToken` in the refresh path, reading `result.data` from a login, refresh tokens accepted by `validateToken`, and paging forwarded by `getAllWebhooks`.
