# Authentication core of a CodeIgniter + React multi-tenant starter, in Dafny

This project models the authentication core of the application:

- the JWT configuration, with its key ring for rotating secrets;
- the authentication service, which issues, signs, decodes and validates tokens, and handles login and password reset;
- the request object that carries the authenticated user;
- the three request filters: JWT, admin-only and Accept header;
- the authentication controller's mapping of service results and exceptions to HTTP responses;
- the user model's write hooks and the user entity's public array;
- the browser-side auth store, which mirrors tokens into `localStorage`.

Foreign calls are parameters:

- The JWT library is a `Codec` with `encode` and a per-key `decode` outcome.
- The user store is `Users`: password check, lookup by e-mail, lookup by id.
- `time()` and `random_bytes` are a `Draws` value.
- `getenv` is an `Env` value and `json_decode` a parse function.
- `password_hash` and `password_verify` are functions, and so is the e-mail validator.

A PHP call's result is an `Outcome`: it returns a value or throws an exception. The exception classes keep their PHP hierarchy. Expired, bad signature and not yet valid extend UnexpectedValue, which extends Runtime. This hierarchy is expressed by the predicates `IsUnexpectedValue` and `IsRuntime`.

The modules are:

- `Text`: lower-casing, substring search, decimals, split and join.
- `Php`: values, truthiness, `isset`/`empty`, casts and exceptions.
- `JwtConfig`: the `Jwt` class.
- `AuthService`
- `Http`: the `Request` class and responses.
- `Filters`
- `AuthController`
- `Routes`: the filter chain in front of the protected auth routes.
- `UserModel`
- `AuthStore`: the `Store` class.

The JWT configuration, the request, the JWT filter and the client store change state in the source. So the config and the store are classes, and the request is a class whose `authenticatedUser` field is reassigned. The key-ring search `decodeWithAnyKey` is a loop method, proved equal to a recursive specification. Everything else is functions over values.

Behaviour of the source that the proofs make explicit:

- Under an HMAC codec only the first key of the ring with non-empty key material can ever verify a token (`AuthService.OnlyFirstUsableKeyVerifies`). Keys whose material is "" or "0" are refused by the library's `Key` constructor with InvalidArgument, which the loop skips (`AuthService.UsableKeyDecides`). But decoding with a wrong non-empty secret raises SignatureInvalid, and `decodeWithAnyKey` rethrows that at once instead of trying the next key. A token signed under any later kid is therefore always refused. This includes a `JWT_CURRENT_KID` that names a later kid of the ring.
- `JWT_CURRENT_KID` is not checked against the ring (`JwtConfig.CurrentKidMayBeUnknown`). Tokens are then signed with the primary secret but carry the unknown kid.
- The refresh-token, me and logout routes sit behind the JWT filter and then the admin-only filter. So refreshing requires a valid *access* token of an Admin in the Authorization header (`Routes.RefreshRoute`, `Routes.RefreshNeedsAdminAccessToken`).
- In `refreshToken`, the catch arms for expired, bad-signature and not-yet-valid exceptions are never reached, because `validateToken` returns null for every exception (`AuthController.RefreshFailuresAreUniform`).
- A reset token `"0"` passes `required|string` but is falsy, so the service treats it as missing. The answer is 400 from `resetPassword` and 500 from `verifyResetToken` (`AuthController.ZeroTokenPassesValidation`).
- The Accept check is a substring test. `application/jsonp` passes, and the media range `application/*` is refused on a POST (`Filters.AcceptIsSubstringTest`).

## Model

| member | source | states |
|---|---|---|
| JwtConfig.Jwt.Defaults | src/backend/Config/Jwt.php:9-20 | the field initialisers: HS256, ttl 3600, allow-list [HS256], access 900 s, refresh 1209600 s, leeway 45, issuer, audience, no kid, empty ring |
| JwtConfig.Jwt.ReadEnvironment | src/backend/Config/Jwt.php:22-48 | throws RuntimeException, changing nothing, exactly when encryption.key is unset or ""; otherwise sets the key, and ring and current kid as `KeyRing` gives them |
| JwtConfig.Jwt.Load | src/backend/Config/Jwt.php:22-48 | a constructed config has a non-empty ring and a current kid, with the defaults kept |
| JwtConfig.KeyRing | src/backend/Config/Jwt.php:33-47 | the ring is never empty and a kid is always chosen; a non-empty JWT_KEYS array becomes the ring |
| JwtConfig.CurrentKidChoice | src/backend/Config/Jwt.php:39 | with a rotation set, the kid is JWT_CURRENT_KID when truthy, else the first kid of the set |
| JwtConfig.DefaultRing | src/backend/Config/Jwt.php:44-47 | without a usable rotation set, the ring is exactly {"default" => primary secret} |
| JwtConfig.CurrentKidMayBeUnknown | src/backend/Config/Jwt.php:39 | an override kid absent from the ring is accepted as the current kid |
| JwtConfig.Lookup | src/backend/Services/AuthService.php:117 | `$keys[$kid] ?? …`: a found secret is stored under that kid; None means no entry has the kid |
| AuthService.Hex | src/backend/Services/AuthService.php:106 | bin2hex: two lower-case hex digits per byte |
| AuthService.SignedClaims | src/backend/Services/AuthService.php:100-114 | the signed payload has exactly jti, iat, nbf, exp, iss, aud, sub, uid, purpose; jti is 32 hex digits, exp = iat + ttl, sub is the id as a string, and the custom claims override the base ones |
| AuthService.SigningKeyChoice | src/backend/Services/AuthService.php:116-117 | the kid is the current kid or "default"; the secret is the ring's entry for it, else the primary key |
| AuthService.IssuedClaims | src/backend/Services/AuthService.php:77-114 | issueTokens signs an access and a refresh token with purposes "access"/"refresh", nbf = now − 1, iat the signing clock reading, exp = iat + accessTtl/refreshTtl, both with the current kid and its secret |
| AuthService.IssuedNotBeforePrecedesIssue | src/backend/Services/AuthService.php:83-87 | when the signing clock reading is not earlier than issueTokens' own, nbf lies before iat in both tokens |
| AuthService.ResetTokenClaims | src/backend/Services/AuthService.php:137-149 | a reset token is {iat, exp = iat + 900, uid, purpose password_reset}, signed with the primary key and no kid, iss, aud or jti |
| AuthService.DecodeWithAnyKey | src/backend/Services/AuthService.php:201-230 | the foreach over the ring computes `DecodeAnyKey`: disallowed algorithm first, then the first key that decodes or fails critically decides, else the last failure is rethrown |
| AuthService.FirstDecisiveKeyDecides | src/backend/Services/AuthService.php:212-223 | the first key whose decode returns or throws Expired/SignatureInvalid/BeforeValid decides the result |
| AuthService.NoDecisiveKeyRethrowsLast | src/backend/Services/AuthService.php:219-228 | when every key fails non-critically, the last key's exception is rethrown |
| AuthService.LaterKeysNeverTried | src/backend/Services/AuthService.php:214-218 | keys after the deciding one never influence the result |
| AuthService.UsableKeyDecides | src/backend/Services/AuthService.php:212-223 | under an HMAC codec, keys with empty material ("" or "0") fail with InvalidArgument and are skipped, and the first key with usable material decides: the payload for the signing secret, SignatureInvalid for any other |
| AuthService.OnlyFirstUsableKeyVerifies | src/backend/Services/AuthService.php:212-218 | under an HMAC codec, a token signed with any secret other than the ring's first usable one is refused with SignatureInvalid |
| AuthService.ValidateToken | src/backend/Services/AuthService.php:158-188 | a user is returned only for a truthy token that decodes, passes the iss/aud/purpose/uid checks, and whose uid the store resolves |
| AuthService.ValidateTokenAccepts | src/backend/Services/AuthService.php:158-183 | conversely, a decoded token passing the checks yields the store's user for its uid |
| AuthService.WrongPurposeRejected | src/backend/Services/AuthService.php:174-178 | a token whose purpose is not the required one is refused |
| AuthService.SignedTokenValidates | src/backend/Services/AuthService.php:158-188 | a token signed with the ring's first usable key, naming a stored user, validates for its own purpose and for no other |
| AuthService.IssuedTokensRoundTrip | src/backend/Services/AuthService.php:77-188 | issue then validate: each token of a pair validates to its user for its own purpose and is refused for the other |
| AuthService.Attempt | src/backend/Services/AuthService.php:49-69 | succeeds iff the password check passes and the e-mail finds a user; then fresh tokens, "Bearer", accessTtl and the user |
| AuthService.HandleForgotPasswordRequest | src/backend/Services/AuthService.php:266-279 | always true; a reset mail with a reset token for the user is attempted iff the e-mail names a user |
| AuthService.CheckResetToken | src/backend/Services/AuthService.php:294-340 | by cause, in order: falsy token → InvalidArgument; a decode exception is passed through unchanged; purpose not password_reset → UnexpectedValue; no uid → UnexpectedValue; uid names no user → Runtime; otherwise the store's user for the uid |
| AuthService.ValidatePasswordResetToken | src/backend/Services/AuthService.php:294-340 | silent mode never throws; a returned user is the one the strict check finds |
| AuthService.ResetModesAgree | src/backend/Services/AuthService.php:294-340 | silent mode returns null exactly when strict mode throws, and strict mode throws the reason found |
| AuthService.ResetTokenRoundTrip | src/backend/Services/AuthService.php:137-149 | a reset token issued for a stored user verifies back to that user; with the primary secret "0" it is refused with InvalidArgument |
| AuthService.ResetPassword | src/backend/Services/AuthService.php:350-365 | exceptions of the strict check propagate; otherwise the result is updatePassword's for the user's id, or false without an id |
| Http.Request.constructor | src/backend/HTTP/Request.php:19 | a fresh request, whose header names are lower-case as the framework normalises them, has no authenticated user |
| Http.Request.SetUser | src/backend/HTTP/Request.php:31-35 | stores the user and returns the same request |
| Http.Request.GetUser | src/backend/HTTP/Request.php:40-43 | returns the stored user and changes nothing |
| Http.SetThenGet | src/backend/HTTP/Request.php:31-43 | a set user is read back, twice, unchanged |
| Http.Request.HeaderLine | src/backend/Filters/JwtAuthFilter.php:25 | a header line is looked up case-insensitively and is "" when absent |
| Filters.MatchAt | src/backend/Filters/JwtAuthFilter.php:31-33 | the pattern matches at an index only where "Bearer" (any case) is followed by white space |
| Filters.FirstMatch | src/backend/Filters/JwtAuthFilter.php:31 | preg_match's leftmost match: a result is the match at some index, and None means no index matches |
| Filters.FirstMatchFinds | src/backend/Filters/JwtAuthFilter.php:31 | the first matching index gives the group |
| Filters.BearerTokenAfterScheme | src/backend/Filters/JwtAuthFilter.php:31-33 | for a one-line header, the token is everything after the white space following the first "Bearer" |
| Filters.NoSchemeWholeHeader | src/backend/Filters/JwtAuthFilter.php:31-33 | without "Bearer" followed by white space, the whole header is the token |
| Filters.JwtAuthBefore | src/backend/Filters/JwtAuthFilter.php:17-46 | OPTIONS passes untouched; an empty header or a token that does not validate as an access token gives 401 with the request untouched; otherwise the user is attached and the request passed on |
| Filters.NonAccessTokenRefused | src/backend/Filters/JwtAuthFilter.php:35-40 | refresh and reset tokens never authenticate a request |
| Filters.AdminOnlyBefore | src/backend/Filters/AdminOnlyFilter.php:17-27 | passes, unchanged, iff the user's role, cast to a list, holds exactly "Admin"; otherwise 401 |
| Filters.AdminGateExamples | src/backend/Filters/AdminOnlyFilter.php:21 | a single "Admin" string and a list holding it pass; "admin", "User,Admin", a null role and no user are refused |
| Filters.ApiAcceptBefore | src/backend/Filters/ApiAcceptFilter.php:18-39 | 415 iff the method has a body and the lower-cased Accept is non-empty and contains neither application/json nor the any-type range |
| Filters.AcceptIsSubstringTest | src/backend/Filters/ApiAcceptFilter.php:29 | "application/jsonp" passes and "application/*" is refused on a POST |
| Filters.ApiAcceptAfter | src/backend/Filters/ApiAcceptFilter.php:49-52 | the response is returned unchanged |
| AuthController.FirstFailure | src/backend/Controllers/Api/AuthController.php:130-139 | a field passes iff all its rules pass; a reported rule is one of them and fails |
| AuthController.Validate | src/backend/Controllers/Api/AuthController.php:137-139 | the error list is empty iff every field passes, and names only declared fields |
| AuthController.StringArgument | src/backend/Controllers/Api/AuthController.php:140 | scalars convert for a string parameter; null and arrays do not |
| AuthController.Login | src/backend/Controllers/Api/AuthController.php:127-151 | 400 with the errors; 200 iff the credentials check and the lookup succeed, with the body attempt builds: the encoded access and refresh requests for the user, "Bearer", accessTtl and the user; otherwise 401 "Invalid credentials" |
| AuthController.LoginEmailIsString | src/backend/Controllers/Api/AuthController.php:130-133 | a body passing the login rules has a valid string e-mail and a password |
| AuthController.LoginHidesWhichCheckFailed | src/backend/Controllers/Api/AuthController.php:142-144 | unknown e-mail and wrong password give the identical 401 |
| AuthController.ForgotPassword | src/backend/Controllers/Api/AuthController.php:197-221 | 400 with the errors, else the one generic message; a mail goes out iff the e-mail names a user, and it goes to the user `getByEmail` returns, with a reset token for that user |
| AuthController.ForgotPasswordHidesAccounts | src/backend/Controllers/Api/AuthController.php:210-215 | the response does not depend on the user store |
| AuthController.VerifyResetToken | src/backend/Controllers/Api/AuthController.php:271-290 | 200 iff the strict check succeeds; every failure gives the same 500 |
| AuthController.TokenIsString | src/backend/Controllers/Api/AuthController.php:276 | a body passing `required|string` has a string token |
| AuthController.ZeroTokenPassesValidation | src/backend/Controllers/Api/AuthController.php:271-381 | the token "0" passes the rules of both actions, yet the service rejects it as not provided: verifyResetToken answers its uniform 500 and resetPassword 400 {token: "Token not provided."} |
| AuthController.ZeroTokenResetBody | src/backend/Controllers/Api/AuthController.php:341-345 | a body with token "0" and a matching eight-character password passes the reset rules |
| AuthController.ResetResponse | src/backend/Controllers/Api/AuthController.php:353-380 | 200 iff true; 400 {token: …} iff InvalidArgument; 401 iff an UnexpectedValue-family exception, with a distinct message for expired, bad signature, not yet valid and other content; 500 for false, RuntimeException (its message) and anything else (a generic message) |
| AuthController.ResetPassword | src/backend/Controllers/Api/AuthController.php:339-381 | 400 with the errors before the service is called; otherwise the service's outcome through the catch chain |
| AuthController.ResetBodyShape | src/backend/Controllers/Api/AuthController.php:341-345 | a body passing the reset rules has a string token and a string or integer password |
| AuthController.ResetPasswordAnswers | src/backend/Controllers/Api/AuthController.php:353-380 | by cause: 200 iff valid token with id and successful update; 400 iff InvalidArgument; 401 iff an UnexpectedValue-family exception; user not found → 500 with its message |
| AuthController.RefreshToken | src/backend/Controllers/Api/AuthController.php:450-482 | 400 unless refresh_token is a string; 401 unless it validates as a refresh token; else a new pair for its user, "Bearer", accessTtl |
| AuthController.RefreshFailuresAreUniform | src/backend/Controllers/Api/AuthController.php:459-478 | the answer is 200, 400 or 401, and every 401 is the same message |
| AuthController.LoginThenRefresh | src/backend/Controllers/Api/AuthController.php:450-472 | the refresh token in login's answer buys a new pair for the same user; the access token in login's answer is refused there |
| AuthController.Logout | src/backend/Controllers/Api/AuthController.php:383-386 | always 200 with the fixed message |
| AuthController.Me | src/backend/Controllers/Api/AuthController.php:67-70 | 200 with the user attached to the request; without one, respond(null) gives 404 with an empty body |
| Routes.Guard | src/backend/Config/Routes.php:32 | past the jwt and adminOnly filters iff the header's access token names an Admin; otherwise 401 |
| Routes.RefreshRoute | src/backend/Config/Routes.php:32-36 | refresh-token runs only for an Admin's valid access token, else 401 |
| Routes.MeRoute | src/backend/Config/Routes.php:32-34 | me answers the attached Admin user, else 401 |
| Routes.LogoutRoute | src/backend/Config/Routes.php:32-35 | logout answers 200 only behind both filters, else 401 |
| Routes.RefreshNeedsAdminAccessToken | src/backend/Config/Routes.php:32-36 | a refresh or reset token in the header can never pass the guard |
| UserModel.HashPassword | src/backend/Models/UserModel.php:67-77 | the password is kept iff it is not empty, and then replaced by its hash |
| UserModel.HashPasswordKeepsOtherFields | src/backend/Models/UserModel.php:67-77 | no other field changes |
| UserModel.FormatRole | src/backend/Models/UserModel.php:79-85 | a non-empty role list becomes its comma join; the keys and every other field are kept; anything else is unchanged |
| UserModel.FormatRoleIdempotent | src/backend/Models/UserModel.php:79-85 | a second pass changes nothing |
| UserModel.BeforeWrite | src/backend/Models/UserModel.php:15-16 | hashPassword then formatRole: only password and role can change, and password is present iff it was non-empty |
| UserModel.CsvGet | src/backend/Entities/User.php:10 | a stored role string reads back as a non-empty list |
| UserModel.RoleRoundTrip | src/backend/Entities/User.php:10 | a role list without commas, written through the hooks, reads back as the same list |
| UserModel.AdminRoleSurvivesStorage | src/backend/Entities/User.php:10 | a user saved with "Admin" among its roles passes the admin gate once read back |
| UserModel.ToPublicArray | src/backend/Entities/User.php:12-27 | exactly the eleven public keys; id, org_id, tenant_id cast to int, email_verified to bool, role through the csv cast, the other fields as read |
| UserModel.PublicArrayHidesSecrets | src/backend/Entities/User.php:12-27 | the public array never holds password, nonce or deleted_at |
| UserModel.StoredPasswordVerifies | src/backend/Entities/User.php:29-32 | a non-empty password written through the hooks verifies afterwards; an empty one leaves the stored hash in place |
| AuthStore.Store.constructor | src/frontend/store/useAuthStore.ts:22-27 | no user, token fields read from storage ('' and 0 by default), storage mirrored |
| AuthStore.Store.SetAccessToken | src/frontend/store/useAuthStore.ts:28-31 | sets the field and the storage key, nothing else, keeping storage mirrored |
| AuthStore.Store.SetRefreshToken | src/frontend/store/useAuthStore.ts:32-35 | sets the field and the storage key, nothing else, keeping storage mirrored |
| AuthStore.Store.SetTokenType | src/frontend/store/useAuthStore.ts:36-39 | sets the field and the storage key, nothing else, keeping storage mirrored |
| AuthStore.Store.SetExpiresIn | src/frontend/store/useAuthStore.ts:40-43 | sets the field and stores its string form, which reads back as the same number |
| AuthStore.Store.SetUser | src/frontend/store/useAuthStore.ts:44 | sets only the user; storage untouched |
| AuthStore.Store.Logout | src/frontend/store/useAuthStore.ts:45-54 | all five fields undefined, storage empty, logged out now and after a reload |
| AuthStore.NumberRoundTrip | src/frontend/store/useAuthStore.ts:27 | Number(String(x)) == x |
| AuthStore.ReloadKeepsLogin | src/frontend/store/useAuthStore.ts:22-63 | while storage mirrors the fields, a reload agrees on whether the user is logged in |
| AuthStore.NormalizeKeepsLoggedIn | src/frontend/store/useAuthStore.ts:55-63 | undefined and default ('' or 0) fields are equally logged out |
| AuthStore.SignIn | src/frontend/store/useAuthStore.ts:28-63 | after the four setters with truthy values, the store is logged in, also after a reload |

## Left out

- The JWT library's internals are not modelled: HMAC, base64url, JSON, header handling, and the exp/nbf/iat checks with the 45-second leeway. Decoding is an oracle per (token, secret, algorithm). The leeway assignment in the service constructor only configures that library.
- `time()`, `random_bytes`, `getenv`, `json_decode`, `password_hash`, `password_verify` and the `valid_email` rule are parameters.
- The e-mail itself (`sendPasswordResetEmail`) and all logging are I/O. Only "a mail is attempted iff the user exists" is modelled, as `ResetMail`.
- The user store (service, repository, ORM) is an oracle. The store's behaviour beyond the two hooks is not part of this model, and neither is the one-element-list wrapping in the repository's update.
- Errors (not Exceptions) are not modelled in detail. One example: a TypeError when a token's uid cannot become an int for the lookup. The lookup oracle absorbs the uid conversion.
- When a non-string body value reaches a string parameter of the service, the model answers `Unhandled` (a 500 from the framework's handler).
- Exceptions thrown by the collaborators (database errors, e-mail transport) are not modelled. In the framework, database errors are Errors and are not caught by the actions.
- AuthController.ResetResponse: the 400 and plain-RuntimeException answers echo the exception's message. The model uses the service's own messages ("Token not provided.", "User not found for token."). An InvalidArgumentException raised inside the JWT library would carry the library's message instead.
- AuthController.Login: the source validates the request through `validate()`, which reads the request's input rather than the decoded body handed to `validateData()` in the other actions; the model validates the decoded body in all four actions.
- AuthController.Validate: error messages are the framework's language strings. The model reports the name of the first failing rule per field instead.
- The strict rule semantics of the framework's validator are taken as stated in `AuthController.Passes`. The validator library is not part of this model.
- The framework's own overrides of config values from the environment (`BaseConfig`) are not modelled.
- JWT_KEYS entries with integer kids or non-string secrets are not modelled. Duplicate JSON keys are left to the parse oracle.
- UserModel.ToPublicArray: `created_at` and `updated_at` are passed on as stored. The entity's `$dates` turns them into Time objects when read, and the model has no date value.
- The order of payload keys is not modelled; claims are a map.
- Failures of `encode` are not modelled.
- The request body is taken as an already decoded JSON object. An absent, invalid or non-object body is not modelled.
- AuthStore.ToNumber: only an optional minus sign followed by decimal digits is read as a number; any other string is NaN. JavaScript also accepts surrounding white space, '+', fractions and exponents, and floating-point `expires_in` values are not modelled.
- The store's `user` is a row of PHP-like values rather than the client schema type.
- The API client's 401 handler, the token-refresh timer and the UI are outside the core. So are the other controllers, the migrations and the generators.
- `Enums/Role.php` is the `Filters.Role` datatype. Only `Admin` is consulted.
- The routing of OPTIONS requests to their own handler, ahead of these groups, is not modelled. The route methods state their results for the other methods.
