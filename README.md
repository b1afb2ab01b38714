# contact-app-api: authentication and ownership, in Dafny

This project models the authentication and ownership logic of the contact-app-api
REST service and proves properties of it. The service lets users register, activate
their account, log in, and keep an address book of contacts that only they can see.

The model covers five parts:

- **Token service** (`Config`, `Jwt`, `Token`; from `pkg/utils/token.go`):
  - the process-wide configuration slot;
  - reading the bearer credential out of an `Authorization` header (section 2.1 of RFC 6750);
  - issuing, verifying and reading 24-hour JSON Web Tokens (RFC 7519) that carry `user_id` and `exp`.

  Tokens are real strings in the three-segment compact shape. HMAC-SHA256 is replaced by an
  injective stand-in `Jwt.Mac`. The clock is a parameter `now`, in seconds since the epoch.
- **JWT middleware** (`Middleware`; from `internal/middleware/jwt.go`): the decision to forward a
  request or answer 401. Its reading of the header differs from `ExtractBearerToken`'s, and the
  model proves where the two disagree.
- **Contact handlers** (`Contacts`; from `internal/handlers/contacts.go`): list with pagination,
  create, read, update and delete. Every handler is scoped to the caller that the bearer token
  names. Each handler is a method over the store `Store.Db`. It returns a status code with a
  payload and updates the tables in place.
- **User lifecycle** (`Users`, `Auth`; from `internal/handlers/users.go` and
  `internal/handlers/auth.go`): registration, one-way activation, and login through an ordered
  chain of checks. bcrypt is replaced by the symbolic `Models.Hash` / `Models.Matches`.
- **Store** (`Store`): the two GORM tables as sequences, with auto-increment ids and the unique
  email column. Its invariant `Valid` (unique keys and unique emails) is kept by every handler.

`Scenarios` chains requests against a fresh store and proves their outcomes. They show how the
endpoints fit together, and they exhibit the two findings below.

Inputs that the Go code takes from its environment become parameters:

- the installed configuration (`cfg`, what `getConfig` returns);
- the clock (`now`);
- the bcrypt salt (`salt`);
- the request parts as the libraries parse them:
  - the header string;
  - the path id, `None` when `strconv.ParseUint` fails;
  - the `page` / `page_size` values, whatever `strconv.Atoi` returns (its error is discarded);
  - the decoded JSON body, `DecodeFailed(message)` when decoding fails.

## Model

| member | source | states |
|---|---|---|
| Config.ConfigHolder.constructor | pkg/utils/token.go:15-18 | No configuration is installed before SetConfig runs. |
| Config.ConfigHolder.SetConfig | pkg/utils/token.go:20-32 | After SetConfig(c), getConfig returns exactly c, including nil. |
| Token.Secret | pkg/utils/token.go:49-56 | The first check of every token function: an unset configuration fails with "configuration not set", then an empty secret fails with "JWTSecret is not set in configuration"; otherwise the secret is returned, exactly when the configuration is usable. |
| Text.SplitFirst | pkg/utils/token.go:39 | strings.SplitN(s, " ", 2) gives two pieces exactly when the separator occurs. The first piece holds no separator, and first + separator + second rebuilds s. |
| Token.ExtractBearerToken | pkg/utils/token.go:34-45 | "" fails with "Authorization header missing". Every other failure is the format error, and a header without a space always fails. A success returns the remainder of a header `scheme + " " + credential` whose space-free scheme lowers to "bearer". |
| Token.ExtractComposed | pkg/utils/token.go:39-44 | For every Bearer scheme in any letter case and every credential, including "" and credentials with spaces, the credential comes back unchanged. |
| Token.ExtractOtherScheme | pkg/utils/token.go:39-41 | Any other scheme word is refused with the format error. |
| Jwt.ClaimRoundTrip | pkg/utils/token.go:58-61 | A claim written into a token reads back as the same claim. |
| Jwt.Mac | pkg/utils/token.go:63-65 | A signature never contains a dot or a space, so the token text stays three segments and one header word. |
| Jwt.MacBindsSecret | pkg/utils/token.go:63-65 | Equal signatures over the same claims imply equal secrets: the idealised MAC property, injective in the key, that the verifier relies on. |
| Jwt.SplitThree | pkg/utils/token.go:63-65 | Three dot-free segments joined by dots split back into exactly those three. |
| Jwt.DecodeEncode | pkg/utils/token.go:63-65 | Decoding the serialisation of a well-formed token gives the token back. The text is non-empty and space-free. |
| Jwt.Parse | pkg/utils/token.go:90-92 | Parse succeeds exactly when the text decodes, the `exp` claim has not passed and the signature matches the claims under the secret. It then returns the decoded token. Each failure is characterised: malformed exactly when the text does not decode; signature invalid exactly when it decodes with a wrong signature, whatever its `exp`; expired exactly when the signature is right and `exp` has passed. |
| Jwt.ParseSigned | pkg/utils/token.go:90-99 | A token signed with a secret parses under that secret while its `exp` lies ahead. |
| Jwt.ParseOtherSecret | pkg/utils/token.go:90-99 | The same token is rejected as "signature is invalid" under any other secret, also after it has expired. |
| Jwt.ParseAfterExpiry | pkg/utils/token.go:90-99 | Once `now` is past its `exp`, the token is rejected as expired under the secret it was signed with. |
| Jwt.ParseBindsSegments | pkg/utils/token.go:90-99 | A token that parses has three segments and carries the MAC of exactly its first two segments as sent, so any edit to them breaks the signature. |
| Jwt.RespelledClaimRejected | pkg/utils/token.go:90-99 | Re-spelling a claim segment as another numeral of the same number ("07" for 7) is rejected as "signature is invalid". |
| Token.GenerateToken | pkg/utils/token.go:47-72 | Configuration errors come first. A token is issued exactly when the configuration is usable. It decodes to `user_id` = the id and `exp` = now + 86400, signed with the configured secret. It is non-empty and space-free. |
| Token.VerifyToken | pkg/utils/token.go:74-100 | The checks run in order: configuration, then the empty string ("empty token string"), then the wrapped parse error ("error parsing token: …"). It succeeds, with true, exactly when the configuration is usable, the token is non-empty and it parses. |
| Token.GetUserIDFromToken | pkg/utils/token.go:102-130 | Configuration errors come first, then the raw parse error. The call succeeds exactly when the token parses and its `user_id` is a number, and returns that number. It fails with "user ID not found in token" exactly when the token parses without a numeric `user_id`. |
| Token.EmptyTokenRejected | pkg/utils/token.go:86-88 | With a usable configuration, VerifyToken("") fails with "empty token string". GetUserIDFromToken("") fails with the library's malformed-token error. |
| Token.IssuedTokenAccepted | pkg/utils/token.go:58-126 | Round trip: before its expiry, an issued token verifies with true and gives back the id it was issued for. |
| Token.IssuedTokenExpires | pkg/utils/token.go:58-119 | After its expiry, both VerifyToken and GetUserIDFromToken reject the same token as expired. |
| Token.IssuedTokenForeignSecret | pkg/utils/token.go:63-119 | A service configured with a different secret rejects the token as having an invalid signature, at any time. |
| Token.MissingUserIdClaim | pkg/utils/token.go:121-125 | A correctly signed, live token without a numeric `user_id` passes VerifyToken but fails GetUserIDFromToken with "user ID not found in token". |
| Text.Split | internal/middleware/jwt.go:19 | strings.Split gives one more piece than there are separators, and no piece contains one. |
| Text.JoinSplit | internal/middleware/jwt.go:19 | Joining the pieces with the separator gives the header back, so splitting loses nothing. |
| Text.SplitOneSeparator | internal/middleware/jwt.go:19-25 | With exactly one space, Split and SplitN(…, 2) give the same two pieces. |
| Middleware.JWTAuth | internal/middleware/jwt.go:11-35 | Every refusal is a 401, and an empty header gets "Authorization header is required". A non-empty header without exactly one space gets "Invalid token format", and one whose second piece fails VerifyToken gets "Invalid or expired token". The request is forwarded unchanged exactly when the header has exactly one space and VerifyToken of the text after it returns true. |
| Middleware.SchemeNeverChecked | internal/middleware/jwt.go:19-33 | Any scheme word, even an empty one, in front of a valid token is forwarded. |
| Middleware.ExtraSpacesRefused | internal/middleware/jwt.go:19-23 | A header with two or more spaces always gets 401 "Invalid token format". |
| Middleware.ReadersDisagreeOnSpaces | internal/middleware/jwt.go:19-23 | Take a Bearer scheme and a credential that contains a space. ExtractBearerToken returns the credential, but JWTAuth refuses the header. |
| Middleware.ReadersDisagreeOnScheme | internal/middleware/jwt.go:19-33 | Take a non-Bearer scheme in front of a valid token. JWTAuth forwards the request, but ExtractBearerToken refuses it. |
| Middleware.ReadersAgreeWhenBothAccept | internal/middleware/jwt.go:19-33 | When both readers accept a header, the credential ExtractBearerToken returns is exactly the second of the two pieces JWTAuth splits the header into, and it verifies. |
| Middleware.DisagreementExamples | internal/middleware/jwt.go:19-23 | "Bearer  x" and "Bearer a b" are accepted by ExtractBearerToken (giving " x" and "a b") and refused by JWTAuth. |
| Models.Hash | internal/handlers/users.go:21-27 | The symbolic hash matches the password it was made from and no other (bcrypt's own collisions are listed under Left out). |
| Models.DecodeUser | internal/models/user.go:3-8 | Decoding a registration body sets id, email and active from the body and always leaves the password empty. |
| Models.PasswordNeverDecoded | internal/models/user.go:6 | Two bodies that differ only in their password decode to the same user. |
| Store.FindUser | internal/handlers/users.go:70-79 | Lookup by primary key finds a row with that id exactly when one exists. |
| Store.FindUserByEmail | internal/handlers/auth.go:29-39 | Lookup by email finds a row with that email exactly when one exists. |
| Store.FindOwned | internal/handlers/contacts.go:117-126 | Lookup by id AND owner finds a row exactly when the owner holds a contact with that id. |
| Store.OwnedBy | internal/handlers/contacts.go:53-59 | The owner filter keeps exactly the rows of that owner. |
| Store.OwnedByCounts | internal/handlers/contacts.go:53-59 | The owner filter keeps each of the owner's rows as many times as it is stored and no other row, so the listing's total counts exactly the owner's rows. |
| Store.WithoutOwned | internal/handlers/contacts.go:191 | The delete keeps exactly the rows other than the owner's row with that id. The table keeps its length exactly when the owner holds no such row, and then it is unchanged. |
| Store.WithoutOwnedKeepsIdsUnique | internal/handlers/contacts.go:191 | Deleting keeps primary keys unique. |
| Store.WithoutOwnedRemovesAtMostOne | internal/handlers/contacts.go:191-200 | With unique keys, the delete removes at most one row. |
| Store.Skip | internal/handlers/contacts.go:59 | The effective offset lies within the table. |
| Store.Window | internal/handlers/contacts.go:51-59 | `.Offset(o).Limit(n)` returns a contiguous run of the rows starting at the clamped offset. It holds at most n rows when n ≥ 0, exactly n when enough rows remain, and everything to the end otherwise. |
| Store.PagesAreConsecutive | internal/handlers/contacts.go:51-59 | Over one fixed row sequence, the window for page p followed by the window for page p+1 is the double-size window from page p's start. |
| Store.Db.constructor | internal/models/contact.go:4 | Empty tables, with both id sequences starting at 1. |
| Store.Db.InsertUser | internal/handlers/users.go:29-33 | `db.Create(&user)`: a zero id takes the next sequence value, which is consumed even on failure. The insert fails exactly when the id or the email is taken, and otherwise appends the row. The invariant is kept. |
| Store.Db.InsertContact | internal/handlers/contacts.go:93-97 | `db.Create(&contact)`: the same, with the id as the only unique column. |
| Store.Db.SaveUser | internal/handlers/users.go:87-92 | `db.Save(&user)` replaces the row with that key. The invariant is kept. |
| Store.Db.SaveContact | internal/handlers/contacts.go:167-171 | `db.Save(&contact)` on a key a row holds replaces that row and keeps every other. The invariant is kept. |
| Store.Db.DeleteOwned | internal/handlers/contacts.go:191-200 | The delete's new table and its RowsAffected: 0 exactly when the owner holds no such row, never more than 1. |
| Contacts.GetUserIDFromRequest | internal/handlers/contacts.go:15-28 | ExtractBearerToken runs first and its error wins. Once it succeeds, the answer is exactly GetUserIDFromToken's result for the extracted credential: its configuration or parse error, "user ID not found in token", or the id. |
| Contacts.IssuedTokenIdentifiesCaller | internal/handlers/contacts.go:15-28 | A Bearer header carrying an issued, unexpired token resolves to the user it was issued to. |
| Contacts.BearerHeaderIdentifiesCaller | internal/handlers/contacts.go:15-28 | The same for the literal header "Bearer " + token. |
| Contacts.Unauthorized | internal/handlers/contacts.go:34 | Identification failures are answered with 401. |
| Contacts.Listing | internal/handlers/contacts.go:38-70 | Page 0 means 1 and page_size 0 means 10; every other value, negatives included, is used as given. The page is the window of the caller's rows at offset (page-1)*pageSize. Every listed contact is the caller's. `total` counts all of the caller's rows, and a positive page size bounds the page. |
| Contacts.GetAllContacts | internal/handlers/contacts.go:30-74 | 401 with the token error's text when the caller cannot be identified. Otherwise 200 with the caller's listing. The store is only read. |
| Contacts.CreateContact | internal/handlers/contacts.go:76-101 | A decode error gives 400 before any token error gives 401. The stored row's owner is the caller, whatever the body says, and its body id is kept unless it is 0. A taken id gives 500 "Failed to create contact". Otherwise 201 returns the stored row. The contact id sequence advances exactly when a body with id 0 reaches the insert, even if the insert fails. |
| Contacts.GetContactDetails | internal/handlers/contacts.go:103-129 | A bad path id gives 400 before the token is looked at. Another user's contact gives 404 exactly like a missing one. 200 returns a row with that id owned by the caller. |
| Contacts.Edited | internal/handlers/contacts.go:163-165 | The update takes name, email and phone from the body and keeps the stored id and owner. |
| Contacts.UpdateContact | internal/handlers/contacts.go:131-175 | The checks run in order: bad id 400, decode 400, token 401, then 404 unless the caller owns that id. 200 happens exactly when all pass, and returns the edited row. Then only that row changes, in name, email and phone; every other row stays. |
| Contacts.DeleteContact | internal/handlers/contacts.go:177-203 | Bad id 400, then token 401. Otherwise the table loses exactly the caller's row with that id. The answer is 204 when that removed a row, and 404 with the table unchanged when it did not. |
| Users.OnlyActivatesTransitive | internal/handlers/users.go:82-88 | Over any number of handler calls, rows are only appended and `active` only goes from false to true. |
| Users.CreateUser | internal/handlers/users.go:14-43 | Decode error 400. The stored password is a hash, always of "", and `active` and a non-zero id come from the body. A taken id or email gives 500 "Failed to create user". The activation token is issued after the save, for the stored id; if it cannot be issued, the user stays stored and the answer is 500. After a decoded body the user id sequence has advanced exactly when the body's id was 0. |
| Users.CreateUserCorrected | internal/handlers/users.go:14-43 | The registration as evidently intended: the hash is of the submitted password, and the account starts inactive with a sequence-assigned id. The ordering and answers are otherwise those of CreateUser; every decoded body advances the user id sequence. |
| Users.ActivationSubject | internal/handlers/users.go:56-67 | An activation names a user exactly when the body decodes, its token is non-empty and GetUserIDFromToken accepts it. |
| Users.ActivateUser | internal/handlers/users.go:45-96 | The checks run in order: 400 "Invalid request body", 400 "Activation token is required", 400 "Invalid or expired activation token", 404 "User not found", 400 "User is already activated". 200 happens exactly when all pass. Then only that user's `active` becomes true; nothing changes on any other path. |
| Auth.DbHolder.constructor | internal/handlers/auth.go:14 | No store before SetDB. |
| Auth.DbHolder.SetDB | internal/handlers/auth.go:16-19 | SetDB installs exactly the given store. |
| Auth.EmailDeterminesUser | internal/models/user.go:5 | With the unique email column, a stored user is determined by their email. |
| Auth.AuthenticateUser | internal/handlers/auth.go:21-62 | The checks run in order: decode 400, unknown email 401 "Invalid email or password", inactive 401 "User account is not active" whatever the password, wrong password 401 with the unknown-email text, then 500 "Failed to generate token" when no token can be issued. 200 happens exactly when the email is found, the account is active, the password matches and a token can be issued. The token is issued for that user. Login only reads the store. |
| Auth.LoginTokenIdentifiesUser | internal/handlers/auth.go:53-61 | Until it expires, a login token resolves to the id of the active user whose password matched. |
| Scenarios.RegisteredPasswordRejected | internal/handlers/users.go:15-27 | After registering with a password that holds a non-NUL character among its first 72 and activating, login with that password gets 401 and login with "" gets 200. |
| Scenarios.RegisterActiveSkipsActivation | internal/handlers/users.go:15-29 | A body with `"active": true` gives an account that logs in at once. Activating it afterwards gets 400 "User is already activated". |
| Scenarios.CorrectedLifecycle | internal/handlers/users.go:14-43 | With the corrected registration: no login before activation, and after it the registered password logs in with a token for the new id. |
| Scenarios.ActivationTokenAuthorizesContacts | internal/handlers/users.go:35-42 | The activation token also serves as a session token. Before activation it already creates contacts owned by the new account. |
| Scenarios.ContactIsolation | internal/handlers/contacts.go:103-203 | Another caller gets 404 when reading, updating or deleting the owner's contact, the same 404 as for a contact that does not exist, and lists none. The owner still reads the contact unchanged. |

## Left out

- Handlers run atomically in the model. The Go handlers read and then write in separate statements, so concurrent requests can interleave: ActivateUser's `First` then `Save` (internal/handlers/users.go:70-92), where two activations can both answer 200; UpdateContact's `First` then `Save` (internal/handlers/contacts.go:117-171), where a contact deleted in between is inserted again by GORM's `Save`; GetAllContacts' `Count` then `Find` (internal/handlers/contacts.go:51-59), where `total` can disagree with the page.
- Store.Db.SaveContact: requires the row to exist; GORM's `Save` inserting a row whose key no row holds is only reachable through the interleavings above.
- The `sync.RWMutex` around the configuration (pkg/utils/token.go:17, 22-23, 29-30): concurrency. The slot is a plain field.
- Jwt.Mac: HMAC-SHA256 and the base64url JSON encoding of header and claims are replaced by an injective escape of the secret and decimal claims; only a numeral without leading zeros reads as a number, so each segment reads back as its own text. The stand-in idealises the MAC as injective in the key: recomputation with the same secret agrees, and another secret never does.
- Jwt.MacBindsSecret: real HMAC-SHA256 has equivalent keys. A key of up to 64 bytes is padded with zero bytes, so "k" and "k" followed by a NUL sign alike, and a key longer than 64 bytes signs like its SHA-256 digest. For such pairs of secrets the service accepts a token that Jwt.ParseOtherSecret and Token.IssuedTokenForeignSecret prove rejected.
- The JWT header and its `alg` member are not modelled. `jwt.Parse` is called without a list of valid methods, and the key function at pkg/utils/token.go:90-92 hands out the secret without checking the signing method. The service therefore also accepts tokens signed HS384 or HS512 with its secret; only non-HMAC algorithms and `none` are refused. The model covers HS256 only.
- Token.LibraryMessage: the library's error texts are reproduced for the three outcomes modelled ("token contains an invalid number of segments", "signature is invalid", "Token is expired"). Other library errors are not: bad base64 or JSON in a three-segment token, an unexpected signing method, and the "Token used before issued" and "Token is not valid yet" checks.
- Jwt.Live: the library treats an `exp` of exactly 0 as absent and never expiring; the model treats it as past. Tokens issued by GenerateToken never carry it. The lemmas also avoid the instant `now == exp`.
- Token.GetUserIDFromToken: `user_id` is a float64 converted with `uint64(...)` (pkg/utils/token.go:122-126). Here it is an exact natural number. A negative or fractional `user_id` counts as non-numeric, and precision loss above 2^53 is not modelled.
- The `"invalid token"` return at pkg/utils/token.go:129 is not modelled. The library returns an error whenever a token is not valid, and the claims are always a MapClaims, so the branch cannot run.
- The signing error branch at pkg/utils/token.go:66-69 is not modelled: HMAC signing with a byte key does not fail.
- Models.Hash: bcrypt is symbolic. The 500 "Failed to hash password" branch (internal/handlers/users.go:22-25) is not modelled because the hashed password is always "", which bcrypt accepts.
- Models.Hash: real bcrypt is not injective. It pads the key with a NUL byte and repeats it, so the hash of "" also matches every all-NUL password, and it ignores every byte after the 72nd. The symbolic hash matches its own preimage only.
- Users.CreateUserCorrected: does not model bcrypt's refusal of passwords longer than 72 bytes, which would reach the 500 "Failed to hash password" branch.
- Database faults other than unique-key clashes are not modelled, such as a lost connection. These are the 500 answers "Failed to count contacts", "Failed to retrieve contacts", "Failed to retrieve contact", "Failed to delete contact", "Failed to retrieve user" and "Database error".
- Store.Db.SaveUser and Store.Db.SaveContact never fail. The handlers save a row that keeps its key and email, so no unique constraint can clash. The "Failed to update contact" and "Failed to activate user" branches (internal/handlers/contacts.go:168-171, internal/handlers/users.go:89-92) are therefore not modelled.
- Store.PagesAreConsecutive: the listing query has no ORDER BY (internal/handlers/contacts.go:59), and PostgreSQL promises no row order for it, so two requests for consecutive pages can overlap or skip rows in the real service. The lemma holds only for the model's single fixed storage order.
- Store.OwnedBy: the order of rows from an unordered SELECT is storage order here. PostgreSQL promises no order.
- Go's 64-bit `int` overflow in `(page - 1) * pageSize` is not modelled; integers are unbounded.
- Text.Lower folds ASCII letters only. No non-ASCII rune lowers to a letter of "bearer", so comparisons with "bearer" are unaffected.
- JSON decoding, `strconv` parsing and `mux.Vars` are library behaviour. Their results are inputs. The JSON encoding of responses, including a nil slice written as `null`, and the exact bytes `http.Error` writes are not modelled.
- Logging, `LoggingMiddleware`, router wiring (cmd/server/main.go), configuration loading (configs/config.go) and database connection and migration (internal/database/db.go) are not part of this model. They are plumbing and I/O.

## Findings

| source | as written | input that shows it | evidently intended | confidence | as-written member | corrected member |
|---|---|---|---|---|---|---|
| internal/handlers/users.go:15-27 | The registration body is decoded into models.User, whose Password is tagged `json:"-"` (internal/models/user.go:6). The hash is therefore always of "". | Register `{"email":"a@b.c","password":"pw"}` and activate. Login with "pw" gets 401; login with "" gets 200. | Hash the password the client submitted. | high; not executed | Scenarios.RegisteredPasswordRejected | Users.CreateUserCorrected |
| internal/handlers/users.go:15-29 | `active` (and `id`) are decodable (internal/models/user.go:4,7), so the body decides the new account's state. | Register `{"email":"a@b.c","active":true}`. Login works without activation, and activation then gets 400 "User is already activated". | New accounts start inactive, with a store-assigned id. | high; not executed | Scenarios.RegisterActiveSkipsActivation | Users.CreateUserCorrected |
