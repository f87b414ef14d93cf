# Credential store of an authentication microservice

This project models the core of a small authentication service written in Go
(`main.go`). The service keeps one process-wide map from username to a `User`
record (username, password, TOTP secret, 2FA flag). Four HTTP handlers act on
that map:

- `signUp` inserts the submitted record unless its username is already taken.
- `login` compares the submitted password with the stored one.
- `enable2FA` generates a TOTP key and renders a QR image of it. If rendering
  fails, it writes back a rollback record with no secret and 2FA off. If
  rendering succeeds, it commits the secret with 2FA on and reports the URL of
  the image.
- `verify2FA` passes the submitted code and the stored secret to the TOTP
  validator.

The model has five modules:

- `Options` (`options.dfy`) holds the `Option` type.
- `QrAddress` (`qr_address.dfy`) holds `GetScheme`, the QR URL, and a parser
  that inverts the URL.
- `Store` (`store.dfy`) holds the record type and the handler outcomes. The two
  handlers that change the map are specified by pure functions of the old map
  and the parsed request, `SignUpResult` and `Enable2FAResult`. Each gives a
  `Reply`: the outcome, the new map and any URL. The class `CredentialStore`
  owns the map as a field. Its `SignUp` and `Enable2FA` methods update the map
  in place and are proved against those functions. The two read-only handlers,
  `Login` and `Verify2FA`, are functions of the map, applied to `store.users`.
  They return only an `Outcome`.
- `Service` (`service.dfy`) treats the four routes as one request type.
  `Handle` dispatches a request to its handler and wraps the outcome of
  `Login` and `Verify2FA` into a `Reply` with the map unchanged. `Run` serves
  a sequence of requests in order and gives the final map; every `Service`
  lemma is stated over it. Each request carries what its collaborators
  answered at that moment: an enrollment request carries the generator's and
  the renderer's answers, and a verification request carries the validator as
  it stands at that request's time. It proves facts about every sequence of
  requests: records are never deleted and
  never change username or password, every record stays under its own key,
  a name can be signed up only once, and repeated rollbacks always leave the
  record with no secret.
- `StoreProperties` (`properties.dfy`) relates pairs of handlers. It also
  holds the two end-to-end scenarios, one for alice and one for bob.
  `AliceSession` replays the alice scenario against a `CredentialStore` object.
  It uses only the contracts of the class's methods.

The external collaborators are parameters:

- The key generator `totp.Generate` becomes a `Generated` value, either
  `Key(secret)` or `GenerateFailed`.
- The `qrencode` subprocess becomes `rendered: bool`.
- The TLS state and Host header of the request become an `Origin`.
- The validator `totp.Validate(code, secret)` becomes a function parameter
  `validate: (string, string) -> bool` with no further properties. Its
  verdict depends on the clock, so each verification request in a history
  carries its own validator.

Outcomes name the HTTP status each handler answers with. A successful
enrollment answers 201, so it is `Created`, not `Ok`.

The model follows the code as written:

- Verification passes whatever secret is stored, the empty one included, to
  the validator (`VerifyAfterRollback`). It never reads the 2FA flag
  (`VerifyIgnoresTwoFAEnabled`).
- The 2FA flag can be on while the secret is empty. Sign-up stores the bound
  record as it is, including a client-chosen secret and flag
  (`SignUpAcceptsEnabledWithoutSecret`). The invariants the model proves are
  the ones the code keeps: `Evolves` and `WellKeyed`.
- Login compares passwords in plain text, exactly as stored.

## Model

| member | source | states |
|---|---|---|
| QrAddress.Scheme | main.go:38-44 | the scheme is "https" exactly when the request came over TLS, otherwise "http" |
| QrAddress.QrUrl | main.go:162-164 | the reported URL ends with the QR image path "/auth/qr/qr.png" and starts with "https://" under TLS and "http://" without it |
| QrAddress.ParseQrUrl | main.go:162-164 | every string the parser accepts is exactly the QR URL of the origin it returns |
| QrAddress.ParseQrUrlRoundTrip | main.go:162-164 | parsing the QR URL of any origin (TLS state, host) gives that origin back |
| QrAddress.QrUrlInjective | main.go:162-164 | two origins have the same QR URL if and only if they are equal |
| Store.SignUpResult | main.go:54-62 | Conflict exactly when the name is taken, and then the map is unchanged; otherwise Created, the submitted record is stored verbatim under its username, one key is added and every other entry is unchanged |
| Store.Login | main.go:77-84 | Ok if and only if the user exists and the stored password equals the submitted one; every other case, absent user or wrong password, is the same Unauthorized |
| Store.Verify2FA | main.go:99-113 | NotFound exactly for an absent user; otherwise Ok if and only if the validator accepts the code for the stored secret, and Unauthorized if and only if it rejects it |
| Store.Enable2FAResult | main.go:126-165 | NotFound for an absent user and InternalError when generation fails, both with the map unchanged; once a key exists, username, password, key set and every other entry are kept; a failed render clears the secret and the flag and answers InternalError with no URL; a successful one stores the new secret with 2FA on and answers Created with the QR URL |
| Store.CredentialStore.constructor | main.go:21 | the store starts as the empty map, which satisfies the store invariant |
| Store.CredentialStore.SignUp | main.go:54-62 | the in-place update gives the outcome and new map of SignUpResult and keeps the store invariant and the Evolves relation |
| Store.CredentialStore.Enable2FA | main.go:126-165 | the copy-edit-write-back update gives the outcome, new map and URL of Enable2FAResult and keeps the store invariant and the Evolves relation |
| Service.Handle | main.go:29-33 | login and verification requests leave the map unchanged; every request keeps all keys, usernames and passwords, and keeps every record stored under its own username |
| Service.RunEvolves | main.go:55-160 | over any sequence of requests no key is deleted and no stored username or password changes |
| Service.RunPreservesWellKeyed | main.go:55-160 | over any sequence of requests every record stays stored under its own username |
| Service.SignUpSucceedsOnce | main.go:55-61 | a fresh name signs up with Created; after any later history a sign-up of the same name is a Conflict that leaves the map unchanged, and the first password is still stored |
| Service.RetriedRollback | main.go:145-154 | any number of enrollments of one user that fail at rendering, at least one of them after a generated key, leave that record with no secret and 2FA off, the key set unchanged and every other record unchanged |
| StoreProperties.SecondSignUpConflicts | main.go:55-61 | after a successful sign-up, a second sign-up with the same name is a Conflict, the map is unchanged and the first record is kept |
| StoreProperties.LoginAfterSignUp | main.go:61-84 | right after sign-up the new user logs in with exactly the registered password |
| StoreProperties.SignUpKeepsLogins | main.go:55-84 | sign-up never changes whether an existing user can log in with a given password |
| StoreProperties.Enable2FAKeepsLogins | main.go:127-165 | no enrollment outcome changes any login outcome, because password and username survive rollback and commit |
| StoreProperties.VerifyAfterCommit | main.go:100-160 | after a committed enrollment, verification accepts exactly the codes the validator accepts for the new secret |
| StoreProperties.VerifyAfterRollback | main.go:100-151 | after a rollback, verification checks the code against the empty secret instead of refusing the user |
| StoreProperties.VerifyIgnoresTwoFAEnabled | main.go:100-113 | the verification outcome does not depend on the stored 2FA flag |
| StoreProperties.Enable2FAKeepsOthersVerify | main.go:100-160 | enrolling one user never changes another user's verification outcome |
| StoreProperties.RollbackIsFixedPoint | main.go:145-154 | after a rollback, a further failed enrollment of the same user leaves the map exactly as it is |
| StoreProperties.RollbackDisablesEnrolledUser | main.go:145-160 | a rollback disables 2FA and drops the secret even for a user whose earlier enrollment committed |
| StoreProperties.SignUpAcceptsEnabledWithoutSecret | main.go:55-62 | a client can register a record whose 2FA flag is on while its secret is empty |
| StoreProperties.AliceScenario | main.go:55-165 | sign-up, duplicate sign-up, good and bad login, committed enrollment with its URL, and verification against the new secret give Created, Conflict, Ok, Unauthorized, Created, and the validator's verdict |
| StoreProperties.BobScenario | main.go:145-154 | an enrollment whose rendering fails answers InternalError with no URL and leaves the record with no secret and 2FA off |

## Left out

- HTTP transport is not modelled: Gin routing, `router.Run`, the logger and recovery middleware, JSON response bodies and messages. Requests are taken as already-parsed values and responses as an `Outcome`.
- Request binding (`ShouldBindJSON`) and its BadRequest answers are not modelled, because they belong to the transport layer.
- The static serving of the `qr` directory is not modelled.
- The internals of TOTP generation and validation (HMAC, base32, time steps, clock skew) belong to an external library. The generator is an input value and the validator an uninterpreted function. So the time-skew and generate-then-validate properties of TOTP are outside this model.
- The generated provisioning URI and the output file written by `qrencode` are not modelled. Only the renderer's success or failure is.
- Concurrency is not modelled. The handlers share the map without a lock, and the model is sequential.
- QrAddress.QrUrl: the URL is modelled as plain concatenation. The source passes it to `fmt.Sprintf` as a format string, so a `%` in the Host header would be mangled there.
- Logging and the text of error messages are not modelled.
