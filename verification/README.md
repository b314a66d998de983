# Authentication state machine of the ZaloUTE back end

This project models the authentication controller: the five request handlers
`register`, `verifyOtp`, `login`, `forgotPassword` and `resetPassword`, and the
helper `generateOTP`. It proves what the controller guarantees about the user
collection. Each handler looks up one user record by email and checks a few
conditions. It then either rejects the request and changes nothing, or it
rewrites the record's `password`, `otp` and `otpExpires` fields and saves the
record.

Files:

- `wrappers.dfy`: `Option`, which stands for a JavaScript `null`.
- `otp.dfy`: `generateOTP`, with the random number replaced by an integer draw
  in `[0, 900000)`. The code is the decimal string of `100000 + draw`. The
  lemmas show that this string has six digits, has no leading zero, reads back
  as `100000 + draw`, and that every such string is produced by exactly one
  draw.
- `credentials.dfy`: `bcrypt.hash` and `bcrypt.compare`, written as a symbolic
  hash `Hash(password, salt)` and a predicate `Matches`. The salt is a
  parameter.
- `users.dfy`: the user record (`id`, `email`, `password`, `otp`, `otpExpires`)
  and the collection, a map keyed by email. It also holds the collection
  invariant `WellFormed`: every record sits under its own non-empty email, `otp` and
  `otpExpires` are both set or both null, and a stored code is six digits.
- `auth_spec.dfy`: each handler as a function from the collection to a reply,
  a new collection and the mail sent. `Date.now()` becomes the parameter
  `now`, and the document id the database assigns becomes the parameter `id`.
  The file also has `Step`, which applies any one handler, and `Run`, which
  handles a sequence of requests.
- `auth_controller.dfy`: the class `AuthController`. Its field `users` is the
  collection and its field `outbox` logs the mails handed to the transport.
  Each handler method updates the record field by field, as the source does.
  Each method is proved to agree with its transition in `AuthSpec` and to
  preserve `WellFormed`.
- `auth_properties.dfy`: properties that span several requests. A code is
  single use. A code is refused after its expiry instant but accepted at that
  instant. A pending code blocks login until a verify or reset for that email
  succeeds. A newer code from a different draw makes the older one useless for
  resetPassword. Reset installs the
  password "123". Register, verify and login complete a round trip.

Two quirks are modelled as the code has them:

- The code expires `100 * 60 * 1000` ms (100 minutes) after it is issued.
  The code's comment says 10 minutes.
- `resetPassword` installs the hash of the literal `"123"` and ignores any
  password in the request.

A login refused because a code is still pending answers `OtpPending`, after the
controller's message "OTP is not null. Register again.". The expiry test is
`user.otpExpires < Date.now()`, so a code presented at exactly its expiry
instant is still accepted (`CodeAcceptedAtExpiryInstant`).

## Model

| member | source | states |
|---|---|---|
| `Otp.GenerateOtp` | src/controllers/authController.js:7 | the code for a draw in [0, 900000) is six decimal digits with no leading zero and denotes 100000 + draw |
| `Otp.DecimalRoundTrip` | src/controllers/authController.js:7 | the integer-to-string rendering used by `toString` yields only digits, no leading zero for a positive number, and reads back as the number |
| `Otp.DecimalLength` | src/controllers/authController.js:7 | a number with k + 1 decimal digits is rendered with exactly k + 1 characters, so no code loses a digit |
| `Otp.EveryCodeIsGenerated` | src/controllers/authController.js:7 | the codes are exactly the six-digit strings without a leading zero: each has a value in 100000..999999 and is produced by the draw that value names |
| `Otp.GenerateOtpInjective` | src/controllers/authController.js:7 | two draws give the same code if and only if they are equal |
| `Credentials.Hash` | src/controllers/authController.js:23 | a stored hash uses cost factor 10 and authenticates the password it was made from |
| `Credentials.HashMatchesOnlyItsPassword` | src/controllers/authController.js:68 | in the model, `Matches` accepts a candidate against `Hash(password, salt)` if and only if the candidate is that password, for every salt (an idealised `compare`; see Left out) |
| `AuthSpec.Register` | src/controllers/authController.js:15-33 | rejects with AlreadyExists, with nothing changed and nothing mailed, if and only if the email is present; answers ServerError with nothing stored and nothing mailed if and only if the email is absent and empty (the schema's `required` at src/models/userModel.js:4 fails the save at :26, caught at :32-33); otherwise it answers Ok, adds exactly one record (the given id and email, Hash(password), the code for the draw, expiry now + 6000000), leaves every other record alone, mails the code, and keeps the collection well formed |
| `AuthSpec.VerifyOtp` | src/controllers/authController.js:42-52 | NotFound if and only if the email is absent; on a well-formed collection Ok if and only if the record holds the supplied code and its expiry is not before now; any rejection leaves the collection unchanged; success clears otp and otpExpires only, touches no other record, and keeps the collection well formed |
| `AuthSpec.Login` | src/controllers/authController.js:65-74 | the checks run in source order: NotFound if and only if the email is absent; InvalidCredentials if and only if present with a wrong password; OtpPending if and only if the password is right and a code is pending; a token carrying the record's id if and only if all three pass |
| `AuthSpec.ForgotPassword` | src/controllers/authController.js:85-94 | NotFound with nothing changed if and only if the email is absent; otherwise it overwrites otp and otpExpires with the fresh code and now + 6000000, keeps id, email and password, touches no other record, mails the code, and keeps the collection well formed |
| `AuthSpec.ResetPassword` | src/controllers/authController.js:107-121 | accepts under exactly the conditions of verifyOtp; any rejection changes nothing; success sets the password to Hash("123") whatever the request held, clears otp and otpExpires, touches no other record, and keeps the collection well formed |
| `AuthSpec.Step` | src/controllers/authController.js:10-127 | for any handler: a request not answered Ok leaves the collection unchanged, no record is removed, the only key that can be added is the request's email, records of other emails are untouched, and well-formedness (otp set if and only if otpExpires set) is preserved |
| `AuthSpec.Run` | src/controllers/authController.js:10-127 | any sequence of requests gets one reply per request, never removes a record and preserves well-formedness |
| `Controller.AuthController.Register` | src/controllers/authController.js:10-35 | the handler's reply, new collection and mail log agree with `AuthSpec.Register`, and the invariant is kept |
| `Controller.AuthController.VerifyOtp` | src/controllers/authController.js:38-58 | the handler's reply and new collection agree with `AuthSpec.VerifyOtp`, no mail is sent, and the invariant is kept |
| `Controller.AuthController.Login` | src/controllers/authController.js:61-78 | the handler reads the collection without changing it and replies as `AuthSpec.Login` |
| `Controller.AuthController.ForgotPassword` | src/controllers/authController.js:81-100 | the handler's reply, new collection and mail log agree with `AuthSpec.ForgotPassword`, and the invariant is kept |
| `Controller.AuthController.ResetPassword` | src/controllers/authController.js:103-127 | the handler's reply and new collection agree with `AuthSpec.ResetPassword`, no mail is sent, and the invariant is kept |
| `AuthProperties.CodeIsSingleUse` | src/controllers/authController.js:45-51 | after verifyOtp accepts a code, the same code is refused by verifyOtp and by resetPassword at any later time |
| `AuthProperties.ResetCodeIsSingleUse` | src/controllers/authController.js:110-120 | after resetPassword accepts a code, the same code is refused by both code-checking handlers at any later time |
| `AuthProperties.ExpiredCodeRefused` | src/controllers/authController.js:45-46 | a code presented after its expiry instant is refused by verifyOtp and resetPassword, with nothing changed |
| `AuthProperties.CodeAcceptedAtExpiryInstant` | src/controllers/authController.js:110 | the expiry comparison is strict, so the stored code presented exactly at its expiry instant is accepted |
| `AuthProperties.PendingBlocksLogin` | src/controllers/authController.js:71 | while a code is pending, no password obtains a token |
| `AuthProperties.ForgotPasswordBlocksLogin` | src/controllers/authController.js:88-91 | right after a successful forgotPassword, no password obtains a token for that email |
| `AuthProperties.PendingUntilConsumed` | src/controllers/authController.js:10-127 | a pending code stays pending through any sequence of requests in which no verifyOtp or resetPassword for that email succeeds |
| `AuthProperties.LoginRefusedUntilReset` | src/controllers/authController.js:71 | after forgotPassword, login for that email is refused through any later requests until a verifyOtp or resetPassword for it succeeds |
| `AuthProperties.ResetInstallsLiteralPassword` | src/controllers/authController.js:115-116 | after a successful reset, "123" logs in with a token for the account and every other password, the old one included, is refused as invalid credentials |
| `AuthProperties.StaleCodeRefusedAfterForgotPassword` | src/controllers/authController.js:88-90 | after forgotPassword draws a new code, a reset with a code from a different draw is refused and changes nothing |
| `AuthProperties.RegisterVerifyLogin` | src/controllers/authController.js:10-78 | on a new, non-empty email: register succeeds and mails the code; login is refused while the code is pending; a wrong code is refused with nothing changed; the mailed code presented within 6000000 ms is accepted; then the registered password obtains a token for the new id |
| `AuthProperties.RegistrationCodeExpires` | src/controllers/authController.js:20 | the code of a registration that succeeded (new, non-empty email) is refused once more than 100 * 60 * 1000 ms have passed since registering |

## Left out

- Sending mail (`src/utils/sendEmail.js`). The nodemailer transport and its
  credentials are not modelled. A send is recorded in `outbox` and always
  counts as handed over, because the helper swallows its own errors.
- `src/models/userModel.js` is not part of this model beyond its field list.
  Email uniqueness comes from the map keys.
- Storage failures and exceptions, and the `500 Server error` replies they
  produce, are not modelled, except for one: `register` with the empty email,
  whose save the schema's `required` rejects, answers `ServerError`. Not
  modelled are a database that fails, and a missing or non-string `password`
  that makes bcrypt throw.
- Requests without an `email` are not modelled. Every email in the model is a
  string, so the lookup `findOne({ email })` is an exact key match.
- Requests whose `otp` is not a string are not modelled. In the source, a JSON
  number never equals the stored string under `!==`, so such requests are
  always refused.
- Concurrency is not modelled: async/await, and two requests for the same email
  racing each other's read-modify-write. The handlers run one after another.
- Credentials.HashMatchesOnlyItsPassword: states an idealised `compare`. Real
  bcrypt reads only the first 72 bytes of a password, so two passwords that
  agree on those bytes match each other's hash; the symbolic hash keeps the
  whole password and so rules this out.
- bcrypt internals are not modelled. The hash is symbolic and carries the
  password itself, so one-wayness and the real digest are outside the model, and
  no two passwords collide.
- JWT signing is not modelled. This covers the `JWT_SECRET` key, the one-hour
  expiry and the token encoding. A token is the value `SessionToken(userId)`.
- The floating-point `Math.random()` is not modelled. It is replaced by an
  integer draw in [0, 900000), so `Math.floor(100000 + x)` equals
  `100000 + draw`.
- Where document ids come from is not modelled. The id of a new record is a
  parameter, and nothing states that ids are unique.
- The text of the replies is not modelled. The 200 text replies all become
  `Ok`, and login's JSON body becomes `Token`.
