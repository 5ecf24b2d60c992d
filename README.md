# Finx passwordless sign-in: the credential authorizer and the signup handler

This project models the server-side decision logic of the Finx wallet's sign-in in Dafny:

- the `authorize` callback of the NextAuth credentials provider (`apps/user-app/lib/auth.ts`), which either asks the OTP service to email a six-digit code, or validates an email and a code, looks the user up and has the OTP service verify the code;
- the `session` callback in the same file, which copies the token's subject into `session.user.id`;
- the signup endpoint `POST /api/auth/signup` (`apps/user-app/app/api/auth/signup/route.ts`), a guarded insert into the user table keyed by email.

Modules:

- `Auth` (`auth.dfy`) holds the authorizer as pure functions. zod's email check, `prisma.user.findFirst` and the OTP service's generate and verify endpoints are the fields of a `Services` value: each is the answer that collaborator would give. `Authorize` returns the outcome together with the calls it made, in order. This makes "nothing is consulted before validation" and "verify is never called for an unknown user" statable. The outcome is one of: returning a user object, returning `null`, or throwing an error. The session callback is a method that updates a `SessionUser` object in place.
- `Signup` (`signup.dfy`) gives the handler as a function `Handle` over the table's value. The class `UserTable` holds the table (a map from email to user, plus the next autoincrement id). Its `Post` method performs the same steps in place and is proved equal to `Handle`. A ghost log records every store call.
- `Users` (`users.dfy`) holds the user row and the table invariant: each row sits under its own email, and ids are distinct and below the next id.
- `Decimal` (`decimal.dfy`) holds the decimal rendering of an id (`user.id.toString()`) and its inverse.
- `SignInFlow` (`signin_flow.dfy`) connects the two files through one table.

Behaviour of the code worth stating plainly:

- When the user is missing, the code throws "User does not exist. Please sign up." right after the lookup (auth.ts:58-60), so the verify endpoint is never called for an unknown user.
- There are no separate rejection reasons. Every validation, provider or transport failure is `null`, and "unknown user" is a thrown error rather than a result case.
- The email is passed on exactly as submitted. zod's `string().email()` does not normalise it.

The OTP-request branch returns a non-null user object, `{ id: "pending", email, status: "otp_sent" }`. `Auth.VerifyOtp` proves that a verified user's id is a digit string and so never equals `"pending"`. The model records which branch produced a user. It does not model what NextAuth then does with either object.

## Model

| member | source | states |
|---|---|---|
| `Auth.ParseEmail` | apps/user-app/lib/auth.ts:6 | the email schema accepts exactly a present string that satisfies the email grammar, and returns it unchanged |
| `Auth.ParseOtp` | apps/user-app/lib/auth.ts:7 | the OTP schema accepts exactly a present string of length 6 whose characters are all decimal digits, and returns it unchanged |
| `Auth.OtpSchemaAcceptsNumericCodes` | apps/user-app/lib/auth.ts:7 | every six-digit numeric code below 10^6, leading zeros included, passes the OTP schema |
| `Auth.RequestOtp` | apps/user-app/lib/auth.ts:22-44 | the request branch never throws. It returns the pending user `{id:"pending", email, status:"otp_sent"}` iff the email is valid and the generate reply's message is exactly "OTP is generated and sent to your email"; otherwise it returns null. It makes no call for an invalid or absent email. Otherwise it makes exactly one generate call, with that email and the fixed type, organization and subject |
| `Auth.VerifyOtp` | apps/user-app/lib/auth.ts:47-83 | an invalid email or OTP gives null with no call. It throws, with exactly "User does not exist. Please sign up.", iff the inputs are valid and the lookup finds no user; the only call made is then the lookup. It returns a user iff the user is found and the verify reply's message is exactly "OTP is verified"; that user is the found user's id as a decimal string, name and email, and its id is never "pending". With valid inputs the calls are exactly the lookup followed by one verify call with that email and OTP when the user is found, and the lookup alone otherwise, so a signed-in result always follows a verify call for that email and OTP. Every call carries the validated email |
| `Auth.Authorize` | apps/user-app/lib/auth.ts:18-84 | absent credentials give null with no call. The only error thrown is the unknown-user one. A pending user comes only from `requestOtp === "true"` with the request branch succeeding. A thrown error or a signed-in user comes only from any other `requestOtp`. A record whose `requestOtp` is exactly "true" takes the request branch (`RequestOtp`); any other value, absent included, falls through to verification (`VerifyOtp`). Generate is called only when the flag is "true"; lookup and verify only when it is not. Every call carries the submitted email, and that email passed validation |
| `Auth.SessionCallback` | apps/user-app/lib/auth.ts:89-94 | when `session.user` is present, its `id` becomes `token.sub`, its other fields and the session's own fields are unchanged, and the same session object is returned |
| `Decimal.NatToString` | apps/user-app/lib/auth.ts:73 | `id.toString()` is a non-empty string of decimal digits with no leading zero unless the id is 0 |
| `Decimal.ParseNatToString` | apps/user-app/lib/auth.ts:73 | reading the rendered id back as a decimal number gives the id |
| `Decimal.NatToStringInjective` | apps/user-app/lib/auth.ts:73 | two ids render to the same string iff they are equal |
| `Decimal.NatToStringLength` | apps/user-app/lib/auth.ts:7 | a number below 10^k renders in at most k digits, so a code below 10^6 fits the six-character OTP |
| `Users.WellFormedEmailsUnique` | apps/user-app/app/api/auth/signup/route.ts:18-27 | in a well-formed table no two users share an email |
| `Signup.Handle` | apps/user-app/app/api/auth/signup/route.ts:4-50 | the response is one of 400, 409, 201 or 500 with the source's fixed bodies. 400 iff the body was read and one of email, name, number is missing or falsy; there is then no store call. 409 iff all three are truthy, the email is a string already on file and the lookup did not fail; the only store call is then the lookup. 201 iff all three are strings, the email is new and the store did not fail; exactly the user `{id: next, email, name, number}` is then added, nothing else changes, and the body carries no user field. On every non-201 the table is unchanged. `create` is called only after a lookup of an email not on file. The table invariant is preserved |
| `Signup.HandleAllKeepsTable` | apps/user-app/app/api/auth/signup/route.ts:18-36 | over any sequence of requests handled one after another, emails stay unique, ids stay distinct, no existing user is removed or altered, and the table grows by exactly the number of 201 responses |
| `Signup.UserTable.FindUnique` | apps/user-app/app/api/auth/signup/route.ts:18-20 | the lookup by email finds a user iff the email is on file, and the user found carries that email |
| `Signup.UserTable.Post` | apps/user-app/app/api/auth/signup/route.ts:4-50 | the in-place handler returns the response of `Handle`, leaves the table and id counter as `Handle` says, appends exactly `Handle`'s store calls to the log, and keeps the table well formed |
| `SignInFlow.SignupThenSignIn` | apps/user-app/lib/auth.ts:54-76 | against one table: before signup, verification credentials for a new email throw the unknown-user error after one lookup and no verify call. After the signup handler creates the user (201), the same credentials return that user with the decimal rendering of its new id, and that string parses back to the id |
| `SignInFlow.SessionIdNamesOneUser` | apps/user-app/lib/auth.ts:72-76 | in a well-formed table, the id string returned for a signed-in user (and copied into the session) belongs to exactly one user |

## Left out

- zod's email grammar is not modelled: it is the `isEmail` field of `Services`, an arbitrary predicate on strings.
- The HTTP calls to the OTP service (`axios.post`) are not modelled: their URLs, status codes and the service itself. Each call is represented only by its reply: a body whose `message` may be absent, or a thrown transport error.
- Prisma is not modelled: `findFirst`/`findUnique` are exact lookups by email and `create` is an insert. A failure of either is an input (`Auth.LookupFailed`, `Signup.StoreFault`). The database schema is not part of this model. The id is taken to be an autoincrement integer starting at 1. The email, name and number columns are taken to be strings, so a non-string value makes the store throw (500).
- Signup.Handle: keeps the next id unchanged on every response other than 201, so it assumes a failed `create` uses up no id; a database sequence may advance on a failed insert.
- Decimal.NatToString: does not model JavaScript's exponent notation for numbers of 10^21 and above, because ids are integer column values far below that.
- Auth.VerifyOtp: assumes no failure of the lookup or the verify call carries the exact message "User does not exist. Please sign up.". The source would rethrow such an error too.
- The race between `findUnique` and `create` under concurrent signups is not modelled. It is concurrency, settled in the real system by the database's unique constraint. Requests are handled one at a time.
- `console.error` logging is not modelled, because it has no effect on the results.
- NextAuth's handling of the result is not modelled: session and JWT issuance, how `token.sub` is filled, the `secret` fallback and the `pages` configuration. These are framework configuration.
- The request body is reduced to its three fields. A body that cannot be read, or that is JSON `null`, is `Unreadable` (500). Any other non-object body has all three fields absent (400). JSON numbers are reals, and arrays and objects are one truthy case.
- Session fields other than `user.id`, `user.name`, `user.email` and `expires` are not modelled.
- The login and signup pages (React UI) and the database client module (`.env` probing, a global client) are not modelled. They are presentation and plumbing.
