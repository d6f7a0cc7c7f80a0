# insighto-server: request-checking logic in Dafny

The server takes a CSV file upload, parses it and returns the rows as JSON. It also has a
registration route and a CORS middleware. This project models the three parts of it that
make decisions. Each is a pure function on immutable data.

- **Registration validator** (`validateRegistration`, routes/auth.js). It checks the name,
  then the email, then the password. The first failure answers 400 with its own message.
  If all three pass, the request goes on to `next`. Both regular expressions get two
  definitions. One is a literal reading: split points for the email, and lookaheads at
  position 0 for the password. The other is an executable check. Lemmas prove the two agree
  in both directions. They also prove that each agrees with a plain-words description:
  exactly one `@`, an inner dot in the domain, four character classes, and at least eight
  characters.
- **Upload decision** (the multer `fileFilter` and `fileSize` limit, and `uploadFile`,
  controllers/FileController.js). The upload layer comes first: MIME filter, then size
  limit. A missing file comes next. Then come the CSV parse and the database insert. Each
  outcome maps to a status and a body. On success the body holds `preview` (the first five
  rows), `data` and `totalRows`. Reading the CSV (`parseCSV`, which calls the csv-parse
  library) and the insert (`db.run`) are function parameters. The handler records each call
  it makes to them, so the model can state "no parse happened" or "nothing was inserted".
- **CORS middleware** (middleware/cors.js). An allowlisted `Origin` is echoed back in
  `Access-Control-Allow-Origin`. Three fixed headers are set on every request. An `OPTIONS`
  request ends with 200, and any other request calls `next`. A predicate models the browser
  side of the CORS protocol: the CORS check of the WHATWG Fetch Standard (section 3.2 of
  that standard describes the protocol). A lemma proves that check passes exactly for the
  two allowlisted origins.

Files: `wrappers.dfy` (Option, Result), `http.dfy` (status codes), `charclasses.dfy`
(the ECMAScript character classes `\s`, `.`, `[a-z]`, `[A-Z]`, `\d`, `[@$!%*?&]`, and
the UTF-16 length),
`email.dfy` and `password.dfy` (each rule, plus a module of concrete examples),
`registration.dfy`, `upload.dfy`, `cors.dfy`.

Modelling choices:

- JavaScript semantics:
  - `\s` is the full ECMAScript WhiteSpace plus LineTerminator set.
  - `.` excludes only the four line terminators.
  - `\d` is `[0-9]`.
  - `name.length` is counted in UTF-16 code units. A character above U+FFFF counts two.
- The email regex runs on UTF-16 code units, and the model runs on code points. For
  well-formed UTF-16 the two agree: a surrogate pair is two `[^\s@]` units exactly where its
  code point is one `[^\s@]` character. Strings holding an unpaired surrogate cannot be
  written as a Dafny `string` and are outside the model (see "Left out"). The password
  alphabet is ASCII, so the difference never matters there.
- Body fields are `Option<string>`. JavaScript's `!field` is "absent or empty".
- The size limit rejects a file strictly larger than 5 × 1024 × 1024 bytes.
- The size-limit error's message is multer's own wording, "File too large". The repository
  does not contain that text; the model carries it as a constant.
- Node writes `setHeader(..., true)` as the text `true`.

What the upload code does:

- The file check is an exact MIME type test against `text/csv`.
- A parse failure is a 500 carrying the parser's message.
- A database failure is a 500 "Database error".
- Error bodies are `{ message }` only.

## Model

| member | source | states |
|---|---|---|
| `Registration.ValidateRegistration` | routes/auth.js:41-64 | The request goes on to `next` exactly when the name has at least 2 UTF-16 code units, the email regex matches and the password regex matches (regex semantics, not the executable checks). Every refusal is a 400 with one of the three messages. |
| `Registration.NameCheckComesFirst` | routes/auth.js:45-47 | A missing name, or one under 2 code units, gives 400 with the name message for every email and password, so those are not examined. |
| `Registration.EmailCheckComesSecond` | routes/auth.js:49-53 | With an acceptable name, a missing email or one the regex rejects gives 400 with the email message for every password. |
| `Registration.PasswordCheckComesLast` | routes/auth.js:55-60 | With acceptable name and email, a password that breaks any rule gives 400 with the password message. The rules are: missing, under 8 characters, a character outside `A-Za-z0-9@$!%*?&`, or no lower-case letter, no upper-case letter, no digit or no special character. |
| `Registration.AcceptedRegistration` | routes/auth.js:45-63 | When `next` is called, the name has at least 2 code units, the email has no whitespace and exactly one `@`, and the password breaks no rule. |
| `EmailRule.EmailCheckMatchesPattern` | routes/auth.js:50-51 | The executable email check and the literal split-point reading of `^[^\s@]+@[^\s@]+\.[^\s@]+$` accept the same strings, in both directions. |
| `EmailRule.EmailAcceptanceCharacterized` | routes/auth.js:50-51 | The email regex matches exactly when the address has no whitespace, exactly one `@` (a multiset count), at least one character before it, and a `.` in the domain that is neither its first nor its last character. |
| `PasswordRule.Scan` | routes/auth.js:56 | The single backward pass reports a lower-case letter, an upper-case letter, a digit or a special character exactly when one occurs. It reports "alphabet only" exactly when every character is in the password alphabet. |
| `PasswordRule.LookaheadIsContains` | routes/auth.js:56 | Over the password alphabet, a lookahead `(?=.*[x])` at position 0 succeeds exactly when a character of class x occurs, because no line terminator can block `.*`. |
| `PasswordRule.PasswordCheckMatchesPattern` | routes/auth.js:56-57 | The executable password check and the literal reading of the password regex accept the same strings, in both directions. |
| `PasswordRule.PasswordAcceptanceCharacterized` | routes/auth.js:56-57 | The password regex matches exactly when the password has at least 8 characters, all from `A-Za-z0-9@$!%*?&`, including a lower-case letter, an upper-case letter, a digit and one of `@$!%*?&`. Both directions are stated. |
| `Registration.EmailFieldCheck` | routes/auth.js:51 | The `!email` test adds nothing to the regex test: the field passes both exactly when it is present and the regex matches it, because the regex never matches the empty string. |
| `Registration.PasswordFieldCheck` | routes/auth.js:57 | Likewise for the password: it passes exactly when present and matched by the password regex. |
| `EmailExamples.Accepted` | routes/auth.js:50 | `a@b.c` matches the email regex. |
| `EmailExamples.RefusedWithoutDot` | routes/auth.js:50 | `a@b` does not match: the domain has no dot. |
| `EmailExamples.RefusedWithTwoAts` | routes/auth.js:50 | `a@@b.c` does not match: it has two at signs. |
| `EmailExamples.RefusedWithSpace` | routes/auth.js:50 | `a @b.c` does not match: it contains whitespace. |
| `EmailExamples.RefusedWithoutLocalPart` | routes/auth.js:50 | `@b.c` does not match: nothing precedes the at sign. |
| `EmailExamples.RefusedWithDotFirst` | routes/auth.js:50 | `a@.c` does not match: the domain's only dot is its first character. |
| `PasswordExamples.Accepted` | routes/auth.js:56 | `Passw0rd!` matches the password regex. |
| `PasswordExamples.RefusedTooShort` | routes/auth.js:56 | `Pa0!abc` does not match: seven characters. |
| `PasswordExamples.RefusedWithoutUpper` | routes/auth.js:56 | `password0!` does not match: no upper-case letter. |
| `PasswordExamples.RefusedOutsideAlphabet` | routes/auth.js:56 | `Passw0rd!#` does not match: `#` is outside the alphabet. |
| `CharClasses.Utf16Length` | routes/auth.js:45 | `length` counts UTF-16 code units. It lies between the code-point count and twice that, and equals the code-point count exactly when every character is below U+10000. |
| `Upload.FileFilter` | controllers/FileController.js:20-25 | A file is accepted exactly when its MIME type is `text/csv`. Otherwise the error is "Only CSV files are allowed". |
| `Upload.Receive` | controllers/FileController.js:18-29 | With no file part the upload step yields no file and no error. With a file, it succeeds, passing the file on unchanged, exactly when the MIME type is `text/csv` and the size is at most 5 MiB. Errors carry the filter or size-limit message. |
| `Upload.Preview` | controllers/FileController.js:75 | The preview has min(5, n) rows and is a prefix of the data, in order. |
| `Upload.UploadFile` | controllers/FileController.js:43-89 | The status is 400 exactly when the upload step failed or sent no file, and then nothing is parsed or inserted. It is 500 exactly when the parse or the insert failed. It is 200 exactly when the body is a success body. A success body's `data` is the parsed rows, `totalRows` their count, and `preview` a min(5, n) prefix. On success the handler parsed, then inserted. |
| `Upload.NonCsvRejected` | controllers/FileController.js:20-24 | A non-`text/csv` file gives 400 "Only CSV files are allowed" (through the error branch at lines 45-47), with no parse and no insert. |
| `Upload.OversizeRejected` | controllers/FileController.js:26-28 | A CSV file over 5 × 1024 × 1024 bytes gives 400 with the size-limit error's message, with no parse and no insert. |
| `Upload.MissingFileRejected` | controllers/FileController.js:51-54 | A request without a file gives 400 "No file uploaded", with no parse and no insert. |
| `Upload.ParseFailureReported` | controllers/FileController.js:84-86 | A parse failure gives 500 with the parser's message, and no insert is attempted. |
| `Upload.DatabaseFailureReported` | controllers/FileController.js:65-69 | A failed insert after a good parse gives 500 "Database error" and no success body. |
| `Upload.SuccessBody` | controllers/FileController.js:72-81 | On success the response is 200 with "File uploaded successfully", the inserted row's id, the first five rows, all rows and their count. |
| `Upload.PreviewIgnoresLaterRows` | controllers/FileController.js:75 | Once there are five rows, appending more never changes the preview. |
| `Upload.PreviewOfShortTable` | controllers/FileController.js:75 | A table of at most five rows is its own preview. |
| `Cors.CorsMiddleware` | middleware/cors.js:1-34 | `Access-Control-Allow-Origin` is set to the request origin when that origin is in the two-element allowlist. Otherwise that header is left as it was. Allow-Methods, Allow-Headers and Allow-Credentials get their fixed values on every request, and its own `setHeader` calls add or change no other header. The request ends with 200 exactly when the method is `OPTIONS`; otherwise `next` is called. |
| `Cors.CorsCheckPassesExactlyForAllowlist` | middleware/cors.js:2-14 | For a response that had no allowed-origin header before, a browser's Fetch Standard CORS check passes exactly when the origin is allowlisted. This holds with or without credentials. |
| `Cors.PreflightAnswered` | middleware/cors.js:29-31 | An `OPTIONS` request ends with status 200 and does not call `next`, whatever its origin. |
| `Cors.OtherMethodsPassedOn` | middleware/cors.js:29-33 | Any other method calls `next` and sends no status. |

## Left out

- The CSV grammar and how rows are built from the header belong to the csv-parse library
  (controllers/FileController.js:35). `parseCSV` is a parameter returning rows or an error
  message.
- The disk storage and its `Date.now()` file name (controllers/FileController.js:8-15) are
  left out because they involve the clock and the filesystem. The stored path and name are
  inputs, and the database insert is a parameter. config/database.js is not part of this
  model.
- multer's other errors (a file under another field name, a malformed multipart body) come
  from the library, not this code.
- The login and register handler bodies (database lookups, bcrypt, JWT), routes/contact.js
  (email sending), routes/api.js (routing and the health timestamp) and server.js (app
  wiring, static files, the generic error handler) are plumbing around foreign calls.
- Console logging is left out.
- Non-string request-body values are not modelled; a field is a string or absent.
- Strings with unpaired surrogates are not modelled, because a Dafny `char` cannot hold
  U+D800 to U+DFFF. `express.json()` (server.js:20) can produce such a string from an escape
  like `"\ud800"`. JavaScript then counts it as one code unit of `length` and lets it match
  `[^\s@]`. So, for example, a name of two unpaired surrogates passes the name check in the
  source but has no counterpart in the model.
- Header names are compared as written. Node's case-insensitive header names are not
  modelled.
- The `OK` text that `sendStatus(200)` sends as the body is not modelled.
- Cors.CorsMiddleware: its header map covers only the middleware's own `setHeader` calls. The
  `Content-Type`, `Content-Length` and `ETag` headers that Express's `sendStatus(200)` adds to
  a preflight response come from the framework and are not in the map.
