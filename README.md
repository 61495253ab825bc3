# Course app (hard variant): admin decision logic in Dafny

This project models the decision rules of the course-selling server in
`04-course-app-hard/index.js`. These rules sit between the Express wiring and
the MongoDB collections:

- **The image-link pattern** `httpLinkPattern`. It is given twice:
  - as a declarative predicate, `LinkPattern.MatchesLinkPattern`: the string
    splits into scheme, host, top-level domain, port and path pieces that each
    fit the pattern;
  - as a deterministic parser, `LinkPattern.ParseLink`.

  The two are proved to accept the same strings.
- **The course-payload middleware** `verifyCourseDetails`. It checks title,
  description, price and image link in that order and stops at the first
  failure. The model keeps the order in which the source evaluates each test:
  - `.trim()` runs before the null tests, so a missing title, description or
    image link throws a `TypeError`. The model calls this outcome `Crash`.
    The source never answers 401 for these fields.
  - A missing or negative price is refused.
- **Token extraction** in `authenticateToken`. The token is the second
  space-separated field of the `authorization` header. An absent header, or a
  header without a space, gives 401 before any verification. An empty header
  is falsy, so the source passes the empty string itself on as the token.
  Verifying the token (`jwt.verify`) is a parameter of the model.
- **The admin store**, class `AdminApi.AdminStore`. It holds the admin
  accounts as a sequence in insertion order and the courses as a map from id
  to course. It provides:
  - signup: appends one account, or refuses with 403;
  - the `PUT /admin/courses/:courseId` handler: fetches the course, overwrites
    its five fields and saves it;
  - the whole PUT route: token check, then payload check, then handler.
- **Login** (`AdminApi.Login`), a function over the account sequence.

Quirks of the source are kept, not fixed:
- Signup refuses only the one-space username `" "`. So `""` and `"  "` can be
  registered. Login refuses every all-whitespace username, so those accounts
  can never log in.
- The `http://www.` and `https://www.` alternatives of the pattern add
  nothing. `www.` is itself a host label, so every link they match is also
  matched by `http://` or `https://`.
- A missing title, description or image link crashes on `.trim()` instead of
  answering 401.
- Any `authorization` header with a space yields a token, whatever its first
  word; `Bearer` is not checked.
- An empty `authorization` header reaches token verification with the empty
  string as the token.

## Model

| member | source | states |
|---|---|---|
| JsString.TrimStart | 04-course-app-hard/index.js:69 | the leading part of `.trim()`: the result is the suffix of the input starting at its first non-whitespace character, and everything dropped is whitespace |
| JsString.TrimEnd | 04-course-app-hard/index.js:69 | the trailing part of `.trim()`: the result is the prefix ending at the last non-whitespace character, and everything dropped is whitespace |
| JsString.Trim | 04-course-app-hard/index.js:69 | `.trim()`: the result is a slice of the input with only whitespace before and after it, and it begins and ends with a non-whitespace character |
| JsString.IsBlank | 04-course-app-hard/index.js:69 | `s.trim() == ""` holds exactly when every character of `s` is whitespace |
| JsString.Split | 04-course-app-hard/index.js:52 | `split(' ')` yields at least one field; no field contains the separator; there is a single field exactly when the separator is absent; joining the fields gives back the input |
| JsString.SplitJoin | 04-course-app-hard/index.js:52 | splitting a join of separator-free fields returns those fields |
| JsString.SplitAtFirst | 04-course-app-hard/index.js:52 | the first field is everything before the first separator, and the remaining fields are the split of what follows it |
| JsString.IndexOf | 04-course-app-hard/index.js:52 | the index of the first occurrence of a character, or the length when there is none |
| LinkPattern.LabelRun | 04-course-app-hard/index.js:46 | the length of the leading `[a-zA-Z0-9]` run: all characters before it are alphanumeric, and the character at it is not |
| LinkPattern.SchemeLength | 04-course-app-hard/index.js:46 | the prefix `http://` gives 7 and `https://` gives 8; 0 means the string has neither prefix |
| LinkPattern.CutFirst | 04-course-app-hard/index.js:46 | cuts before the first occurrence of a character: the two parts concatenate to the input, the first lacks the character, and the second is empty or starts with it |
| LinkPattern.CutLast | 04-course-app-hard/index.js:46 | cuts around the last occurrence of a character, or reports that there is none |
| LinkPattern.ParseAuthority | 04-course-app-hard/index.js:46 | a host, a 2-5 letter top-level domain and an optional 1-5 digit port that concatenate to the input |
| LinkPattern.ParseLink | 04-course-app-hard/index.js:46 | a successful parse yields well-formed pieces that render back to exactly the input |
| LinkPattern.HostOkIffIsHost | 04-course-app-hard/index.js:46 | the host scanner accepts exactly `[a-zA-Z0-9]+([\-\.]{1}[a-zA-Z0-9]+)*` |
| LinkPattern.HostChars | 04-course-app-hard/index.js:46 | a host consists of alphanumerics and `-`/`.`, and begins and ends with an alphanumeric |
| LinkPattern.ParseRender | 04-course-app-hard/index.js:46 | parsing undoes rendering: every well-formed link parses back into its own pieces |
| LinkPattern.ParseCuts | 04-course-app-hard/index.js:46 | on pieces without stray cut characters, the parser recovers the pieces and accepts exactly when each piece is valid |
| LinkPattern.ParseLinkMatchesPattern | 04-course-app-hard/index.js:46 | `httpLinkPattern.test` computed by the parser agrees with the declarative pattern on every string |
| LinkPattern.MatchLink | 04-course-app-hard/index.js:46 | `httpLinkPattern.test(s)` is true exactly for the strings the regular expression matches |
| LinkPattern.PatternParsed | 04-course-app-hard/index.js:46 | every split that fits the pattern, including the `www.` scheme alternatives, is accepted by the parser |
| LinkPattern.FoldWww | 04-course-app-hard/index.js:46 | a link matched through `http://www.` or `https://www.` is the same string as a link whose host starts with the label `www` |
| LinkPattern.WwwHost | 04-course-app-hard/index.js:46 | prefixing a host with `www.` keeps it a host |
| LinkPattern.MatchedLinkShape | 04-course-app-hard/index.js:46 | a matching link starts with `http://` or `https://`; its host starts with an alphanumeric; its top-level domain has 2-5 letters; its port is absent or 1-5 digits |
| LinkPattern.SingleLabelRejected | 04-course-app-hard/index.js:46 | a scheme followed by one bare label (no dot and no top-level domain) never matches |
| LinkPattern.LocalhostRejected | 04-course-app-hard/index.js:46 | `http://localhost` does not match |
| LinkPattern.SixDigitPortRejected | 04-course-app-hard/index.js:46 | `http://a.com:123456` does not match |
| LinkPattern.QueryPathAccepted | 04-course-app-hard/index.js:46 | `https://example.com/x?y` matches |
| LinkPattern.LeadingSpaceRejected | 04-course-app-hard/index.js:46 | the pattern is anchored, so a link with a leading space never matches |
| CourseValidation.Rank | 04-course-app-hard/index.js:69-75 | each field's position in the checking order title, description, price, image link |
| CourseValidation.Message | 04-course-app-hard/index.js:70-76 | the 401 body for a field starts with "Invalid course " |
| CourseValidation.MessageNamesField | 04-course-app-hard/index.js:70-76 | the four messages are pairwise different |
| CourseValidation.CheckField | 04-course-app-hard/index.js:69-76 | one field's test can only pass, refuse that field, or crash on that field |
| CourseValidation.FirstFailure | 04-course-app-hard/index.js:69-78 | running tests in order either passes, or fails on a field of the list whose own test gives that failure |
| CourseValidation.VerifyCourseDetails | 04-course-app-hard/index.js:63-79 | when the middleware stops a request, the reported field's own test gives that outcome |
| CourseValidation.FirstFailureFindsFirst | 04-course-app-hard/index.js:69-78 | checking a list of fields passes exactly when every field passes; otherwise it reports the outcome of the first field that fails, and all earlier fields pass |
| CourseValidation.ReportsFirstFailure | 04-course-app-hard/index.js:63-79 | the middleware lets the request through exactly when all four tests pass; otherwise it reports the failing field of lowest rank, with that field's own outcome |
| CourseValidation.FieldRules | 04-course-app-hard/index.js:69-76 | per field: a missing text field crashes; a text field passes exactly when it has a non-whitespace character; the price passes exactly when present and at least 0 (so 0 passes); the link crashes when missing and passes exactly when it matches the pattern |
| CourseValidation.MatchedLinkNotBlank | 04-course-app-hard/index.js:75 | a link that matches the pattern is never blank, so the blank test before the pattern never decides |
| CourseValidation.PassIffAcceptable | 04-course-app-hard/index.js:63-79 | the middleware passes a payload exactly when the title and description have visible characters, the price is at least 0, and the link matches the pattern |
| CourseValidation.WhitespaceTitleRejected | 04-course-app-hard/index.js:69-70 | an all-whitespace title is refused with "Invalid course title" |
| CourseValidation.WhitespaceDescriptionRejected | 04-course-app-hard/index.js:71-72 | behind a good title, an all-whitespace description is refused with "Invalid course description" |
| CourseValidation.BadLinkRejected | 04-course-app-hard/index.js:75-76 | behind a good title, description and price, a link that does not match the pattern is refused with "Invalid course link" |
| CourseValidation.BadPriceRejected | 04-course-app-hard/index.js:73-74 | after a good title and description, a missing or negative price is refused with "Invalid course price" |
| CourseValidation.MissingTitleCrashes | 04-course-app-hard/index.js:69 | a missing title throws before any answer |
| CourseValidation.PassedLinkHasScheme | 04-course-app-hard/index.js:75 | every payload let through has an image link starting with `http://` or `https://` |
| TokenAuth.ExtractToken | 04-course-app-hard/index.js:51-53 | there is no token exactly when the header is absent, or is non-empty and contains no space; a token never contains a space |
| TokenAuth.AuthStatus | 04-course-app-hard/index.js:53-58 | 401 exactly when there is no token, 403 exactly when the token does not verify |
| TokenAuth.Authenticate | 04-course-app-hard/index.js:50-62 | 401 exactly for an absent header or a non-empty header without a space, whatever the verifier says; the request goes on exactly when the extracted token verifies; an empty header hands `""` to the verifier |
| TokenAuth.TokenBetweenSpaces | 04-course-app-hard/index.js:52 | the token is the text between the first space of the header and the next space, or the end |
| TokenAuth.BearerRoundTrip | 04-course-app-hard/index.js:52 | `Bearer <token>` yields the token unchanged |
| AdminApi.Login | 04-course-app-hard/index.js:118-134 | "Invalid Credentials" exactly when the username or password is missing or all whitespace; success exactly when, apart from that, the store holds the exact (username, password) pair; otherwise "User does not exists" |
| AdminApi.SignupAllowed | 04-course-app-hard/index.js:99 | the signup guard: the username is given, is not `" "`, and no stored account has it |
| AdminApi.SignupKeepsUsernamesUnique | 04-course-app-hard/index.js:99-108 | a signup the guard allows keeps usernames unique, and the same username is refused the next time |
| AdminApi.SignupStatus | 04-course-app-hard/index.js:99-110 | 200 exactly for a created account, 403 otherwise |
| AdminApi.LoginStatus | 04-course-app-hard/index.js:122-132 | 200 exactly for a login, 401 for both refusals |
| AdminApi.UpdateStatus | 04-course-app-hard/index.js:182-195 | 200 for an update, 400 for a malformed id, 401 for an unknown id, each exactly |
| AdminApi.PutStatus | 04-course-app-hard/index.js:165-200 | the status the route decides: 401 for a missing token (which the source sets but never sends), 403 for a token that does not verify, 401 for a refused payload, and then 200, 400 or 401 from the handler; nothing is decided when the payload check throws; only an update gets 200 |
| AdminApi.SignupThenLogin | 04-course-app-hard/index.js:99-125 | an account signup just saved logs in with its own username and password when neither is blank |
| AdminApi.SignupKeepsLogins | 04-course-app-hard/index.js:103-125 | saving another account never takes a login away |
| AdminApi.BlankAccountCannotLogIn | 04-course-app-hard/index.js:99-123 | signup accepts a new all-whitespace username other than `" "`, yet such an account always gets "Invalid Credentials" |
| AdminApi.AdminStore.constructor | 04-course-app-hard/index.js:27-41 | an empty store, whose invariant holds |
| AdminApi.AdminStore.Signup | 04-course-app-hard/index.js:91-116 | 403 with nothing changed for a missing, single-space or taken username; otherwise exactly one account `(username, password)` is appended and the courses are untouched; usernames stay unique |
| AdminApi.AdminStore.UpdateCourse | 04-course-app-hard/index.js:165-200 | a malformed id gives 400 and an unknown id gives "Invalid Course Id", with nothing changed; a known id has its course replaced by the five new fields, with all other courses, the set of ids and the accounts unchanged |
| AdminApi.AdminStore.PutCourse | 04-course-app-hard/index.js:165-200 | the token check, then the payload check, then the handler: a refused token or payload leaves the store unchanged and reports that refusal; a request passing both gets the handler's outcome for its id (400 exactly for a malformed id, "Invalid Course Id" exactly for an unknown one, otherwise the update); every stored course keeps passing the payload check |
| AdminApi.AcceptedPayloadIsCourse | 04-course-app-hard/index.js:167-179 | a payload the check accepts carries title, description, price and link, and storing them as a course and reading that course back gives the same payload |

## Left out

- Express routing, body parsing, `app.listen` and the response objects. Only the status decisions are modelled (`SignupStatus`, `LoginStatus`, `UpdateStatus`, `TokenAuth.AuthStatus`, `CourseValidation.InvalidStatus`).
- The Mongoose connection, the schemas' type casts, and the `save`/`find` failures that answer 500. The collections are a sequence of accounts and a map of courses. Saving always succeeds.
- Mongoose's ObjectId cast. The course id is either `CourseId(id)` or `MalformedId(raw)`; `MalformedId` stands for the `CastError` that answers 400.
- `jwt.verify` and `jwt.sign`, secrets and expiry. Verification is the function parameter `verifies`. Login returns who logged in, not a token.
- POST /admin/courses, GET /admin/courses and the user routes. They are not part of this model. Courses are added only by POST /admin/courses, so a store built by the constructor holds no course; the contracts of the update methods hold for any starting store, including one that already holds courses.
- What Express does with the `TypeError` of a missing field. The model stops at `Crash(field)`.
- The `res.status(401)` without a body on a missing token, which leaves the request hanging. The model records only the 401 decision.
- JavaScript coercion: a price sent as a string, `null < 0`, a non-string username. Prices are reals compared only with 0.
- A `null` signup username. It passes the `=== undefined` test, and its lookup then matches accounts without a username. The model's `None` stands for `undefined` only.
- Unicode. `trim` strips only the six ASCII whitespace characters, and the regex's `.` is modelled as refusing the four line terminators.
- Concurrency between requests, including the gap between the username lookup and the save in signup, and the non-atomic read-modify-write in the update handler.
