# Task manager backend: validators, gate, error envelope and owner-scoped stores

This project models the logic at the centre of a small task-manager web application.
An Express/MongoDB backend registers and logs in users and serves each user's own tasks
and profile. A Next.js frontend repeats some of the input checks before it sends a
request. The model covers:

- the input validators, backend and frontend (`Validators`, `FrontendValidators`). A
  payload validator answers with an ordered list of `{field, message}` errors. The
  e-mail regular expression `^[^\s@]+@[^\s@]+\.[^\s@]+$` is stated as an explicit
  predicate.
- the sanitisers for strings, e-mails and tag lists (`Sanitization`).
- bearer-token extraction from the `Authorization` header (`Jwt`).
- the authentication gate (`AuthMiddleware`). It sets `req.user` on a request object and
  otherwise answers 401 with one of three codes.
- the error handler (`ErrorHandler`). It turns an `AppError`, a JSON syntax error or any
  other failure into the `{success: false, error: {code, message, statusCode}}` envelope.
- the Task and User schemas with their setters, defaults, bounds and unique indexes
  (`TaskModel`, `UserModel`). Each collection is a class holding a map from id to document.
  `save`, `findOneAndUpdate`, `findByIdAndUpdate` and `findOneAndDelete` are methods of
  that class.
- the task, auth and profile controllers (`TaskController`, `AuthController`,
  `ProfileController`). The state-changing routes are methods over those stores. The
  read-only routes are functions.

Shared helpers:

- `Text` holds JavaScript's `trim`, `toLowerCase` (ASCII letters), `split` and
  `parseInt`.
- `Json` holds the loosely typed body values the code inspects with `typeof`,
  `Array.isArray` and truthiness.
- `Constants` holds the HTTP status numbers and error codes.
- `Wrappers` holds `Option` and `Result`.

A route handler's thrown error is modelled as the `Err` value it returns. It is a
`Raised`: `App(AppError)`, `BadJson`, or `Unexpected` for a store failure. `HandleError`
turns it into the response.

Ids are natural numbers handed out by each store's counter. The counter also serves as
the creation stamp, so "newest first" means "highest id first".

Password hashing, password comparison, token signing and token verification are
function parameters. So is the `$text` search predicate.

Observed behaviour the model exposes:

- A user named "ab" passes `validateUsername`, but the schema's minimum of 3 refuses the
  user. Registration then ends in a 500 (`UserModel.CastConforms`,
  `AuthController.Registered`).
- A task title of only angle brackets passes validation and is sanitised to "". The
  schema then refuses it and the request ends in a 500
  (`TaskController.BracketOnlyTitleRefused`).
- Register with an upper-case variant of a stored e-mail. The lookup finds the stored
  user, because the schema's setters also cast query values. The 409 then names the
  username, because the stored e-mail differs from the submitted one
  (`AuthController.CaseVariantFound`, `AuthController.UpperCaseEmailReportedAsUsername`).
- Tags sent to `updateTask` are stored exactly as sent, unsanitised (`TaskController.UpdateTagsUnsanitised`).

## Model

| member | source | states |
|---|---|---|
| ErrorHandler.HandleError | backend/src/middleware/errorHandler.ts:16-56 | Every answer has success=false and repeats the HTTP status in the envelope. An AppError is answered with exactly its own status, code and message. A SyntaxError is answered as 400 VALIDATION_ERROR "Invalid JSON in request body". Anything else is answered as 500 INTERNAL_ERROR "Internal server error". |
| ErrorHandler.UnexpectedErrorsLookAlike | backend/src/middleware/errorHandler.ts:48-55 | Any two non-AppError, non-syntax errors give the identical response, so the original error is never echoed. |
| ErrorHandler.AppErrorsStayDistinct | backend/src/middleware/errorHandler.ts:24-33 | Distinct AppErrors give distinct responses. |
| Validators.ValidateEmail | backend/src/utils/validators.ts:3-6 | A string without '@' is refused. An accepted address is trimmed, has a non-empty local part before its first '@', and has at least three characters after it. |
| Validators.ValidateEmailIsShape | backend/src/utils/validators.ts:3-6 | validateEmail accepts exactly the strings with no whitespace and exactly one '@'. That '@' has a non-empty local part before it. After it comes a domain holding a '.' with at least one character on each side. |
| Validators.ValidateEmailIsPattern | backend/src/utils/validators.ts:3-6 | validateEmail accepts exactly the strings the regular expression matches: three non-empty runs free of whitespace and '@', joined by '@' and then '.'. |
| Validators.ValidatePassword | backend/src/utils/validators.ts:8-19 | valid holds iff the length is at least 4. errors is empty when valid, and otherwise holds exactly the one policy message. |
| Validators.ValidateUsername | backend/src/utils/validators.ts:21-23 | True iff some character is not whitespace, i.e. the trimmed string is non-empty. There is no length or charset check. |
| Validators.AnswerEmits | backend/src/utils/validators.ts:25-95 | For each payload form, the answer reports each failing field exactly once, with that field's message, in the form's check order. It reports no passing field. The answer is empty iff every field passes. |
| Validators.AnswerFieldsDistinct | backend/src/utils/validators.ts:25-95 | No field is reported twice. |
| Validators.ValidateRegisterInput | backend/src/utils/validators.ts:25-61 | The pushes build exactly the register answer: email, username, password, firstName, lastName, in that order. |
| Validators.RegisterPasswordMessage | backend/src/utils/validators.ts:40-50 | A non-string password is reported as "Password is required". A string shorter than 4 is reported with the policy message. A string of 4 or more is not reported. |
| Validators.ValidateLoginInput | backend/src/utils/validators.ts:63-76 | The pushes build exactly the login answer: email, then password. |
| Validators.LoginAcceptance | backend/src/utils/validators.ts:63-76 | Login input is accepted iff the email is a string validateEmail accepts and the password is a non-empty string. There is no minimum length. |
| Validators.ValidateTaskInput | backend/src/utils/validators.ts:78-95 | The pushes build exactly the task answer: title, status, priority. |
| Validators.ErrorsJson | backend/src/controllers/authController.ts:16 | The serialised error list is bracketed as a JSON array, and "[]" when there are no errors. |
| Validators.InvalidInput | backend/src/controllers/taskController.ts:20-24 | The error handler answers it with 400 VALIDATION_ERROR whose message is the serialised error list, a JSON array. |
| Validators.TaskAcceptance | backend/src/utils/validators.ts:78-95 | Task input is accepted iff the title is a string with something besides whitespace, and status and priority are each falsy or one of their enumerated strings. |
| Validators.TaskTitleRequired | backend/src/utils/validators.ts:82-84 | A title that is not a non-blank string is always reported, with "Task title is required", whatever else the body holds. |
| Validators.TaskStatusOptional | backend/src/utils/validators.ts:86-88 | An absent or "" status is never reported. A status is reported iff it is truthy and not one of todo, in_progress, completed. |
| Validators.TaskPriorityOptional | backend/src/utils/validators.ts:90-92 | An absent or "" priority is never reported. A priority is reported iff it is truthy and not one of low, medium, high. |
| FrontendValidators.ValidateEmail | frontend/src/lib/validators.ts:1-4 | Accepts exactly the strings the backend's validateEmail accepts. |
| FrontendValidators.ValidatePassword | frontend/src/lib/validators.ts:6-17 | valid holds iff the length is at least 4. errors is empty when valid, and otherwise holds exactly the frontend's one message. |
| FrontendValidators.ValidateUsername | frontend/src/lib/validators.ts:19-21 | Agrees with the backend check: true iff the trimmed string is non-empty. |
| Sanitization.StripAngleBrackets | backend/src/utils/sanitization.ts:11 | The result holds no '<' or '>' and is no longer than the input. A string without them is returned unchanged. |
| Sanitization.StripChar | backend/src/utils/sanitization.ts:11 | On one character, a '<' or '>' is deleted and anything else kept. With StripAppend this fixes the result on every string. |
| Sanitization.StripTag | backend/src/utils/sanitization.ts:11 | A bracket-free text between '<' and '>' keeps just the text. |
| Sanitization.StripBetweenTags | backend/src/utils/sanitization.ts:11 | Text between two bracket-free tags loses exactly the four brackets. |
| Sanitization.ScriptTagStripped | backend/src/utils/sanitization.ts:11 | "<script>hi</script>" becomes "scripthi/script": the brackets go, the tag names stay. |
| Sanitization.StripAppend | backend/src/utils/sanitization.ts:11 | Removing angle brackets works character by character: it distributes over concatenation. |
| Sanitization.SanitizeString | backend/src/utils/sanitization.ts:5-14 | A non-string gives "". A string gives the first 1000 characters of its trimmed, bracket-free form. So a result has no angle brackets, is at most 1000 long and does not start with whitespace. A string that is already bracket-free, trimmed and at most 1000 long is returned unchanged. |
| Sanitization.SanitizedScriptTag | backend/src/utils/sanitization.ts:5-14 | The string "<script>hi</script>" is sanitised to "scripthi/script". |
| Sanitization.KeepStrings | backend/src/utils/sanitization.ts:35 | The filter keeps no more entries than it is given. |
| Sanitization.SanitizeEach | backend/src/utils/sanitization.ts:36 | The map keeps the number of entries. |
| Sanitization.KeepNonEmpty | backend/src/utils/sanitization.ts:37 | The second filter keeps only non-empty entries and no more than it is given. |
| Sanitization.SanitizeArray | backend/src/utils/sanitization.ts:29-38 | A non-array gives []. An array gives no more tags than it has entries. |
| Sanitization.SanitizeArrayIsEntries | backend/src/utils/sanitization.ts:34-37 | The filter/map/filter pipeline equals entry-by-entry processing: each string entry is sanitised, and kept if the result is non-empty. |
| Sanitization.SanitizedEntriesAppend | backend/src/utils/sanitization.ts:34-37 | The result for a concatenation is the concatenation of the results, so input order is kept. |
| Sanitization.SanitizedEntriesSingle | backend/src/utils/sanitization.ts:34-37 | One entry gives its sanitised string if it is a string that sanitises to something non-empty, and nothing otherwise. |
| Sanitization.SanitizedEntriesLength | backend/src/utils/sanitization.ts:34-37 | There are never more tags than entries. |
| Sanitization.SanitizedEntriesClean | backend/src/utils/sanitization.ts:34-37 | Every tag is non-empty, has no angle brackets, is at most 1000 long and does not start with whitespace. |
| Sanitization.DuplicatesKept | backend/src/utils/sanitization.ts:34-37 | A clean tag listed twice comes out twice. |
| Sanitization.SanitizeEmail | backend/src/utils/sanitization.ts:16-22 | A non-string gives "". A result has no upper-case letter, is at most 254 long and does not start with whitespace. An input whose trimmed length is at most 254 gives exactly its lower-cased, trimmed form. |
| Text.TrimIsSlice | backend/src/utils/sanitization.ts:12 | `trim` returns a contiguous slice of its input, and everything cut off before and after that slice is whitespace. |
| Text.TrimBounds | backend/src/utils/sanitization.ts:12 | Computes the bounds of that slice. |
| Sanitization.TrimLower | backend/src/utils/sanitization.ts:21 | Lower-casing and trimming commute: lower-casing keeps whitespace where it is, so trim removes the same characters either way. |
| Jwt.ExtractTokenFromHeader | backend/src/utils/jwt.ts:19-24 | An absent or empty header gives null. A returned token never contains a space. |
| Jwt.ExtractBearer | backend/src/utils/jwt.ts:21-23 | Round trip: "Bearer " + t gives back t for every t without a space. |
| Jwt.ExtractOnlyBearer | backend/src/utils/jwt.ts:21-22 | A token is returned only when the header is exactly "Bearer " followed by that token. |
| Jwt.EmptyBearerToken | backend/src/utils/jwt.ts:21-23 | "Bearer " gives the empty token, not null. |
| Jwt.DoubleSpaceRejected | backend/src/utils/jwt.ts:22 | "Bearer" followed by two spaces gives null. |
| Jwt.ExtraWordRejected | backend/src/utils/jwt.ts:22 | A third word gives null. |
| Jwt.LowerCaseSchemeRejected | backend/src/utils/jwt.ts:22 | The scheme is case-sensitive: "bearer " gives null. |
| AuthMiddleware.Unauthorized | backend/src/middleware/auth.ts:48-55 | The gate's answer is an error envelope with HTTP status 401 and statusCode 401, carrying the given code and message. |
| AuthMiddleware.GateDecision | backend/src/middleware/auth.ts:17-55 | The request proceeds iff the header yields a non-empty token that verifies, and then with exactly the verified claims. Every rejection is a 401 envelope. No token at all gives UNAUTHORIZED "Missing authorization token". |
| AuthMiddleware.Authenticate | backend/src/middleware/auth.ts:10-57 | When the decision is to proceed, req.user is set to the verified claims and no response is written. Otherwise exactly the decided 401 response is written and req.user is left as it was. |
| AuthMiddleware.RejectionsAre401 | backend/src/middleware/auth.ts:17-55 | Every rejection is a 401 envelope with code UNAUTHORIZED, TOKEN_EXPIRED or INVALID_TOKEN. It is the same envelope the error handler writes for that AppError. |
| AuthMiddleware.MissingTokenRejected | backend/src/middleware/auth.ts:17-30 | A header that yields no token or an empty one gives 401 UNAUTHORIZED "Missing authorization token", whatever verification would say. |
| AuthMiddleware.EmptyBearerRejected | backend/src/middleware/auth.ts:18-20 | "Bearer " alone is treated as a missing token. |
| AuthMiddleware.VerifiedTokenProceeds | backend/src/middleware/auth.ts:32-34 | A well-formed bearer header whose token verifies proceeds with exactly the verified claims. |
| AuthMiddleware.ExpiredTakesPrecedence | backend/src/middleware/auth.ts:39-43 | An error whose message contains "expired" gives TOKEN_EXPIRED with the expiry message, even when it also mentions "invalid" or "malformed". |
| AuthMiddleware.OtherFailuresInvalid | backend/src/middleware/auth.ts:36-46 | Every other failure gives INVALID_TOKEN. The message is "Invalid or malformed token" iff the thrown value is an Error mentioning "malformed" or "invalid", and "Invalid token" otherwise. |
| TaskModel.ParseStatus | backend/src/models/Task.ts:23-27 | A status string is accepted iff it is one of todo, in_progress, completed, and then names the status it maps to. |
| TaskModel.ParsePriority | backend/src/models/Task.ts:28-32 | A priority string is accepted iff it is one of low, medium, high, and then names the priority it maps to. |
| TaskModel.StatusRoundTrip | backend/src/models/Task.ts:23-27 | Parsing a status's name gives that status back. |
| TaskModel.PriorityRoundTrip | backend/src/models/Task.ts:28-32 | Parsing a priority's name gives that priority back. |
| TaskModel.CastTitle | backend/src/models/Task.ts:11-17 | The title is accepted iff its trimmed form has 1 to 200 characters, and it is then stored trimmed. |
| TaskModel.CastStatus | backend/src/models/Task.ts:23-27 | An absent status defaults to todo. A string status must be one of the enumeration. |
| TaskModel.CastPriority | backend/src/models/Task.ts:28-32 | An absent priority defaults to medium. A string priority must be one of the enumeration. |
| TaskModel.BuildTask | backend/src/models/Task.ts:4-45 | A new document is accepted iff its title, status and priority cast. It then conforms to the schema: trimmed title of 1 to 200 characters and trimmed description. It keeps the owner and tags, and has no dueDate when none was given. |
| TaskModel.ConformsIsFixedPoint | backend/src/models/Task.ts:4-45 | The Task schema (Conforms) accepts exactly the tasks whose title and description its setters and validators leave unchanged. |
| TaskModel.ApplyUpdate | backend/src/models/Task.ts:4-45 | An update is accepted iff UpdateAccepted holds of it: the verdict depends on the update alone, not on the stored task. An accepted update yields a conforming task with the same owner and creation stamp. Every path the update does not name keeps its value, and every named path takes its cast value. An empty update changes nothing. |
| TaskModel.Strings | backend/src/models/Task.ts:37-40 | A list of strings is stored as exactly those strings, in order. |
| TaskModel.Newest | backend/src/controllers/taskController.ts:93-94 | The listing holds exactly the stored tasks matching the filter, each with its id, in strictly descending id order. |
| TaskModel.TaskStore.FindOne | backend/src/controllers/taskController.ts:133-136 | A task is found iff the id is stored and owned by the given user, and it is then the stored task. |
| TaskModel.TaskStore.Save | backend/src/controllers/taskController.ts:42 | A document the schema accepts is stored under the next id and the counter advances. A refused document changes nothing. The store invariant is kept. |
| TaskModel.TaskStore.FindOneAndUpdate | backend/src/controllers/taskController.ts:199-206 | The update is validated before the lookup. A refused update raises an error and changes nothing, whether or not the task exists. An accepted update answers none and changes nothing when the id is not the owner's task. Otherwise exactly that task is replaced by its updated form, which is returned. |
| TaskModel.TaskStore.FindOneAndDelete | backend/src/controllers/taskController.ts:240-243 | It returns what FindOne would, and removes exactly that id when found. |
| TaskModel.TaskStore.Find | backend/src/controllers/taskController.ts:93-94 | Every listed entry is a stored task under its own id that matches the filter. Ids strictly decrease down the list. In a valid store, every matching task is listed. |
| TaskModel.NewestFirst | backend/src/controllers/taskController.ts:93-94 | In a valid store the listing is ordered newest first: creation stamps strictly decrease. |
| TaskController.OrElse | backend/src/controllers/taskController.ts:35-39 | `v || d`: v when truthy, otherwise the fallback. |
| TaskController.CreateTask | backend/src/controllers/taskController.ts:10-62 | No caller gives 401 and stores nothing. Validation errors give 400 VALIDATION_ERROR with the list, and store nothing. Otherwise the built task is stored under a fresh id and returned, or the schema refuses it: a 500 with nothing stored. Every task of another user stays as it was. |
| TaskController.AcceptedDraftCasts | backend/src/controllers/taskController.ts:36-39 | After validation, status and priority always cast: to the given value when truthy, otherwise to todo and medium. |
| TaskController.CreatedTaskContents | backend/src/controllers/taskController.ts:32-40 | An accepted body is stored iff its sanitised, trimmed title has 1 to 200 characters. The task then has owner = caller, a sanitised title and description, the status/priority given or todo/medium, a dueDate only when truthy, and tags = sanitizeArray(tags). |
| TaskController.BracketOnlyTitleRefused | backend/src/controllers/taskController.ts:34 | A title of "<>" sanitises to "" and the schema refuses the task. |
| TaskController.PageNumber | backend/src/controllers/taskController.ts:72 | The page is always at least 1. |
| TaskController.PageLimit | backend/src/controllers/taskController.ts:73 | The limit is always between 1 and 100. |
| TaskController.DefaultPaging | backend/src/controllers/taskController.ts:72-73 | A page or limit that parses to no number, or to 0, is falsy under `\|\|` and falls back to page 1 or limit 10. |
| TaskController.NoNumberValues | backend/src/controllers/taskController.ts:72-73 | Absent, null, "0" and any string that starts with something other than whitespace, a sign or a digit all take that fallback. |
| TaskController.MissingPaging | backend/src/controllers/taskController.ts:72-73 | Without page and limit in the query, page 1 and limit 10 are used. |
| TaskController.IntOr | backend/src/controllers/taskController.ts:72-73 | `parseInt(x) \|\| d`: d when the value parses to no number or to 0, otherwise the non-zero parsed number. |
| Text.ParseInt | backend/src/controllers/taskController.ts:72-73 | Only whitespace, or nothing, gives NaN. A result read after a '-' is never positive, and any other result is never negative. |
| Text.ParseIntSkipsWhitespace | backend/src/controllers/taskController.ts:72-73 | Leading whitespace does not change what parseInt reads. |
| Text.ParseIntDecimal | backend/src/controllers/taskController.ts:72-73 | The decimal numeral of a natural number parses back to it. |
| Text.ParseIntOfLetter | backend/src/controllers/taskController.ts:72-73 | A string starting with something other than whitespace, a sign or a digit parses to NaN. |
| TaskController.NumeralPaging | backend/src/controllers/taskController.ts:72-73 | A positive decimal page is used as given. A positive decimal limit is used capped at 100. |
| TaskController.CeilDiv | backend/src/controllers/taskController.ts:119 | pages = ceil(total / limit): pages·limit covers total, and one page fewer does not. |
| TaskController.QueryString | backend/src/controllers/taskController.ts:79-91 | A filter is applied iff the query value is a non-empty string. |
| TaskController.ListFilter | backend/src/controllers/taskController.ts:76 | Every list query is scoped to the caller. |
| TaskController.PageSlice | backend/src/controllers/taskController.ts:93-96 | The page skips (page-1)·limit matches and holds the next min(limit, remaining) of them, in order. |
| TaskController.GetTasks | backend/src/controllers/taskController.ts:64-123 | No caller gives 401. Otherwise data is the page of the caller's matches, newest first; total counts all matches; page and limit are the clamped values; pages = ceil(total/limit). |
| TaskController.PageHoldsCallersTasks | backend/src/controllers/taskController.ts:76 | Every item of a page is one of the caller's tasks, exactly as stored. |
| TaskController.EveryTaskOnItsPage | backend/src/controllers/taskController.ts:74 | The i-th match appears on page i div limit + 1, which is within the reported number of pages. |
| TaskController.PastLastPageEmpty | backend/src/controllers/taskController.ts:74 | A page beyond ceil(total/limit) is empty. |
| TaskController.SecondPageOfFifteen | backend/src/controllers/taskController.ts:74 | Of 15 matches at limit 10, page 2 holds the last 5 and there are 2 pages. |
| TaskController.GetTaskById | backend/src/controllers/taskController.ts:125-159 | No caller gives 401. The caller's own task is returned. A missing id and another user's task both give the same 404 TASK_NOT_FOUND. |
| TaskController.WithString | backend/src/controllers/taskController.ts:180-191 | One string step of the builder: the key is copied iff the body holds a string there, and nothing else changes. |
| TaskController.WithDueDate | backend/src/controllers/taskController.ts:192-194 | The dueDate step: copied whenever the key is present, with a falsy value becoming undefined. |
| TaskController.WithTags | backend/src/controllers/taskController.ts:195-197 | The tags step: copied iff the body holds an array there. |
| TaskController.TaskUpdateFields | backend/src/controllers/taskController.ts:178-197 | The update names only the six task fields. title, description, status and priority are copied iff strings. dueDate is copied iff present, falsy as undefined. tags are copied iff an array. Nothing is sanitised. |
| TaskController.BuildTaskUpdate | backend/src/controllers/taskController.ts:178-197 | The field-by-field builder produces exactly that update. |
| TaskController.UpdateTask | backend/src/controllers/taskController.ts:161-230 | No caller gives 401 and validation errors give 400; neither changes anything. An update the schema refuses gives 500 with nothing changed, whichever id is asked for. An accepted update of a task that is not the caller's gives 404 and changes nothing. Otherwise only that task is replaced by its updated form. Every task of another user stays as it was. |
| TaskController.EmptyStatusRefusedBySchema | backend/src/controllers/taskController.ts:166-206 | The body {title: "a", status: ""} passes validateTaskInput but the status enum refuses it, so for any id it ends in the 500, not the 404. |
| TaskController.UpdateKeepsUnnamedFields | backend/src/controllers/taskController.ts:178-197 | An accepted update always names the title. Every field the body does not name, and the owner and creation stamp, keep their values. |
| TaskController.UpdateTagsUnsanitised | backend/src/controllers/taskController.ts:195-197 | Whenever an update with a tags array is accepted, the tags are stored exactly as sent, angle brackets included: no sanitisation. |
| TaskController.DeleteTask | backend/src/controllers/taskController.ts:232-253 | No caller gives 401. The caller's task is removed, and nothing else: every task of another user stays as it was. Another user's or a missing task gives 404 with nothing changed. Afterwards the id is not found, so a second delete gives 404. |
| UserModel.CastEmail | backend/src/models/User.ts:6-13 | The stored email is trimmed and has no upper-case letter. Its length is that of the trimmed input. |
| UserModel.CastEmailOfLower | backend/src/controllers/authController.ts:71 | Casting a lower-cased email gives the same value as casting the email itself. |
| UserModel.CastEmailCanonical | backend/src/models/User.ts:10-11 | A lower-case, trimmed email is its own cast. |
| UserModel.Cast | backend/src/models/User.ts:4-45 | new User casts the email, trims username and names, keeps the password and has no profile image. |
| UserModel.CastConforms | backend/src/models/User.ts:4-45 | The validators accept a new user iff its cast email matches the pattern, its trimmed username has 3 to 30 characters, its stored password has at least 8, and neither trimmed name is empty. |
| UserModel.ConformingUserRecasts | backend/src/models/User.ts:4-45 | A user the User schema (Conforms) accepts is a fixed point of `new User`: casting its own fields gives it back, and the schema accepts it again. |
| UserModel.ApplyProfile | backend/src/models/User.ts:27-40 | A profile update is accepted iff no named name trims to empty. The result conforms. It keeps email, username, password and stamp, and changes exactly the named fields, names trimmed. |
| UserModel.First | backend/src/controllers/authController.ts:25 | The first matching user in id order, or none when no user below the bound matches. |
| UserModel.UserStore.FindOne | backend/src/controllers/authController.ts:71 | A found user is stored and matches. When none is found, no stored user matches. |
| UserModel.UserStore.FindById | backend/src/controllers/profileController.ts:16 | Found iff the id is stored, and then the stored user. |
| UserModel.UserStore.Insert | backend/src/controllers/authController.ts:47 | The document is stored iff the validators accept it and neither its email nor its username is taken. It is then stored under the next id, stamped. Otherwise nothing changes. Emails and usernames stay unique. |
| UserModel.UserStore.FindByIdAndUpdate | backend/src/controllers/profileController.ts:67-70 | The update is validated before the lookup. A refused update raises an error and changes nothing, whether or not the user exists. An accepted update answers none for a missing id and changes nothing. Otherwise exactly that user is replaced by its updated form, which is returned. |
| UserModel.AddKeepsStamped | backend/src/models/User.ts:43 | Storing a conforming user stamped with the counter keeps every user conforming and stamped below the counter. |
| UserModel.AddKeepsUnique | backend/src/models/User.ts:9-17 | Adding a user whose email and username are free keeps both unique. |
| UserModel.ReplaceKeepsUnique | backend/src/models/User.ts:9-17 | Replacing a user by one with the same email and username keeps both unique. |
| AuthController.PayloadOf | backend/src/controllers/authController.ts:49-53 | The public payload is exactly id, email and username. |
| AuthController.Conflict | backend/src/controllers/authController.ts:26-33 | 409. EMAIL_EXISTS iff the existing user's email equals the submitted email exactly, USERNAME_EXISTS otherwise. The message names that field. |
| AuthController.RegisterUser | backend/src/controllers/authController.ts:13-60 | Validation errors give 400 and create no user. Otherwise a clash found by the lookup gives its 409 and stores nothing. A new user the schema accepts is stored under a fresh id, and its payload is returned. A refused one gives 500 with nothing stored. |
| AuthController.CreateUser | backend/src/controllers/authController.ts:24-53 | The lookup, new User and save, as RegisterUser states. |
| AuthController.NoClashIsAvailable | backend/src/controllers/authController.ts:25-47 | When the lookup finds no one, the new user's email and username are free, so only the schema's validators can refuse it. |
| AuthController.RegisteredUserContents | backend/src/controllers/authController.ts:39-45 | The new user's email is lower-cased and trimmed, and its password is the hash of the submitted one. |
| AuthController.UpperCaseEmailReportedAsUsername | backend/src/controllers/authController.ts:25-33 | A submitted email with an upper-case letter never gets EMAIL_EXISTS: any clash is reported on the username. |
| AuthController.CaseVariantFound | backend/src/controllers/authController.ts:25 | A stored user whose email is the cast of the submitted one is found by the lookup. |
| AuthController.LoginUser | backend/src/controllers/authController.ts:62-102 | Nothing changes. Validation errors give 400. An unknown email and a wrong password give the identical 401 INVALID_CREDENTIALS "Invalid email or password". Success happens iff a user with the lower-cased email exists whose stored hash matches. It returns a token signed over that user's id and email, with the user's payload. |
| AuthController.OnlyOneWithEmail | backend/src/models/User.ts:9 | In a valid store at most one user has a given email. |
| AuthController.RegisterThenLogin | backend/src/controllers/authController.ts:36-80 | After a successful registration, the submitted email and password meet the condition for a successful login, given that comparison accepts a password against its own hash. |
| AuthController.LogoutUser | backend/src/controllers/authController.ts:104-109 | Always 200, with no state to change. |
| ProfileController.ProfileOf | backend/src/controllers/profileController.ts:21-30 | The profile carries every stored field but the password. |
| ProfileController.GetUserProfile | backend/src/controllers/profileController.ts:8-36 | No caller gives 401. A missing user gives 404 USER_NOT_FOUND. Otherwise the caller's own record is returned, without the password. |
| ProfileController.WithName | backend/src/controllers/profileController.ts:49-54 | A name is added, trimmed, iff it is a string with something besides whitespace. |
| ProfileController.WithImage | backend/src/controllers/profileController.ts:55-57 | The image is added iff it is a string, "" included. |
| ProfileController.ProfileUpdateFields | backend/src/controllers/profileController.ts:46-57 | The update names at most firstName, lastName and profileImage, each under exactly the conditions above. |
| ProfileController.BuildProfileUpdate | backend/src/controllers/profileController.ts:46-57 | The field-by-field builder produces exactly that update. |
| ProfileController.ProfileUpdateAccepted | backend/src/controllers/profileController.ts:67-70 | The schema's validators never refuse an update the builder made, whichever user it is applied to. |
| ProfileController.UpdateUserProfile | backend/src/controllers/profileController.ts:38-92 | No caller gives 401. No qualifying field gives 400 "No valid fields to update". Neither changes anything. A missing user gives 404 USER_NOT_FOUND. Otherwise only the caller's record is updated and returned without the password. |
| ProfileController.ProfileUpdateKeepsAccount | backend/src/controllers/profileController.ts:46-70 | A profile update never changes the email, username or password, and changes no other user. |

## Left out

- backend/src/config/constants.ts is not part of this model. The status numbers are
  the standard HTTP ones, and each error code is taken to be the string of its own name.
- Mongoose applies a schema path's setters (lowercase, trim) to query filter values as
  well as to documents. The model relies on this for the register and login lookups.
  The Mongoose version is not part of this model.
- JavaScript numbers are floating point. Body and query numbers are modelled as integers,
  and only their truthiness is inspected. `sanitizeNumber` is left out for the same reason.
- `toLowerCase` maps the ASCII letters only. Other case mappings of Unicode are not
  modelled.
- Mongoose's casting of non-string values is not modelled: a number title cast to a
  string, a date string cast to a Date. A non-string where the schema wants a string is
  a refusal, and a dueDate is stored as given.
- `updatedAt` and real timestamps are not modelled. `createdAt` is the store counter, so
  two tasks never tie.
- Ids are natural numbers, so a malformed ObjectId and the CastError 500 it causes are
  not modelled.
- Password hashing and comparison, token signing and verification, the clock and the
  token TTL are function parameters. The bcrypt hash length is not modelled: the schema
  checks whatever string the hash function returns.
- MongoDB's `$text` search is the predicate parameter `textMatch`. `findOne` without a
  sort returns the lowest matching id (insertion order).
- Concurrency is not modelled. Neither is the race between the duplicate lookup and the
  unique index, nor connection handling.
- Success envelopes (`success: true`, `message`, `data`) are not modelled. The model
  keeps only the data they carry and the status of the error answers.
- `JSON.stringify` of the validation errors is a plain serialisation without string
  escaping. Only its bracketing is stated (Validators.ErrorsJson).
- Logging, the Express routers, `asyncHandler`, CORS and environment loading are not
  modelled. Neither are the React pages and frontend/src/lib/api.ts and
  frontend/src/lib/auth.ts.
- An exception thrown by `next()` inside the gate's `try` block is not modelled.
- Lengths are counted in Unicode code points. JavaScript's `.length` and `.slice` and
  Mongoose's minlength/maxlength count UTF-16 code units, so a character outside the
  Basic Multilingual Plane counts once here and twice there. The members this weakens
  follow.
- Validators.ValidatePassword: the minimum of 4 is checked on code points, not UTF-16 code units.
- FrontendValidators.ValidatePassword: the minimum of 4 is checked on code points, not UTF-16 code units.
- TaskModel.CastTitle: the 1 to 200 bound is checked on code points, not UTF-16 code units.
- UserModel.Conforms: the username and stored password bounds are checked on code points, not UTF-16 code units.
- Sanitization.SanitizeString: the 1000 limit is applied to code points, so a cut never splits a surrogate pair.
- Sanitization.SanitizeEmail: the 254 limit is applied to code points, so a cut never splits a surrogate pair.
- TaskModel.ApplyUpdate: an `undefined` dueDate is dropped from the update and never clears
  a stored date. Mongoose 7 and later strip undefined keys from an update; older
  versions could send null and clear it.
- TaskController.UpdateTask: a falsy dueDate in the body becomes `undefined`, so under the
  behaviour above it leaves the stored date as it was.
- Sanitization.SanitizeArray: its own contract states only the non-array case and the
  length bound. Order, filtering, cleanliness and duplicates are stated by
  SanitizeArrayIsEntries, SanitizedEntriesAppend, SanitizedEntriesSingle,
  SanitizedEntriesClean and DuplicatesKept.
- AuthController.RegisterUser: its contract is stated through the predicate
  `Registered`, which lists the conflict, insert and refusal outcomes. The validation
  acceptance conditions for registration are stated by Validators.AnswerEmits.
