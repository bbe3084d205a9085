# Pharmacy inventory: server record rules and client data functions

This project models the core of a small medicine-inventory application.
The application has two parts.

- An Express server (`backend/server.js`). It registers users with bcrypt
  hashes, logs them in with one-hour JSON Web Tokens, and guards the
  medicine routes with an authorization gate. It keeps medicine records,
  each with two optional attachment references, in a database.
- A React page (`frontend/src/MedicineApp.jsx`). It lists the records,
  filters them by a search text, turns attachment references into URLs,
  and submits a form to create or edit a record.

The Dafny modules are:

- `Wrappers`: the `Option` type.
- `JsText`: the JavaScript built-ins the core relies on, written out.
  These are truthiness of a string, `toLowerCase`, `includes`,
  `startsWith`, `split` and `pop`, `String(n)` and `parseInt`.
- `NodePath`: `path.basename` for POSIX paths.
- `Crypto`: bcryptjs and jsonwebtoken, kept abstract. Each is a pair of
  functions the model does not look inside. What the lemmas rely on is
  stated as `BcryptSound` (a password matches every hash made from it)
  and `JwtSound`. `JwtSound` has three parts: a signed token verifies to
  its claims exactly until its expiry; no token whatever verifies to
  claims that have expired; a signed token is compact (non-empty, without
  a space).
- `Uploads`: multer's file-name rule and the two `toPublicPath` closures.
- `Gate`: `authMiddleware`, as a decision on the `Authorization` header.
- `Server`: the record rules of create and update as functions, and a
  class `Server` that holds the user table (keyed by username), the
  medicine table (keyed by id) and their auto-increment counters. Its
  methods are the register, create, update and delete handlers. Login and
  list read the tables and change nothing, so they are functions.
- `MedicineApp`: the search filter, `resolveImageUrl`, the `FormData`
  body built by `handleSubmit`, and a class `MedicinePage` holding the
  component state that `handleSubmit`, `handleEdit`, `handleCancel` and
  `load` update.
- `EndToEnd`: the two parts together. It covers what the server reads
  from the body the client builds, which row an edit reaches, and the URL
  the client shows for an attachment the server stored.

The clock is a parameter (`nowMs`, milliseconds). The random bcrypt salt
is a parameter (`salt`). A store failure other than the ones the rules
decide (a taken username, a missing required field, an unknown id) is a
parameter too (`storeFails`). Whether the client's HTTP call succeeded is
the parameter `saved` of `HandleSubmit`.

Decisions where the code, not a description of it, is followed:

- A missing `Authorization` header and an empty one are both "No token",
  because the gate tests the header for truthiness.
- A header without a space, or with nothing after the first space, is
  "Invalid token": jsonwebtoken throws on an absent or empty token.
- A request that is not multipart leaves `req.files` undefined. Both
  medicine handlers then throw inside their `try`, so the answer is 500.
- In an update, a text field the client did not send is `undefined`, and
  the store leaves that column alone. `age` is always rewritten, because
  `parseInt(undefined)` is `NaN`, not `undefined`.
- `parseInt` is modelled as ECMAScript defines it without a radix:
  leading white space, an optional sign, an optional `0x` prefix, then the
  longest run of digits, or `NaN` when there is none.
- Usernames are unique, so registering a taken username always fails.
  Any other store failure is the `storeFails` parameter.

## Model

| member | source | states |
|---|---|---|
| JsText.ToLower | frontend/src/MedicineApp.jsx:105 | the result has the input's length; each upper-case ASCII letter becomes its lower-case letter, and every other character is kept |
| JsText.Includes | frontend/src/MedicineApp.jsx:105 | true exactly when the second string occurs in the first at some offset |
| JsText.Split | frontend/src/MedicineApp.jsx:112 | at least one field; no field holds a separator; a single field is the whole input |
| JsText.JoinSplit | frontend/src/MedicineApp.jsx:112 | joining the fields of a split with the separator gives back the input |
| JsText.SplitJoin | backend/server.js:59 | splitting separator-free parts joined by the separator gives back the parts |
| JsText.LastSegment | frontend/src/MedicineApp.jsx:112 | the result is separator-free and a suffix of the input, preceded by a separator or by nothing |
| JsText.LastSegmentAfter | frontend/src/MedicineApp.jsx:112 | the last segment of `a + sep + b` is `b` when `b` has no separator |
| JsText.DecimalString | backend/server.js:25 | `String(n)` for a natural number: non-empty, all digits, no leading zero |
| JsText.DecimalStringInjective | backend/server.js:25 | different timestamps give different digit strings |
| JsText.ParseInt | backend/server.js:90 | a number comes back only when the input holds a digit; NaN otherwise |
| JsText.ParseIntOfIntString | backend/server.js:127 | `parseInt(String(i)) == i` for every integer, negatives included |
| NodePath.StripTrailingSlashes | backend/server.js:80 | the result is a prefix without a trailing slash, and only slashes were removed |
| NodePath.Basename | backend/server.js:80 | the basename holds no slash and is no longer than the path |
| NodePath.BasenameOfJoin | backend/server.js:80 | the basename of `dir/name` is `name` for a non-empty name without a slash |
| Crypto.TokenClaims | backend/server.js:49 | the claims carry the user's id; a token expires one hour after its issue second, and that second is the one holding the issue instant |
| Uploads.ToPublicPath | backend/server.js:78-85 | a reference exists exactly for a truthy path; it is `/uploads/` followed by the path's basename, one segment |
| Uploads.StoredFilenameInjective | backend/server.js:25 | two uploads share a stored name only with the same timestamp and the same original name |
| Uploads.StoredFilenameIsSegment | backend/server.js:25 | the stored name is one non-empty path segment |
| Uploads.PublicPathOfUpload | backend/server.js:25 | the reference of an upload is `/uploads/<now>-<originalname>`, whatever the upload directory |
| Gate.BearerToken | backend/server.js:59 | a second space-separated field exists exactly when the header holds a space, and it holds no space |
| Gate.Authorize | backend/server.js:56-67 | a falsy header is "No token"; any other rejection is "Invalid token"; admission happens exactly when the second field is non-empty and verifies now, and carries the verified claims |
| Gate.BearerTokenOfHeader | backend/server.js:59 | `Bearer <token>` yields the token for any compact token |
| Gate.TokenLifetimeAtGate | backend/server.js:49 | an issued token is admitted exactly until the end of the hour after its issue second, as the user it was issued for |
| Gate.AdmittedClaimsUnexpired | backend/server.js:60-62 | admitted claims are never expired; this holds because the gate admits only claims that verify returned, and it rests on the assumption in `JwtSound` that no token verifies to expired claims |
| Server.NewItem | backend/server.js:78-99 | a row exists exactly when the four text fields were sent; it holds them and the parsed age; each attachment is `ToPublicPath` of its upload path, that is `/uploads/` plus the basename, or none without an upload |
| Server.Patch | backend/server.js:118-137 | the five scalar fields are rewritten (an absent text field keeps its column); an attachment changes only with a truthy upload path, and then becomes `ToPublicPath` of that path |
| Server.PatchWithoutFilesKeepsAttachments | backend/server.js:134-135 | an update without files keeps both attachment references |
| Server.PatchIdempotent | backend/server.js:126-137 | applying the same update twice is the same as once |
| Server.PatchKeepsPublicAttachments | backend/server.js:118-124 | an update keeps every attachment a public `/uploads/` reference |
| Server.FullPatchIsCreate | backend/server.js:87-99 | an update that sends every field and both files gives the row a create would build under that id |
| Server.RowsExact | backend/server.js:106 | the rows in an id range are exactly the table's rows in that range, in ascending id order |
| Server.ListAfterCreate | backend/server.js:89 | after a create the list is the old list with the new row at its end |
| Server.ListAfterDelete | backend/server.js:147 | after a delete the list is the old list without that row, the others in order |
| Server.ListAfterUpdate | backend/server.js:126 | after an update the row changes where it stands; the list keeps its length and order |
| Server.Server.Register | backend/server.js:29-38 | on success the user is stored under its username with the bcrypt hash of the password and the next id; a missing field, a taken username or a store failure is 500 with the tables unchanged; the medicine table never changes |
| Server.Server.Login | backend/server.js:40-54 | 200 exactly when the user exists and the password matches its hash, with a token over that user's id; an unknown user and a wrong password both give the same 401 |
| Server.Server.List | backend/server.js:105-108 | a rejected caller gets the gate's 401; an admitted one gets every row of the table, each as stored, in id order |
| Server.Server.Create | backend/server.js:69-103 | a rejected caller gets the gate's 401; otherwise the row is added under the next id, or it is 500 and nothing changes; the user table never changes |
| Server.Server.Update | backend/server.js:110-143 | a rejected caller gets the gate's 401; an id that parses to an existing row gets it replaced by its patch; anything else is 500 and nothing changes |
| Server.Server.Delete | backend/server.js:145-152 | a rejected caller gets the gate's 401; an id that parses to an existing row removes exactly that row; anything else is 500 and nothing changes |
| Server.LoginFailuresAlike | backend/server.js:43-47 | an unknown username and a wrong password give identical responses |
| Server.RegisteredUserLogsIn | backend/server.js:31-50 | a registered password logs in, and the token passes the gate as that user until it expires |
| Server.ListIgnoresCaller | backend/server.js:105-108 | any two admitted callers see the same list |
| MedicineApp.Present | frontend/src/MedicineApp.jsx:104 | exactly the present, non-empty fields are kept |
| MedicineApp.AnyIncludes | frontend/src/MedicineApp.jsx:105 | true exactly when some field, lowered, contains the query |
| MedicineApp.MatchesIff | frontend/src/MedicineApp.jsx:102-106 | an item is shown exactly when one of its four fields is non-empty and contains the search text, both lowered |
| MedicineApp.EmptySearchMatches | frontend/src/MedicineApp.jsx:104-105 | an empty search shows exactly the items with a non-empty field among the four |
| MedicineApp.MatchesIgnoresCase | frontend/src/MedicineApp.jsx:105 | the case of the search text does not matter |
| MedicineApp.Filter | frontend/src/MedicineApp.jsx:102-106 | the result holds exactly the matching items and is no longer than the list |
| MedicineApp.FilterIsSubsequence | frontend/src/MedicineApp.jsx:102 | the result is the list's subsequence at exactly the matching positions, in order, so the shown count never exceeds the total (lines 394-395) |
| MedicineApp.ResolveImageUrl | frontend/src/MedicineApp.jsx:108-114 | null exactly for a falsy path; a path starting with `http` is returned unchanged; a path starting with `/` gets the API origin in front; any other path becomes the origin, `/uploads/` and its last segment after `/` or `\`; every URL starts with `http` |
| MedicineApp.ResolveIdempotent | frontend/src/MedicineApp.jsx:108-114 | resolving a resolved URL changes nothing |
| MedicineApp.ResolveUploadsReference | frontend/src/MedicineApp.jsx:111 | `/uploads/<f>` resolves to `http://localhost:4000/uploads/<f>` |
| MedicineApp.ResolveRelativePath | frontend/src/MedicineApp.jsx:112-113 | a relative path, with `/` or `\` separators, resolves to its file name under `/uploads/` |
| MedicineApp.FormDataContents | frontend/src/MedicineApp.jsx:47-50 | the body holds the five fields in order, then file entries only: one exactly for each picked file |
| MedicineApp.BuildFormData | frontend/src/MedicineApp.jsx:47-50 | the append loop builds the body the form and the picked files determine |
| MedicineApp.SubmitRequest | frontend/src/MedicineApp.jsx:53-57 | a PUT exactly when `editId` is truthy, carrying the form body either way |
| MedicineApp.FormOf | frontend/src/MedicineApp.jsx:72-78 | each of the five form values is sent as the item's value for that field (the age as its decimal string), and a null value as "null" |
| MedicineApp.MedicinePage.Shown | frontend/src/MedicineApp.jsx:102-106 | the shown rows are exactly the items matching the current search |
| MedicineApp.MedicinePage.Load | frontend/src/MedicineApp.jsx:35-42 | a fetched list replaces the items; a failed fetch changes nothing |
| MedicineApp.MedicinePage.HandleEdit | frontend/src/MedicineApp.jsx:71-81 | the form takes the item's scalar fields, `editId` its id, the form opens; the picked files and previews are untouched |
| MedicineApp.MedicinePage.HandleCancel | frontend/src/MedicineApp.jsx:94-100 | the state is cleared: empty form, no files or previews, no `editId`, form closed |
| MedicineApp.MedicinePage.HandleSubmit | frontend/src/MedicineApp.jsx:44-69 | sends the request the old state determines; a save clears the state as a cancel does, a failure keeps it; loading ends false |
| EndToEnd.FirstField | backend/server.js:73 | a value is found only if such a field was sent, and none only if none was |
| EndToEnd.ReceivedFormFields | backend/server.js:73 | the server reads back each form value as the string the client appended (frontend/src/MedicineApp.jsx:48) |
| EndToEnd.ReceivedFormFiles | backend/server.js:82-83 | the server sees an upload exactly for each file the client picked, stored as `<ms>-<name>` with `ms` the instant of that file, taking the name the client picked as multer's `originalname` |
| EndToEnd.ClientItem | backend/server.js:107 | the client sees each row's id, four text fields and references as stored, and the age exactly when it is a number, with that value |
| EndToEnd.EditTargetsItem | frontend/src/MedicineApp.jsx:54 | while editing, the PUT path's parameter parses on the server to the edited id (backend/server.js:127) |
| EndToEnd.EditWithoutNewFileKeepsAttachments | backend/server.js:117-135 | saving an edit without picking a file keeps both stored attachments |
| EndToEnd.EditRoundTrip | frontend/src/MedicineApp.jsx:71-81 | opening a row for editing and saving it unchanged writes back exactly that row (backend/server.js:126-137) |
| EndToEnd.CreatedRowReferences | backend/server.js:78-99 | a row created from the client's form holds `/uploads/<ms>-<name>` for each picked file, with `ms` the instant multer stored that file and `<name>` the name the client picked, taken as multer's `originalname`, and no reference for a field without a file |
| EndToEnd.StoredReferenceUrl | frontend/src/MedicineApp.jsx:111 | every stored reference `/uploads/<f>` is shown at the API origin followed by it (backend/server.js:84) |
| EndToEnd.UploadedFileUrl | backend/server.js:25 | an upload is shown at `http://localhost:4000/uploads/<now>-<originalname>` (frontend/src/MedicineApp.jsx:111) |
| EndToEnd.RowAttachmentUrls | frontend/src/MedicineApp.jsx:342-357 | each attachment of a stored row is shown at the API origin plus its reference; a missing one gives no URL |

## Left out

- JsText.ToLower: folds ASCII letters only. JavaScript's `toLowerCase` also folds the rest of Unicode, so search matches involving non-ASCII letters are not modelled.
- JsText.ParseInt: returns exact integers. JavaScript numbers are doubles, so results above 2^53 lose precision there.
- Server.Server.Create: a `NaN` or out-of-range `age` is rejected by the database's 32-bit integer column. The model does not force that rejection; it is one of the outcomes of `storeFails`.
- Server.Server.Update: the same holds for `age` here, and for an id beyond the 32-bit range.
- Server.Server.Register: usernames are treated as unique. The schema that enforces this is not part of this model.
- Server.Server.Register: nothing shows that the stored hash differs from the plaintext, because bcrypt's internals are not modelled. The contract states that the stored value is the bcrypt hash.
- Server.Server.List: the order of the rows is an assumption about the store. The handler calls `findMany()` without an ordering, and the id policy lives in a schema that is not part of this model. The model assumes that ids come from a counter, are never reused, and that rows come back in ascending id order. `Server.RowsExact`, `Server.ListAfterCreate`, `Server.ListAfterDelete` and `Server.ListAfterUpdate` rest on this assumption.
- Server.Server.List: the list handler has no `try`, so a store failure there ends in an unhandled rejection with no response. That path is not modelled.
- Gate.AdmittedClaimsUnexpired: it follows from the assumption in `JwtSound` that no token verifies to expired claims. jsonwebtoken also accepts, forever, a token signed with the key that carries no `exp`. `Claims` always has an expiry, so such tokens are not represented.
- Bcrypt and JSON Web Tokens: hashing, comparison, signing and verifying are abstract functions. The 72-byte password limit of bcrypt, token formats and signature algorithms are not modelled.
- The Prisma client and SQLite: the tables are in-memory maps. Prisma's configuration file is not part of this model.
- EndToEnd.ReceivedFormFiles: takes the name of the file the client picked (`FileRef.name`) as multer's `originalname`. The real multipart parser reads the header bytes as latin1, undoes quoted-string escapes and keeps only what follows the last `/` or `\`, while the browser sends UTF-8 and writes `"` as `%22`; so the stored name differs from the picked one for non-ASCII names (`é.png` is stored as `<ms>-Ã©.png`) and for names holding `\` or `"`. Character encodings are not modelled.
- EndToEnd.CreatedRowReferences: rests on the same assumption, so the `<name>` in `/uploads/<ms>-<name>` is the picked name only for ASCII names free of `/`, `\` and `"`.
- Express routing, CORS, JSON body parsing, static serving of `/uploads`, `app.listen` and multer's disk writes are I/O plumbing. Multipart parsing is modelled only as far as the handlers read it (`EndToEnd.ReceivedFields`, `EndToEnd.ReceivedPaths`). Field names sent twice are not modelled, because the client never does that.
- `path.join` normalisation of the upload directory, and Windows paths on the server, are not modelled. `Basename` follows the POSIX rules.
- Concurrent requests and interleaved handlers are not modelled. Each handler runs alone.
- The client's axios calls, `localStorage`, `useEffect`, `window.confirm`, `handleDelete`, the file-input handlers with their `URL.createObjectURL` previews, and all rendering are left out. `load` is modelled as `Load` on its outcome.
- The other client files (the app shell, login, signup, home and the shared components) are navigation and UI. That includes the signup form's password confirmation.
