# Ecoleta collection points: server controller, routes and registration form

This project models the core of Ecoleta, a web application where waste-collection points
register themselves. Each point names the categories of waste it accepts. Visitors list the
points of a city and state that accept some category.

Three parts of the application are modelled:

- **The points controller** (`PointsController`) works over three tables:
  - `points`
  - `point_items`, which links points to categories
  - `items`, the static list of categories

  Each table is a sequence of rows. The controller's operations are:
  - `index`: join the points with their links, keep the rows whose item id is among the
    requested ones and whose city and state match, drop duplicate points, and add
    `image_url` to each one.
  - `show`: look a point up by the id text taken from the path, answer 400
    "Point not found" when no point has that id, and otherwise return the point with its
    categories.
  - `create`: a method of the `Store` class. It inserts one point row under a fresh id,
    then inserts one association row per id of the comma-separated `items` text.
- **The router** (`Routes`):
  - the method and path table
  - the body schema of `POST /points`, with every violation reported
  - the handling that ties a request to the controller
- **The registration page** (`CreatePoint`) is a class whose fields are the component's
  hook state. It has:
  - one method per event handler
  - the click toggle of an item's selection
  - the multipart body that `handleSubmit` builds

`Submission` connects the client to the server. The text parts the page sends become the
request body that the validator checks and `create` reads. The id list joined with commas
on the client comes back out of the server's parser unchanged.

Supporting modules:

- `JsText`: the JavaScript string primitives involved: `trim` with the ECMAScript
  whitespace set, `split`, `join`, the string length in UTF-16 code units, and the two
  conversions between text and numbers. The conversions are modelled on unbounded integers.
  They agree with JavaScript's double-precision numbers only for integers of magnitude at
  most 2^53, and the rendering only below 10^21 (see "Left out").
- `Seqs`: sequence helpers (filter, de-duplication, counting).
- `Wrappers`: `Option`.

Some external inputs are parameters of the model:

- the email-address predicate of the validator (`isEmail`)
- the filename the upload storage gives a file
- the answers of the geolocation, IBGE and `GET /items` requests, which arrive through
  setter methods

## Model

| member | source | states |
|---|---|---|
| Seqs.Filter | next-level-week/src/controllers/PointsController.ts:15-17 | an element is kept exactly when it occurs in the input and passes the test, and the result is never longer than the input |
| Seqs.Dedup | next-level-week/src/controllers/PointsController.ts:18 | the result has no duplicates and holds exactly the elements of the input |
| JsText.TrimStart | next-level-week/src/controllers/PointsController.ts:10 | the result is a suffix, everything dropped is whitespace, and the result does not start with whitespace |
| JsText.TrimEnd | next-level-week/src/controllers/PointsController.ts:10 | the result is a prefix, everything dropped is whitespace, and the result does not end with whitespace |
| JsText.Trim | next-level-week/src/controllers/PointsController.ts:10 | the result is never longer, has no whitespace at either end, and is empty exactly when the input is all whitespace |
| JsText.TrimIsMiddle | next-level-week/src/controllers/PointsController.ts:10 | the trim is a contiguous slice of the input with only whitespace before and after it, so exactly the outer whitespace is removed |
| JsText.TrimNoop | next-level-week/src/controllers/PointsController.ts:10 | a string with no whitespace at either end is its own trim |
| JsText.Utf16Length | next-level-week/src/routes.ts:31 | the length in UTF-16 code units lies between the number of code points and twice that, and equals it when no code point is above U+FFFF |
| JsText.Split | next-level-week/src/controllers/PointsController.ts:9-10 | there is one more piece than there are separators (so "" gives one empty piece), and no piece contains the separator |
| JsText.SplitNoSep | next-level-week/src/controllers/PointsController.ts:9-10 | a text without the separator splits into itself alone |
| JsText.SplitAfterPiece | next-level-week/src/controllers/PointsController.ts:9-10 | splitting `a + sep + b` gives `a` followed by the pieces of `b` |
| JsText.Join | nlw-web/src/pages/CreatePoint/index.tsx:142 | no parts join to the empty string, and parts free of the separator join to a text with one separator fewer than there are parts |
| JsText.SplitJoin | nlw-web/src/pages/CreatePoint/index.tsx:142 | splitting a join of at least one separator-free piece gives back the pieces |
| JsText.DigitChar | nlw-web/src/pages/CreatePoint/index.tsx:142 | the character is a digit, and its value is the given digit |
| JsText.IntLiteral | next-level-week/src/controllers/PointsController.ts:10 | a value is found only for text with no whitespace at either end |
| JsText.BlankIsZero | next-level-week/src/controllers/PointsController.ts:10 | `Number` of an all-whitespace text (including "") is 0, not NaN |
| JsText.ToNumber | next-level-week/src/controllers/PointsController.ts:10 | a blank text is 0. Otherwise the result is a number exactly when the trimmed text is a decimal integer literal, and then it is that literal's value |
| JsText.IntToString | nlw-web/src/pages/CreatePoint/index.tsx:142 | the rendering is non-empty: digits for a non-negative number, a minus sign followed by digits for a negative one |
| JsText.IntLiteralOfIntToString | next-level-week/src/controllers/PointsController.ts:66 | reading the decimal rendering of any integer as a literal gives that integer |
| JsText.IntToStringShape | nlw-web/src/pages/CreatePoint/index.tsx:142 | the rendering of an integer is non-empty and has no comma and no whitespace at its ends |
| JsText.NatToString | nlw-web/src/pages/CreatePoint/index.tsx:142 | the decimal rendering is a non-empty string of digits |
| JsText.DecimalOfNatToString | nlw-web/src/pages/CreatePoint/index.tsx:142 | reading the rendering of a natural number gives that number back |
| JsText.ToNumberOfIntToString | next-level-week/src/controllers/PointsController.ts:64-66 | `Number(String(n))` is `n` for every integer, and the rendering contains no comma and no surrounding whitespace |
| PointsController.Serialize | next-level-week/src/controllers/PointsController.ts:21-26 | the serialised point keeps every stored column, and `image_url` is the uploads prefix followed by exactly the stored image name |
| PointsController.SerializeAll | next-level-week/src/controllers/PointsController.ts:21-26 | the result is the input element by element, each element serialised |
| PointsController.SerializeAllMembers | next-level-week/src/controllers/PointsController.ts:21-26 | every serialised point is stored in the input, and every input point has its serialisation in the list |
| PointsController.SerializeAllNoDup | next-level-week/src/controllers/PointsController.ts:18-26 | serialising distinct points keeps them distinct |
| PointsController.SqlIn | next-level-week/src/controllers/PointsController.ts:15 | a value matches the `IN` list only when it occurs in it, NaN matches nothing, and every other occurring value matches |
| PointsController.ParseItemIds | next-level-week/src/controllers/PointsController.ts:9-10 | there is one number per comma-separated segment, and each is `Number` of the trimmed segment |
| PointsController.BlankSegmentIsZero | next-level-week/src/controllers/PointsController.ts:9-10 | an empty or blank segment parses to 0 |
| PointsController.WordIsNaN | next-level-week/src/controllers/PointsController.ts:9-10 | a single segment that does not start like a numeral parses to `[NaN]` |
| PointsController.JsString | next-level-week/src/controllers/PointsController.ts:9 | `String(v)` is the text itself, or "undefined" for a missing parameter |
| PointsController.PointItemsFor | next-level-week/src/controllers/PointsController.ts:64-72 | there is one association row per parsed id, in order, each with the new point id |
| PointsController.JoinLinks | next-level-week/src/controllers/PointsController.ts:14 | a joined row occurs exactly when its link is in the table and refers to the point |
| PointsController.JoinPoints | next-level-week/src/controllers/PointsController.ts:13-14 | a joined row occurs exactly when both rows are in their tables and the ids agree |
| PointsController.SelectPoints | next-level-week/src/controllers/PointsController.ts:19 | a point occurs exactly when some joined row carries it |
| PointsController.IndexRows | next-level-week/src/controllers/PointsController.ts:13-19 | the selected points are duplicate-free, and a point is selected exactly when it is in the table, matches the city and state, and has a link to a requested (non-NaN) item |
| PointsController.Index | next-level-week/src/controllers/PointsController.ts:6-28 | soundness: every answer is a stored point with the requested city and state, a requested item and the prefixed `image_url`. Completeness: every such point is answered. There are no duplicates |
| PointsController.UndefinedIsNaN | next-level-week/src/controllers/PointsController.ts:9-10 | a missing `items` parameter parses to `[NaN]` |
| PointsController.IndexWithoutItemsIsEmpty | next-level-week/src/controllers/PointsController.ts:7-19 | without an `items` parameter, `index` answers the empty list whatever the tables hold |
| PointsController.OnlyNaNIsEmpty | next-level-week/src/controllers/PointsController.ts:15 | when the item list parses to NaN alone, `index` answers nothing |
| PointsController.FirstWithId | next-level-week/src/controllers/PointsController.ts:33 | nothing is found exactly when no point's id equals the text, and a point found has that id |
| PointsController.IdEquals | next-level-week/src/controllers/PointsController.ts:33 | the comparison of the integer `id` column with the path text, in `show` and in its items query (line 46): the text selects an integer id when it is a decimal integer literal of that value. Its properties are the next two lemmas |
| PointsController.IdEqualsOwnRendering | next-level-week/src/controllers/PointsController.ts:33 | the decimal text of an id selects that id |
| PointsController.IdEqualsFunctional | next-level-week/src/controllers/PointsController.ts:33 | an id text selects at most one id, so the `where` of `show` and of its items query name the same point |
| PointsController.LinksOfItem | next-level-week/src/controllers/PointsController.ts:44-46 | a row occurs exactly when its link is for the item and for the requested point |
| PointsController.ItemsOfPoint | next-level-week/src/controllers/PointsController.ts:44-46 | a row occurs exactly when its item and link are in their tables, are joined on the item id, and the link names the requested point |
| PointsController.Show | next-level-week/src/controllers/PointsController.ts:31-49 | the status is 200 exactly when some point's id equals the path text, and 400 with "Point not found" exactly when none does. A 200 answer holds a stored point with that id, its prefixed `image_url`, and exactly the items linked to it |
| PointsController.MaxId | next-level-week/src/controllers/PointsController.ts:59 | the largest id of a non-empty table: it is in use, and no id in the table is larger |
| PointsController.NextId | next-level-week/src/controllers/PointsController.ts:59-62 | the generated id is 1 in an empty table and otherwise one above the largest id in use, so it is never in use |
| PointsController.NewPointRow | next-level-week/src/controllers/PointsController.ts:57 | the inserted row carries the generated id, and its serialisation points at the uploaded file's name |
| PointsController.LinkCount | next-level-week/src/controllers/PointsController.ts:75 | no more than the table size, and zero exactly when no row refers to the id |
| PointsController.LinkCountAppend | next-level-week/src/controllers/PointsController.ts:75 | counts add up over an appended batch |
| PointsController.LinkCountAll | next-level-week/src/controllers/PointsController.ts:64-75 | a batch that all refers to one id counts in full |
| PointsController.AppendKeepsWellFormed | next-level-week/src/controllers/PointsController.ts:59-75 | inserting a point under an unused id, plus links to it, keeps ids unique and every link pointing at an existing point |
| PointsController.CreatedIdIsExact | next-level-week/src/controllers/PointsController.ts:59-75 | after `create`, the new id names exactly one point row, and exactly as many link rows as the item list has segments |
| PointsController.Store.Create | next-level-week/src/controllers/PointsController.ts:50-80 | with an upload, `create` appends the point row (image = stored filename, id = the generated id) and one link row per parsed id, and answers that row. Without an upload it fails before any insert and changes nothing. The table invariant and the categories are preserved |
| Routes.SchemaKeys | next-level-week/src/routes.ts:24-33 | the key set is exactly the keys the schema declares |
| Routes.Check | next-level-week/src/routes.ts:25-32 | a key passes exactly when it is present, non-empty, an email where required, and within its maximum length counted in UTF-16 code units. An error names its key |
| Routes.SchemaErrors | next-level-week/src/routes.ts:24-37 | every failing key's error is reported (not only the first), every reported error comes from a failing key, and with distinct keys no error repeats |
| Routes.Validate | next-level-week/src/routes.ts:23-37 | all errors of the schema are reported without duplicates, the unknown keys are exactly those outside the schema, and a body with no errors carries every field `create` reads |
| Routes.NoErrorsHasAllFields | next-level-week/src/routes.ts:25-32 | a body without errors has all eight keys |
| Routes.MissingFieldReported | next-level-week/src/routes.ts:25-32 | an absent schema key is reported as required, and the body is rejected |
| Routes.LongUfReported | next-level-week/src/routes.ts:31 | a `uf` longer than two UTF-16 code units is reported as too long |
| Routes.AstralUfRejected | next-level-week/src/routes.ts:31 | a two-character `uf` whose first character lies outside the Basic Multilingual Plane is too long, since it takes three or four UTF-16 code units |
| Routes.BadEmailReported | next-level-week/src/routes.ts:26 | a non-empty `email` that is not an address is reported |
| Routes.AllChecksPassIff | next-level-week/src/routes.ts:25-32 | every key's check passes exactly when all eight keys are present and non-empty, `email` is an address, and `uf` has at most two UTF-16 code units |
| Routes.NoErrorsIff | next-level-week/src/routes.ts:35-37 | the collected error list is empty exactly when every key's check passes |
| Routes.AcceptedIff | next-level-week/src/routes.ts:22-37 | a body is accepted exactly when all checks pass and it has no key outside the schema |
| Routes.BodyOf | next-level-week/src/controllers/PointsController.ts:53 | the record `create` destructures carries each field of the body |
| Routes.PathSegments | next-level-week/src/routes.ts:16-22 | a path has at least one segment |
| Routes.Dispatch | next-level-week/src/routes.ts:16-41 | only POST reaches `create`, and only GET or HEAD reach the listing, item, upload and show routes. The show id is a non-empty single segment. Only OPTIONS gets the router's own answer, and then GET and HEAD are among the allowed methods; on which paths is stated by `Routes.OptionsExactlyOnRoutedPaths` |
| Routes.TwoSegments | next-level-week/src/routes.ts:16-19 | `/a` has the segments `""` and `a` |
| Routes.ThreeSegments | next-level-week/src/routes.ts:20 | `/a/b` has the segments `""`, `a` and `b` |
| Routes.PointsPath | next-level-week/src/routes.ts:19 | `/points` has the segments `""`, `points` |
| Routes.PointPath | next-level-week/src/routes.ts:20 | `/points/<id>` has the segments `""`, `points`, `<id>` |
| Routes.PointsRoutes | next-level-week/src/routes.ts:19-22 | `GET /points` reaches `index` and `POST /points` reaches `create` |
| Routes.ShowRoute | next-level-week/src/routes.ts:20 | `GET /points/<id>` reaches `show` with that id |
| Routes.PointsOptions | next-level-week/src/routes.ts:19-22 | `OPTIONS /points` is answered by the router with the methods `GET`, `HEAD` and `POST` |
| Routes.OptionsExactlyOnRoutedPaths | next-level-week/src/routes.ts:16-20 | OPTIONS is answered by the router exactly on the paths that have a GET route (`/items`, `/points`, `/points/<id>`); the static `/uploads` middleware adds none |
| Routes.PostPoints | next-level-week/src/routes.ts:22-38 | a rejected body yields the validation failure with every violation, passed on to the error handler, and leaves the tables unchanged. An accepted body runs `create` with the destructured fields, and the new state is the one `create` promises |
| Routes.Handle | next-level-week/src/routes.ts:12-41 | every route answers with its handler's result: `index`, `show` with the path id, delegation for items and uploads, the allowed methods for OPTIONS, and 404 otherwise. For `POST /points`: the validation failure with every violation and unchanged tables exactly when validation fails; without an upload the failed `create` (no response is sent) and unchanged tables; otherwise the answer is the new row under the generated id, and the tables gain that row and its link rows. Only `create` changes the tables |
| CreatePoint.RemoveAll | nlw-web/src/pages/CreatePoint/index.tsx:116 | the id is gone and every other id is kept |
| CreatePoint.RemoveAllAppend | nlw-web/src/pages/CreatePoint/index.tsx:116 | the filter works piece by piece, so order is kept |
| CreatePoint.RemoveAllAbsent | nlw-web/src/pages/CreatePoint/index.tsx:116 | removing an id that does not occur changes nothing |
| CreatePoint.RemoveAllNoDup | nlw-web/src/pages/CreatePoint/index.tsx:116 | removal keeps a duplicate-free selection duplicate-free |
| CreatePoint.Toggle | nlw-web/src/pages/CreatePoint/index.tsx:113-122 | the id is selected afterwards exactly when it was not before, and other ids are untouched. A new id goes at the end, and a selected id is filtered out |
| CreatePoint.ToggleKeepsNoDup | nlw-web/src/pages/CreatePoint/index.tsx:113-122 | a selection never holds an id twice |
| CreatePoint.ToggleAll | nlw-web/src/pages/CreatePoint/index.tsx:113-122 | after a series of clicks, every selected id was selected before or was clicked |
| CreatePoint.ToggleTwice | nlw-web/src/pages/CreatePoint/index.tsx:113-122 | selecting and deselecting an id restores the selection |
| CreatePoint.ToggleTwiceSelected | nlw-web/src/pages/CreatePoint/index.tsx:113-122 | deselecting and reselecting moves the id to the end |
| CreatePoint.ToggleAllKeepsNoDup | nlw-web/src/pages/CreatePoint/index.tsx:113-122 | any series of clicks keeps the selection duplicate-free |
| CreatePoint.InputChange | nlw-web/src/pages/CreatePoint/index.tsx:107-110 | the named field takes the value, and all other fields keep theirs |
| CreatePoint.InputChangesCommute | nlw-web/src/pages/CreatePoint/index.tsx:109 | edits of different fields commute |
| CreatePoint.InputChangeLastWins | nlw-web/src/pages/CreatePoint/index.tsx:109 | the last edit of a field wins |
| CreatePoint.IdStrings | nlw-web/src/pages/CreatePoint/index.tsx:142 | each selected id is rendered in decimal, in order |
| CreatePoint.SubmitPayload | nlw-web/src/pages/CreatePoint/index.tsx:133-146 | the payload has eight text parts, plus a ninth part holding the file exactly when a file was chosen |
| CreatePoint.TextForm | nlw-web/src/pages/CreatePoint/index.tsx:133-142 | a new form to which the eight text parts are appended holds exactly those parts, in order |
| CreatePoint.PayloadImageIff | nlw-web/src/pages/CreatePoint/index.tsx:144-146 | there is an `image` part exactly when a file was chosen, and then it is that file |
| CreatePoint.MultipartForm.constructor | nlw-web/src/pages/CreatePoint/index.tsx:133 | a new form has no parts |
| CreatePoint.MultipartForm.Append | nlw-web/src/pages/CreatePoint/index.tsx:135-145 | one part is added at the end, and nothing else changes |
| CreatePoint.CreatePointPage.constructor | nlw-web/src/pages/CreatePoint/index.tsx:28-50 | the initial state: empty lists, position 0,0, sentinel `'0'` for state and city, empty text fields, no file |
| CreatePoint.CreatePointPage.HandleSelectUf | nlw-web/src/pages/CreatePoint/index.tsx:87-90 | only the selected state changes |
| CreatePoint.CreatePointPage.HandleSelectCity | nlw-web/src/pages/CreatePoint/index.tsx:93-96 | only the selected city changes |
| CreatePoint.CreatePointPage.HandleMapClick | nlw-web/src/pages/CreatePoint/index.tsx:99-104 | only the selected position changes |
| CreatePoint.CreatePointPage.HandleInputChange | nlw-web/src/pages/CreatePoint/index.tsx:107-110 | only the named text field changes |
| CreatePoint.CreatePointPage.HandleSelectItem | nlw-web/src/pages/CreatePoint/index.tsx:113-122 | only the selection changes, by the toggle, and it stays duplicate-free |
| CreatePoint.CreatePointPage.SetSelectedFile | nlw-web/src/pages/CreatePoint/index.tsx:167 | only the chosen file changes |
| CreatePoint.CreatePointPage.SetInitialPosition | nlw-web/src/pages/CreatePoint/index.tsx:55-60 | only the initial position changes |
| CreatePoint.CreatePointPage.SetItems | nlw-web/src/pages/CreatePoint/index.tsx:63-67 | only the category list changes |
| CreatePoint.CreatePointPage.SetUfs | nlw-web/src/pages/CreatePoint/index.tsx:70-75 | only the state list changes |
| CreatePoint.CreatePointPage.SetCitys | nlw-web/src/pages/CreatePoint/index.tsx:78-83 | only the city list changes |
| CreatePoint.CreatePointPage.HandleSubmit | nlw-web/src/pages/CreatePoint/index.tsx:125-146 | the form built holds the eight text parts in order, then the image only when a file was chosen, and the page state is untouched |
| Submission.RequestBody | next-level-week/src/routes.ts:22 | every key of the body comes from a text part of that name |
| Submission.RequestFile | next-level-week/src/routes.ts:22 | for a request the upload middleware accepts, an upload is present exactly when there is an `image` file part |
| Submission.Upload | next-level-week/src/routes.ts:22 | the middleware fails with `Unexpected field` exactly when some file part is not named `image` or follows an earlier `image` file; otherwise it stores what `RequestFile` says |
| Submission.SecondImageRejected | next-level-week/src/routes.ts:22 | two `image` file parts fail the request |
| Submission.PayloadUploadStored | nlw-web/src/pages/CreatePoint/index.tsx:144-147 | the page's submission never fails the upload middleware: its file, if any, is stored |
| Submission.Nums | next-level-week/src/controllers/PointsController.ts:66 | each id becomes the number with its value |
| Submission.ItemIdsRoundTrip | next-level-week/src/controllers/PointsController.ts:64-66 | splitting, trimming and converting the client's comma-join of a non-empty id list gives back every id in order |
| Submission.JoinEmptyIff | nlw-web/src/pages/CreatePoint/index.tsx:142 | the joined ids are empty exactly when nothing is selected |
| Submission.SchemaKeysSpelled | next-level-week/src/routes.ts:25-32 | the schema's keys are the eight field names |
| Submission.RequestBodyStep | next-level-week/src/routes.ts:22 | a text part adds or overwrites its key in the body |
| Submission.PayloadBodyText | nlw-web/src/pages/CreatePoint/index.tsx:135-142 | after the eight text parts, the body holds exactly the eight keys with the page's values |
| Submission.PayloadBody | nlw-web/src/pages/CreatePoint/index.tsx:135-142 | the server's body is exactly the eight keys with the page's values, with the image not part of it |
| Submission.PayloadBodyKeys | next-level-week/src/routes.ts:24-33 | the body's keys are exactly the schema's, so a submission never has an unknown key |
| Submission.SubmittedItemsRoundTrip | next-level-week/src/controllers/PointsController.ts:64-66 | the server parses exactly the selected ids, in selection order |
| Submission.EmptySelectionRejected | next-level-week/src/routes.ts:32 | submitting with nothing selected sends an empty `items`, which is rejected as empty |
| Submission.SubmissionAcceptedIff | next-level-week/src/routes.ts:22-37 | a submission is accepted exactly when the text fields, state, city and coordinates are non-empty, the email is an address, the state code has at most two UTF-16 code units, and an item is selected |
| Submission.PayloadPassesIff | next-level-week/src/routes.ts:25-32 | the schema's checks pass on a submission exactly when all the page's values meet them |
| Submission.SentinelsAccepted | nlw-web/src/pages/CreatePoint/index.tsx:38-42 | the unselected sentinel `'0'` for state and city passes the server's checks |
| Submission.SubmittedFileIff | nlw-web/src/pages/CreatePoint/index.tsx:144-146 | the server gets an upload exactly when the user chose a file |

## Left out

- JsText.Trim: its own contract gives the shape of the result. That the result is the input
  with exactly its outer whitespace removed is the lemma `JsText.TrimIsMiddle`. It is kept
  out of the contract because an existential there would be instantiated at every use of
  `Trim`.
- JsText.ToNumber: only an empty or blank string, and an optionally signed decimal integer,
  get a value. Fractions, exponents, hexadecimal, `Infinity` and the like become `NaN`, so
  this is weaker than JavaScript's `Number`. The value is the exact integer, while
  JavaScript rounds to a double: literals of magnitude above 2^53 may come out as a
  neighbouring value (`"9007199254740993"` gives 9007199254740992).
- JsText.IntToString: the rendering is plain decimal digits for every integer. JavaScript
  switches to exponent notation from 10^21 on (`1e+21`), which is not modelled.
- JsText.ToNumberOfIntToString: the round trip holds for the model's unbounded integers.
  In JavaScript it holds for integers of magnitude at most 2^53.
- Submission.ItemIdsRoundTrip: the ids come back unchanged for the model's unbounded
  integers. In JavaScript this holds for ids of magnitude at most 2^53.
- Submission.SubmittedItemsRoundTrip: as for `ItemIdsRoundTrip`, exact only for ids of
  magnitude at most 2^53 in JavaScript.
- PointsController.IdEquals: comparing a text id with the integer `id` column is modelled
  through SQLite's conversion of optionally signed decimal integer text only. Other numeric
  text (`"1.0"`, `" 1"`) equals no id here.
- PointsController.NextId: the generated id follows SQLite's rule for an integer primary key
  without `AUTOINCREMENT`: 1 in an empty table, else one above the largest id in use. With
  `AUTOINCREMENT` the database also remembers ids of deleted rows; the core deletes nothing,
  so the two agree here. The largest possible 64-bit id, the database file, its connection
  and the table definitions are not part of this model.
- PointsController.ItemsOfPoint: the rows of the `show` items join keep both rows whole.
  Same-named columns, which the database merges, are not modelled because the table
  definitions are not part of this model.
- PointsController.Store.Create: the transaction is modelled only by nothing being inserted
  when the upload is missing. In that case `MissingUpload` stands for a request that gets no
  response: the `async` handler's promise is rejected, and Express 4 does not pass a
  rejected promise to its error handling. An open transaction that is never rolled back,
  insert failures and concurrent requests are not modelled.
- PointsController.Point: coordinates are kept as the submitted text. Floating-point
  numbers are not modelled.
- Routes.Dispatch:
  - Routes match letter case for ASCII only.
  - Percent-decoding of the `:id` parameter is not modelled.
  - Query parameters that arrive as arrays are not modelled. A missing one is `None`, and
    every other one is a single string.
- Routes.Validate: the email grammar is the `isEmail` parameter, and Joi's message texts
  are left out. The request body is modelled as flat, with one text value per name. The
  upload middleware turns a repeated name, or a name with brackets such as `items[]`, into
  an array or an object. Such bodies are not modelled, and neither is the type error Joi
  reports for a value that is not a string.
- Routes.PostPoints: a rejected body is passed on as the validation failure with every
  violation. The 400 answer and the rendering of the violations come from the `celebrate`
  error handler, which the application mounts outside the modelled files; it is not part of
  this model.
- Submission.RequestFile: it describes requests the upload middleware accepts. A request
  with a file part under another name, or with a second `image` file, fails with
  `Unexpected field`; `Submission.Upload` models that failure, and
  `Submission.PayloadUploadStored` shows the page never sends such a request. How Express
  answers that failure, and the requests reaching `Routes.Handle` after it, are not
  modelled: `Routes.Handle` takes the request as the middleware passed it on.
- Submission.RequestBody: the body is modelled as a flat map with one text per name, which
  is what the page's eight distinct, bracket-free part names produce. If a name were sent
  twice the model would keep the last value, whereas the middleware builds an array; this
  case is not modelled. The upload middleware's storage and its choice of filename are
  modelled by the `storedName` parameter.
- Routes.Handle: an `OPTIONS` answer is modelled as the router's own: status 200, and the
  methods of the routes on that path in the `Allow` header and the body. `OPTIONS` under
  `/uploads` has no route of its own and is answered 404. The application that mounts the
  router, and any middleware in front of it (a CORS handler, for example, would answer
  `OPTIONS` itself), is not part of this model.
- `express.static` under `/uploads` and `GET /items` are reported as `Delegated`. The items
  controller is not part of this model.
- The page's rendering, the map, the drop zone and the `useEffect` hooks are left out. The
  answers of the hooks' requests enter through the setter methods.
- The POST request itself, `alert`, `history.push` and `console.log` are I/O and are left
  out.
