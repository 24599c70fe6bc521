# audio-file-hosting in Dafny

A model of the core of an audio-hosting web application. It has a Fastify
server over PostgreSQL (through Drizzle) and a MinIO object store, plus a
React client. This project covers:

- the listing-query builder: sort terms, and a full-text query string with
  column weights;
- the object-key scheme and duplicate probe of the presigned-upload service,
  and the file-storage service's naming, metadata defaults and error
  wrapping;
- the owner-scoped table operations of the audio, genre, user and auth
  services, over an in-memory database that keeps the tables' primary keys,
  unique indexes and cascading foreign keys;
- the route-exclusion predicate of the authentication middleware, the UUID
  and e-mail format checks, and the error handler's decision table;
- the client helpers: title-casing, file-extension stripping, the upload
  step and progress order, the genre-name length rule and the genre-count
  label.

Database, object store, hashing, UUIDs, the clock, `toSnakeCase` and
PostgreSQL's text matching and its `tsquery` parser are parameters of the
functions that use them. The tables' names and their columns' names and
types are constants, so the model can say which sort fields the database
refuses.
A "store outcome" parameter says whether a storage call fails, and with
which error text; the functions then compute what the code does with
each outcome.

One Dafny module per source component:

- `Strings`, `Seqs`: JavaScript string operations and sequence helpers.
- `Errors`: the error classes.
- `Pagination`, `Listing`: query building and count-then-page.
- `Tables`: the four tables and their constraints.
- `AudioService`, `GenreService`, `UserService`, `AuthService`.
- `Storage`, `FileService`: the object store and the presigned-upload service.
- `Authentication`, `StringValidator`, `ErrorHandler`.
- `AudiosPage`, `UploadDialog`, `GenresPage`: the client helpers.

## Model

| member | source | states |
|---|---|---|
| Errors.StatusCode | server/src/errors/bad-request.ts:9 | each error class has a fixed status in 400..599; the status is 500 or above exactly for Unknown, NotImplemented and ServiceUnavailable |
| Errors.NewError | server/src/errors/unknown.ts:8-14 | a constructed error keeps its class and the given or default message; `UnknownError` prefixes `"Error: "`; only BadRequest and Unauthorized keep a `data` record |
| Pagination.SortOrderPatternIsWordList | server/src/utils/pagination.ts:40 | a `sortOrder` matches `^(asc\|desc)(,(asc\|desc))*$` exactly when every comma-separated piece is `asc` or `desc` |
| Pagination.SortColumns | server/src/utils/pagination.ts:53-55 | an absent or empty `sortBy` gives the default column alone; otherwise the comma-free pieces joined by commas give back `sortBy` |
| Pagination.SortDirections | server/src/utils/pagination.ts:57-59 | an absent or empty `sortOrder` gives `["desc"]`; otherwise the pieces join back to `sortOrder` |
| Pagination.PadWithDesc | server/src/utils/pagination.ts:61-65 | the directions are kept as a prefix and extended with `desc` up to the column count, never shortened |
| Pagination.Direction | server/src/utils/pagination.ts:72-79 | an entry gives ascending order exactly when it is `asc`; any other entry gives descending |
| Pagination.GetSortColumn | server/src/utils/pagination.ts:96-107 | a name succeeds exactly when the mapping has it; otherwise it fails with the 501 error "no sorting implemented for - name." |
| Pagination.ColumnsToSort | server/src/utils/pagination.ts:85-94 | without a mapping every name becomes its snake-cased identifier; with one, the result succeeds exactly when every name is mapped, and otherwise fails on the first unmapped name |
| Pagination.QueryOrderBy | server/src/utils/pagination.ts:47-83 | one term per `sortBy` column in order; term i is ascending exactly when direction i is `asc`; surplus directions are ignored; with a mapping, failure exactly when a column is unmapped, naming that column |
| Pagination.DefaultOrdering | server/src/utils/pagination.ts:51-59 | no `sortBy` and no `sortOrder` give one descending term on the snake-cased `updatedAt` |
| Pagination.PaddingExample | server/src/utils/pagination.ts:61-65 | two columns with `sortOrder = "asc"` give ascending then descending |
| Pagination.NormalizeSearchText | server/src/utils/pagination.ts:132-135 | the result has the trimmed text's length and, position by position, a space where the trimmed text has one of `()&|!<>` and the lower-cased character elsewhere; so no metacharacter or upper-case letter remains |
| Pagination.SearchTokens | server/src/utils/pagination.ts:136-137 | the tokens are exactly the words (maximal runs of non-space characters) of the normalised text, in order: each non-empty and free of spaces, metacharacters and upper case, concatenating to the normalised text with its spaces removed |
| Pagination.SplitWords | server/src/utils/pagination.ts:136-137 | splitting on single spaces and dropping the empty pieces gives the same words as a character-by-character reading of the text |
| Pagination.PrefixQuery | server/src/utils/pagination.ts:138-139 | the query is empty exactly when there are no words |
| Pagination.PrefixQueryPieces | server/src/utils/pagination.ts:138-139 | for space-free words, the query's space-separated pieces are `w:*` for each word in order with a lone `&` between consecutive words |
| Pagination.DecodeSearchQuery | server/src/utils/pagination.ts:138-139 | the `w1:* & w2:* …` query string decodes back to exactly the token list it was built from |
| Pagination.WhitespaceSearchIsEmptyQuery | server/src/utils/pagination.ts:128-139 | whitespace-only text is not short-circuited: it yields no tokens and the empty query string |
| Pagination.WeightAt | server/src/utils/pagination.ts:130 | column index 0, 1, 2 get weights A, B, C, and every later index gets D |
| Pagination.SearchVector | server/src/utils/pagination.ts:141-148 | one weighted entry per column, in order, with weights that never increase along the list |
| Pagination.TabStaysInWord | server/src/utils/pagination.ts:132-139 | only the space separates search words: `a<TAB>b` is one token, and the query text is `a<TAB>b:*` |
| Pagination.GenerateTextSearchCondition | server/src/utils/pagination.ts:124-152 | absent or empty text gives TRUE; with no columns the reduce throws; otherwise the condition carries the weighted vector and the prefix query of the search tokens, which decodes back to those tokens |
| Listing.CountThenPage | server/src/modules/audio/audio.service.ts:24-38 | total counts the filtered rows; the page holds at most `limit` rows, taken consecutively from the ordered filtered rows starting at `offset` |
| Listing.PageDependsOnlyOnVisibleRows | server/src/modules/audio/audio.service.ts:24-36 | two tables whose filtered rows agree give the same total and page |
| Listing.ConsecutivePages | server/src/modules/genre/genre.service.ts:29-37 | the page at `offset` followed by the page at `offset + limit` is the page of size `2 * limit` at `offset` |
| Listing.ListingOrder | server/src/modules/audio/audio.service.ts:28 | ordering uses `queryOrderBy` without a mapping: one term per column, each the snake-cased name |
| Listing.SingleColumnSearch | server/src/modules/audio/audio.service.ts:19-22 | absent or empty text matches everything; otherwise the search covers one column at weight A, and its query is the prefix query of the text's tokens, which decodes back to them |
| Listing.BigintParam | server/src/modules/audio/audio.service.ts:35-36 | a non-negative number is taken as a bigint exactly when it is whole and within range; a fraction or an exponent-printed number fails the query with 22P02, a larger whole number with 22003 |
| Listing.PageLimit | server/src/modules/audio/audio.service.ts:35 | the page size is 10 without a `limit`; a given `limit` is read exactly when it is a whole bigint, and is then that number and at least 1; otherwise the query fails |
| Listing.PageOffset | server/src/modules/audio/audio.service.ts:36 | the skip is 0 without an `offset`; a given `offset` is read exactly when it is a whole bigint, and is then that number; otherwise the query fails |
| Listing.FirstUnsortable | server/src/utils/pagination.ts:85-93 | none exactly when every term, by the name the database keeps, denotes something that can be ordered: a column whose type has an ordering, or, when no column has that name, the table's own name, whose whole row orders when every field does; otherwise the error of the first term that does not: 42883 naming the column's type or the row type, or 42703 naming the kept name |
| Listing.ClipIdentifierKeeps | server/src/utils/pagination.ts:91 | a quoted name of at most 63 bytes of UTF-8 is kept whole; a longer one keeps its longest prefix, in whole characters, that fits in 63 bytes; only the empty name is kept empty |
| Listing.ClipAscii | server/src/utils/pagination.ts:91 | an ASCII name longer than 63 characters keeps exactly its first 63 |
| Listing.LongNameUnknown | server/src/utils/pagination.ts:85-93 | against a table whose names are all short, a long ASCII name cannot be sorted on, and its 42703 error names the first 63 characters |
| Listing.OrderByFault | server/src/utils/pagination.ts:85-93 | an empty quoted name anywhere is the 42601 syntax error, raised before any name is looked up; with no empty name, the first unsortable term's error; none exactly when every name is non-empty and sortable |
| Listing.ListingFault | server/src/modules/audio/audio.service.ts:24-36 | the listing's causes of failure in the order the database meets them: a query text `to_tsquery` rejects (the count runs first), then the ORDER BY, then the limit, then the offset; none exactly when all four pass |
| Listing.RequestedPage | server/src/modules/audio/audio.service.ts:24-36 | fails exactly when `ListingFault` names a cause, with that error; otherwise is the count and page at the offset and limit the database read |
| Listing.ListingOutcome | server/src/modules/audio/audio.service.ts:28-36 | with a listing's own sort terms, the query is answered exactly when the search parses, every requested field, snake-cased, can be sorted on (an ordered column, or the table's name when its whole row orders) and both numbers are readable |
| Listing.SingleField | server/src/utils/pagination.ts:53-55 | a `sortBy` without a comma asks for exactly one column, the field snake-cased |
| Listing.TrailingComma | server/src/utils/pagination.ts:53-55 | a `sortBy` ending in a comma asks for a column with an empty name, so the ORDER BY fails with the 42601 syntax error, whatever the other fields |
| Tables.RowOrderings | server/src/db/tables/audio.table.ts:14-36 | an audio's whole row has no ordering, because its file object is `json`; a genre's whole row has one |
| Tables.UniqueViolation | server/src/db/tables/user.table.ts:6 | a unique-index violation is a query error whose cause carries SQLSTATE 23505 |
| Tables.InsertUser | server/src/db/tables/user.table.ts:3-14 | insertion succeeds exactly when the id and the e-mail are both new; it appends the row and changes nothing else; a clash fails with code 23505 |
| Tables.InsertUserPreservesValid | server/src/db/tables/user.table.ts:4-6 | a successful insert keeps every primary key, unique index and foreign key intact |
| Tables.DeleteAudiosWhere | server/src/db/tables/audio-genre.table.ts:10-12 | deleting audios removes exactly the matching rows and, by cascade, exactly the join rows that point at them |
| Tables.DeleteGenresWhere | server/src/db/tables/audio-genre.table.ts:13-15 | deleting genres removes exactly the matching rows and the join rows that point at them |
| Tables.DeleteUser | server/src/db/tables/audio.table.ts:23-25 | deleting a user removes that user, and by cascade all their audios and genres, keeping every other row; a join row survives exactly when its audio was not uploaded by the user and its genre is not owned by the user |
| Tables.DeleteAudiosPreservesValid | server/src/db/tables/audio-genre.table.ts:6-20 | the audio cascade leaves no dangling join row and breaks no key |
| Tables.DeleteGenresPreservesValid | server/src/db/tables/genre.table.ts:10-29 | the genre cascade leaves no dangling join row and breaks no key |
| Tables.DeleteUserPreservesValid | server/src/db/tables/genre.table.ts:16-18 | the user cascade leaves no audio, genre or join row referring to a removed row |
| AudioService.GetAllAudios | server/src/modules/audio/audio.service.ts:15-39 | fails exactly when the search's query text does not parse, a requested field cannot be sorted on (an unknown or empty name, the `json` file object, or `audios`, whose whole row holds the file object), or the limit or the offset is not a whole bigint, reporting the first of these in that order; otherwise total counts the user's rows that match the name search; every listed row is the user's and matches; the page is at most `limit ?? 10` rows of the ordered matches from `offset ?? 0` |
| AudioService.ListingIgnoresOtherUsers | server/src/modules/audio/audio.service.ts:24 | other users' rows have no influence on the listing |
| AudioService.DefaultListingAnswered | server/src/utils/pagination.ts:47-55 | a request that names no sort field, search, limit or offset sorts on `updated_at`, in either direction, and is answered |
| AudioService.FileObjectNotSortable | server/src/db/tables/audio.table.ts:19 | a `sortBy` field naming the file-object column fails the listing with 42883, since `json` has no ordering |
| AudioService.WholeRowNotSortable | server/src/db/tables/audio.table.ts:14-19 | `sortBy=audios` names the table, so it sorts on the whole row, which has no ordering because of the `json` file object: the listing fails with 42883 for type `audios` |
| AudioService.LongFieldUnknown | server/src/utils/pagination.ts:91 | a single sort field whose column name is ASCII and longer than 63 characters fails the listing with 42703 naming its first 63 characters |
| AudioService.TrailingCommaRejected | server/src/utils/pagination.ts:53-55 | `sortBy=name,` (any field followed by a comma) fails the listing with the 42601 empty-identifier error |
| AudioService.TabInSearchWord | server/src/utils/pagination.ts:132-151 | a search for `a<TAB>b` fails the listing with the `tsquery` syntax error when `a<TAB>b:*` is not valid query syntax |
| AudioService.UuidParam | server/src/modules/audio/audio.router.ts:55 | of the ids the route's `uuid` format admits, the five hex groups are read as a uuid (the lower-cased text) and the `urn:uuid:` spelling fails the query with 22P02 |
| AudioService.GetAudio | server/src/modules/audio/audio.service.ts:41-48 | fails exactly for an id the uuid column cannot read; otherwise returns exactly the user's rows whose id equals the given one as a uuid, that is, up to the case of its hex digits |
| AudioService.GetAudioIgnoresCase | server/src/modules/audio/audio.service.ts:41-48 | two spellings of one uuid that differ only in case find the same rows |
| AudioService.GetAudioAtMostOne | server/src/db/tables/audio.table.ts:17 | because `id` is the primary key over uuid values, a successful lookup returns at most one row |
| AudioService.GetAudioOfOtherUser | server/src/modules/audio/audio.service.ts:41-48 | a readable id whose audio belongs to another user gives the empty list, not an error |
| AudioService.DeleteAudio | server/src/modules/audio/audio.service.ts:50-54 | fails, changing nothing, exactly for an id the uuid column cannot read; otherwise removes exactly the user's rows whose id equals the given one as a uuid and keeps every other audio; a join row survives exactly when it points at no removed audio; users and genres are untouched |
| AudioService.DeleteAudioIdempotent | server/src/modules/audio/audio.service.ts:50-54 | a second delete of the same audio after a successful one changes nothing |
| AudioService.DeleteAudioPreservesValid | server/src/db/tables/audio-genre.table.ts:10-12 | a successful owner-scoped delete keeps all table constraints |
| GenreService.GetGenres | server/src/modules/genre/genre.service.ts:16-40 | fails exactly when the search's query text does not parse, a requested field is neither a sortable genre column nor `genres`, the whole row, or the limit or the offset is not a whole bigint, reporting the first of these in that order; otherwise total counts the user's genres that match the name search; every listed row is the user's and matches; the page is a consecutive run of the ordered matches, at most `limit ?? 10` |
| GenreService.ListingIgnoresOtherUsers | server/src/modules/genre/genre.service.ts:25 | other users' genres have no influence on the listing |
| GenreService.WholeRowSorted | server/src/db/tables/genre.table.ts:11-25 | `sortBy=genres` names the table, so it sorts on the whole row; every field of a genre has an ordering, so the listing is answered |
| UserService.GetUserData | server/src/modules/user/user.service.ts:13-24 | succeeds exactly when a row has the session's id and returns the first such row; otherwise NotFound "User not found." |
| UserService.PutUserData | server/src/modules/user/user.service.ts:26-45 | with no row for the id, NotFound; otherwise succeeds exactly when the new e-mail is free, updates only that row's name, e-mail and `updatedAt`, and returns `{id, email, name}` |
| UserService.PutUserDataPreservesValid | server/src/db/tables/user.table.ts:6 | a successful update keeps e-mails unique and every other constraint |
| UserService.GetAfterPut | server/src/modules/user/user.service.ts:30-33 | reading the user back after an update gives the new name, e-mail and timestamp |
| AuthService.Registration | server/src/modules/auth/auth.service.ts:16-38 | succeeds exactly when the fresh id and the e-mail are new; appends a row holding the hash under the fresh id; returns `{id, email, name}`; a clash fails with code 23505 |
| AuthService.RegistrationStoresHash | server/src/modules/auth/auth.service.ts:19-26 | the stored password is the hash of the given one, and the earlier rows are unchanged |
| AuthService.Login | server/src/modules/auth/auth.service.ts:40-57 | no row whose e-mail equals the input up to case gives exactly NotFound "No user found."; otherwise the row checked is the first the database returns among those matches, a stored row matching the e-mail; a failed comparison gives Unauthorized "Invalid credentials.", a passed one that row's `{id, email, name}` |
| AuthService.LoginAfterRegistration | server/src/modules/auth/auth.service.ts:16-57 | logging in with the credentials just registered returns the registration's session, whatever the row order, when no other row has the e-mail up to case |
| AuthService.SingleMatchDecides | server/src/modules/auth/auth.service.ts:42-56 | with exactly one row matching the e-mail up to case, login succeeds with that row's session exactly when the comparison accepts its hash, and is Unauthorized otherwise, whatever the row order |
| Storage.Rethrown | server/src/services/file-storage.service.ts:54-56 | a storage failure is rethrown as a plain error whose message is the operation's prefix followed by the error |
| Storage.FileExtension | server/src/services/file-storage.service.ts:27 | the extension is the suffix after the last `.`, the whole name when there is none, and never holds a `.` |
| Storage.ExtensionAfterLastDot | server/src/services/file-storage.service.ts:27 | for `stem.ext` with a dot-free `ext`, the extension is `ext`, whatever dots `stem` holds |
| Storage.ObjectName | server/src/services/file-storage.service.ts:28 | the object name is `userId/uuid.ext` |
| Storage.UploadFile | server/src/services/file-storage.service.ts:21-57 | a failed put rethrows "Failed to upload file: …"; success stores the buffer under the object name, returns that name, the buffer length and the etag, and leaves every other object as it was |
| Storage.DownloadFile | server/src/services/file-storage.service.ts:59-65 | returns the stored bytes exactly when the call succeeds and the object exists; a failed call, or a missing object, is rethrown as "Failed to download file: " followed by the rendered client error |
| Storage.DeleteFile | server/src/services/file-storage.service.ts:67-73 | on success the object is gone and every other object is unchanged; failures are rethrown with "Failed to delete file: " |
| Storage.MetaOr | server/src/services/file-storage.service.ts:80-87 | a metadata entry is used when present and non-empty, and the fallback otherwise |
| Storage.GetFileMetadata | server/src/services/file-storage.service.ts:75-92 | succeeds exactly when the stat succeeds and the object exists, and otherwise rethrows the rendered client error after "Failed to get file metadata: "; the size is the content length; missing name and type default to "unknown" and "application/octet-stream" |
| Storage.UploadThenMetadata | server/src/services/file-storage.service.ts:30-35 | the metadata of a fresh upload reports its original name, content type, size, upload time and user |
| Storage.UploadThenDownload | server/src/services/file-storage.service.ts:38-53 | downloading the object just uploaded returns the uploaded bytes |
| Storage.GeneratePresignedUrl | server/src/services/file-storage.service.ts:94-107 | presigns a GET for the object with the given expiry or 604800 seconds; failures are rethrown with "Failed to generate presigned URL: " |
| FileService.ObjectKey | server/src/modules/file/file.service.ts:22-23 | the key is the user id, a `/`, then the file name unchanged |
| FileService.ObjectKeyInjective | server/src/modules/file/file.service.ts:23 | for user ids without `/`, equal keys mean the same user and the same file name |
| FileService.UuidUserKeysInjective | server/src/modules/file/file.service.ts:23 | for users whose ids pass the UUID format, no two users or file names share a key |
| FileService.CheckIfObjectExists | server/src/modules/file/file.service.ts:7-15 | true exactly when the stat succeeds and the object is there; any failure reads as absent |
| FileService.PostPresignedUrl | server/src/modules/file/file.service.ts:17-38 | probes the key first; a taken key raises Duplicated with the rename message and nothing more is called; otherwise a PUT is presigned for the same bucket and key; only stat and presign calls are made |
| FileService.IssuedKeyIsProbedKey | server/src/modules/file/file.service.ts:24-37 | the returned key is the probed and presigned key and lies under the user's prefix |
| Authentication.PrefixRoutesExcluded | server/src/middleware/authentication.ts:9-11 | `/docs`, `/file` and `/auth` are excluded, and so is the prefix, a `/` and any tail without a line terminator |
| Authentication.BarePrefixNotExcluded | server/src/middleware/authentication.ts:9-11 | a prefix followed by anything other than `/` (such as `/files` or `/authz`) is not excluded |
| Authentication.HealthOnlyExact | server/src/middleware/authentication.ts:8 | `/api/health` is excluded, but `/api/health/` and `/api/health?x` are not |
| Authentication.AuthenticationMiddleware | server/src/middleware/authentication.ts:15-19 | an excluded URL touches nothing; otherwise the session is read, failing with 401 when it is missing, and then touched once |
| StringValidator.SeparatedSplit | server/src/utils/string-validator.ts:12 | a run of character-class pieces separated by a delimiter is the same as "every piece of the split is valid" |
| StringValidator.EmailHasOneAt | server/src/utils/string-validator.ts:12 | an accepted e-mail contains exactly one `@` |
| StringValidator.EmailParts | server/src/utils/string-validator.ts:11-16 | an e-mail is accepted exactly when the local part's dot-pieces are non-empty atoms, and the domain has at least two labels, each starting and ending alphanumeric with hyphens only inside |
| StringValidator.DomainLabels | server/src/utils/string-validator.ts:12 | the domain pattern holds exactly when it splits into two or more valid labels |
| StringValidator.UuidPositions | server/src/utils/string-validator.ts:18 | a 36-character string matches the 8-4-4-4-12 grammar exactly when positions 8, 13, 18 and 23 are `-` and all others are hex digits of either case |
| StringValidator.UuidShape | server/src/utils/string-validator.ts:18-22 | an accepted UUID, with or without the case-insensitive `urn:uuid:` prefix, has length 36 or 45 and contains no `/` |
| StringValidator.FormatNamed | server/src/utils/string-validator.ts:6-9 | the registry binds `uuid` to the UUID check and `email` to the e-mail check, and nothing else |
| ErrorHandler.DatabaseReply | server/src/middleware/error-handler.ts:32-43 | code 23505 replies 409 with the cause detail, 22007 replies 400 with the query message, and any other code replies 500 with the cause message |
| ErrorHandler.FinalReply | server/src/middleware/error-handler.ts:47-50 | the last send carries the error's declared status, or 500 when it declares none, and the error's own message, or "something went wrong" when that is empty; never data |
| ErrorHandler.Replies | server/src/middleware/error-handler.ts:9-51 | every run ends with the final send; an unrecognised error is sent once; a query error with a database cause is sent three times, always with 500 "Something went wrong." before the final send |
| ErrorHandler.CustomReply | server/src/middleware/error-handler.ts:21-27 | a custom error is first sent with its class's status and its own message |
| ErrorHandler.DuplicateKeyReply | server/src/middleware/error-handler.ts:34-36 | a unique-index violation is first sent as 409 "Key (col)=(value) already exists." |
| ErrorHandler.QueryErrorReply | server/src/middleware/error-handler.ts:29-45 | a query error without a database cause first sends 500 "Something went wrong."; with one, it first sends the database reply |
| ErrorHandler.StorageFailureReply | server/src/services/file-storage.service.ts:54-56 | a rethrown storage failure reaches the client as 500 with the prefixed message |
| ErrorHandler.ValidationReply | server/src/middleware/error-handler.ts:16-19 | a validation error is first sent with `statusCode ?? 400` and the validation report, and is sent twice in all |
| AudiosPage.ToTitleCase | client/src/routes/audios/index.tsx:57-61 | the result has the input's length, and each character is the input's, its upper case or its lower case |
| AudiosPage.ToTitleCaseIsScan | client/src/routes/audios/index.tsx:58-61 | the run-by-run regex replacement equals a left-to-right scan that tracks whether a run is open |
| AudiosPage.ScanOverRun | client/src/routes/audios/index.tsx:59-60 | a run (a word character then non-whitespace) becomes its first character upper-cased followed by the rest lower-cased |
| AudiosPage.TitleCasePointwise | client/src/routes/audios/index.tsx:59-60 | outside a run a word character is upper-cased; inside one, characters are lower-cased; other characters are kept |
| AudiosPage.TitleCaseIdempotent | client/src/routes/audios/index.tsx:57-61 | title-casing twice is the same as title-casing once |
| AudiosPage.WelcomeName | client/src/routes/audios/index.tsx:192 | a missing name shows as the empty string; a present one is title-cased |
| UploadDialog.LastDot | client/src/components/upload-dialog.tsx:153 | finds the last `.` of a name, or reports that there is none |
| UploadDialog.StripExtension | client/src/components/upload-dialog.tsx:153 | the result is a prefix of the name; when it differs, the name continues with `.` and one extension (characters other than `/` and `.`, at least one) |
| UploadDialog.StripChangesExactly | client/src/components/upload-dialog.tsx:153 | the name changes exactly when it ends in `.` followed by an extension |
| UploadDialog.StripsExtension | client/src/components/upload-dialog.tsx:153 | `stem.ext` strips to `stem` |
| UploadDialog.StripOnlyOnce | client/src/components/upload-dialog.tsx:153 | `a.b.c` strips to `a.b`: one extension per call, so stripping is not idempotent |
| UploadDialog.HiddenNameStripsToEmpty | client/src/components/upload-dialog.tsx:153 | `.hidden` strips to the empty string |
| UploadDialog.OnDrop | client/src/components/upload-dialog.tsx:147-160 | an empty drop does nothing; otherwise the first file is kept and the form name is its stripped name |
| UploadDialog.OnlyFirstFileCounts | client/src/components/upload-dialog.tsx:150 | the files after the first have no effect |
| UploadDialog.UploadAudio | client/src/components/upload-dialog.tsx:53-110 | progress 10 then the URL request first; success exactly when every request succeeds; a non-ok PUT throws "Upload failed: statusText" before progress 70 and before the audio is posted; the posted record takes bucket and key from the server, size from the file and name from the form |
| UploadDialog.PercentsAppend | client/src/components/upload-dialog.tsx:59-104 | the progress reports of two step lists in sequence are the reports of each in sequence |
| UploadDialog.UploadPercents | client/src/components/upload-dialog.tsx:59-104 | a successful upload reports 10, 20, 70, 100; a failed one reports a proper prefix of that list; a non-ok PUT never reports 70 |
| UploadDialog.UploadMutation | client/src/components/upload-dialog.tsx:136-145 | the mutation's answer is the upload's; on success the progress reads 10, 20, 70, 100 and is then reset to 0 by the dialog reset; on error it reads a proper prefix of that list and is then reset to 0 |
| GenresPage.GenreNameIssues | client/src/routes/genres/index.tsx:48-53 | a name is accepted exactly when its UTF-16 length is 1 to 50; empty gives the "required" issue and over 50 gives the "too long" issue |
| GenresPage.GenreNameBoundary | client/src/routes/genres/index.tsx:52 | a 50-character name is accepted and one more character rejects it |
| GenresPage.GenreCountLabel | client/src/routes/genres/index.tsx:293-295 | the label is "No genres created yet" exactly for 0; otherwise it is decimal digits that read back as the count, then " genre total" for 1 and " genres total" for more |
| GenresPage.CountLabelReadsBack | client/src/routes/genres/index.tsx:295 | for a count of at least 1 the label is the count's digits and "genre total" or "genres total", and the digits parse back to the count |
| GenresPage.CountLabelInjective | client/src/routes/genres/index.tsx:293-295 | distinct counts give distinct labels, 0 being "No genres created yet" |
| Strings.Trim | server/src/utils/pagination.ts:133 | the result is a slice of the input after its leading whitespace, followed only by whitespace; it starts and ends with a non-space, and is empty exactly when the input is all whitespace |
| Strings.JoinSplit | server/src/utils/pagination.ts:54 | joining the pieces of a split with the same separator gives back the string |
| Strings.ParseNatToString | client/src/routes/genres/index.tsx:295 | a count's decimal rendering parses back to the count |
| Strings.Utf16Length | client/src/routes/genres/index.tsx:51-52 | the length the form's rule measures lies between the number of characters and twice that number |
| GenresPage.Utf16LengthBmp | client/src/routes/genres/index.tsx:51-52 | for names made only of characters up to U+FFFF, the measured length is the character count |

## Left out

- PostgreSQL full-text matching (`to_tsvector`, `to_tsquery`, `@@`, the `COALESCE` fallback) is a predicate parameter. The model computes the query string and the weights, not what they match.
- The `tsquery` grammar is a predicate parameter, `tsParses`. The model says that a query text it rejects fails the listing with SQLSTATE 42601, but not which texts those are (a tab or a quote inside a word, for instance).
- Which column types can be ordered is taken from PostgreSQL for the types the two listed tables use: `json`, `xid` and `cid` cannot be. Sort terms are looked up by their exact, quoted name among the table's columns and system columns. A name that no column has is tried as the table's own name, which denotes the whole row; that row orders when all its fields do, and its type is named after the table.
- A quoted name is kept to 63 bytes, PostgreSQL's default `NAMEDATALEN` less one, counting UTF-8 bytes. A server encoding other than UTF-8 is not modelled.
- The database error messages of the sort and search failures follow PostgreSQL's wording, naming the identifier as the database kept it. The driver's own message is abbreviated to "Failed query", as for the other query errors.
- `toSnakeCase` is a function parameter, because its library source is not part of this model.
- The ORDER BY of the database is a parameter that must rearrange its input. How PostgreSQL breaks ties is not modelled.
- bcrypt hashing and comparison, `randomUUID` and the clock are parameters.
- MinIO is a map from (bucket, key) to stored object. Whether each call fails is a parameter. URL signing is an opaque function, and `presignExpiryDuration` is a parameter because its value is not defined in the configuration shown.
- Concurrency, including the race between the existence probe and the later PUT, is not modelled.
- Routers, Fastify and session-plugin wiring, Ajv and TypeBox setup, logging, CORS, swagger, environment and startup are not modelled. The pagination schema's checks appear only as the `SchemaValid` predicate that the listing operations require.
- ErrorHandler.FirstReply: which of several attempted sends Fastify honours is framework behaviour. The model lists the attempted sends, and `FirstReply` is only the first attempt.
- Pagination.GetSortColumn: the branch where a mapped column makes `getTableName` throw something other than a `TypeError` (giving `UnknownError`) is not modelled. A mapped column always succeeds.
- Pagination.NormalizeSearchText: lower-casing is ASCII-only, while `toLowerCase` maps all of Unicode.
- Pagination.SearchTokens: the contract inherits the ASCII-only lower-casing of `NormalizeSearchText`.
- AudiosPage.ToTitleCase: upper- and lower-casing are ASCII-only. The regex's `\w` and `\S` classes are exact.
- UserService.PutUserData: models an update that matches the session's one row (ids are a primary key). It does not model a driver that updates several rows.
- The listing operations require `SchemaValid`, the request validation that runs before them in the server.
- AuthService.Login: when several rows match the e-mail up to case (the unique index compares e-mails exactly), which one is checked is the database's choice, modelled by the `scan` parameter. The model promises only that it is one of the matches.
- AuthService.Login: `lower()` in PostgreSQL and `toLowerCase` in JavaScript map all of Unicode, which may differ from each other; the model lower-cases ASCII letters only, on both sides.
- Listing.BigintParam: the driver's error message is abbreviated to "Failed query", and PostgreSQL's message omits the offending text. `Infinity`, which the query-string coercion can produce, is not modelled, since the number is a real.
- `formatFileSize` (floating point), `formatDate` and the "this week" filter (current time) are not modelled. The same goes for React components, hooks, toasts, fetch wrappers and cookies.
- Call sites that disagree with the functions they call are not modelled: the file router passes four arguments and expects `fileObject` back, and the upload dialog destructures an object from a call that returns a string. `UploadAudio` takes the grant as the object the dialog expects.
- The model follows the code in these places, where a reader might expect otherwise:
  - `deleteAudio` removes only the database row and makes no storage call.
  - `getAudio` returns a possibly empty list instead of raising NotFound.
  - `/file/*` routes skip the middleware entirely.
  - The audio row's file object is `{bucket, objectKey}`.
