# Room catalog: a verified Dafny model

This project models the room catalog of a property-listing application.

- **Back end (Laravel).** The `rooms` table and its foreign key on the owner. The `Room` model: fillable columns, soft delete, two media collections, two image conversions and the `images` attribute. The `RoomRequest` form request: authorize, `is_available` coercion, rules. The `RoomsDto` value object. `RoomService`: filtering, visibility, projection, pagination, create, update, delete and media. `RoomController`: role gate, filter whitelist, page size, meta block, upload validation and owner assignment.
- **Front end (TypeScript).** The zod schemas for the room form, the filter bar and a room read from the API. The query string and form data built by `roomService.list` and `roomService.uploadImages`. The toast store's `addToast` and `removeToast`.

## How the model is built

Modules follow the source files:

| module | file | models |
|---|---|---|
| `RoomsTable` | `rooms_table.dfy` | the migration |
| `RoomModel` | `room_model.dfy` | `Room.php` |
| `RoomQuery` | `room_query.dfy` | the Eloquent query that `getRooms` builds |
| `RoomsDto` | `rooms_dto.dfy` | `RoomsDto.php` |
| `RoomRequest` | `room_request.dfy` | `RoomRequest.php` |
| `Services` | `room_service.dfy` | `RoomService.php` |
| `RoomController` | `room_controller.dfy` | `RoomController.php` and the routes |
| `RoomForm` | `room_form.dfy` | `room.dto.ts` |
| `RoomClient` | `room_client.dfy` | `room.service.ts` |
| `Toasts` | `toast.dfy` | `use-toast.ts` |

Three helper modules support them:
- `Wrappers`: `Option` and `Result`.
- `Text`: ASCII lower-casing, substrings, decimal literals, number rendering and PHP's `(int)` cast.
- `Values`: the scalar values a JSON body carries, with PHP's readings of them (`is_numeric`, `filter_var` boolean, blankness).

Modelling choices:
- **Numbers** are integers in hundredths, matching the two-place decimal columns.
  - bedrooms and bathrooms reach the integer DTO fields truncated toward zero.
  - The front end's `String(n)` and `Number(s)` are modelled on the same scale.
- **The rooms table** is a sequence whose i-th row has id i+1.
  - Rows are soft-deleted, never removed, and are listed in id order. The source has no `orderBy`, so this order is a modelling choice.
- **The fillable attributes** are the nine fields of `RoomsTable.Columns` plus the owner, which only an insert sets. No write can set any other column.
- **The media table** is a sequence with a counter for the next media id.
- **Stateful code becomes classes.**
  - `RoomService` holds both tables; each operation is a method with a `modifies` clause, proved against specification functions (`Matching`, `Paginate`, `InsertRow`, `UpdateRow`, `SoftDelete`, `Attach`, `Uploaded`).
  - The query builder is a class whose `Where` narrows the set of rows it matches.
  - The form request rewrites its input in place.
  - The controller calls the service.
  - The toast store replaces its list.
- **The caller** is `Anonymous`, `User(id)` or `Admin(id)`.
- **Request middleware.** Laravel's default global TrimStrings and ConvertEmptyStringsToNull run before the controller, on the query string and on the body.
  - Strings lose surrounding white space, and a string left empty becomes null (`Values.CleanText`, `Values.Clean`).
  - A query key whose value became null is left out of the filter bag. Every reader tests it with `isset`, which treats null as absent.
  - The framework bootstrap that registers this stack is not part of this model.
- **Behaviour of the code, reproduced as written:**
  - The name-uniqueness rule counts soft-deleted rooms.
  - An absent `is_available` on create gives an unavailable room, because `fromArray` defaults it to false, so the service's `?? true` never fires.
  - `show` applies no availability or projection rule.
  - The numeric rules accept negative and fractional numbers.
  - `?is_available=true` selects unavailable rooms, because of the `(int)` cast.
  - The front end's `min_price` and `max_price` never reach the filter.
  - `?bedrooms=` lists every room: the empty text becomes null, and `isset` skips it.
  - Deleting a room keeps its media. Only a force delete would remove it.

## Model

| member | source | states |
|---|---|---|
| RoomsTable.TypeName | backend/database/migrations/2025_12_01_072315_create_rooms_table.php:22 | the enum text of a room type is one of rent, sale |
| RoomsTable.ParseType | backend/database/migrations/2025_12_01_072315_create_rooms_table.php:22 | the enum column accepts exactly "rent" and "sale", the inverse of TypeName |
| RoomsTable.ColumnsViolation | backend/database/migrations/2025_12_01_072315_create_rooms_table.php:16-22 | a write is refused iff description or type is null or type is outside the enum |
| RoomsTable.InsertRow | backend/database/migrations/2025_12_01_072315_create_rooms_table.php:11-27 | insert succeeds iff no NOT NULL, enum or owner foreign-key constraint fails; the row holds the given columns, is_available defaults to true, both timestamps are set, not trashed, owner reference valid |
| RoomsTable.DeleteUser | backend/database/migrations/2025_12_01_072316_add_foreign_keys.php:13-16 | deleting a user is refused iff some row (trashed or not) references it; afterwards every valid owner reference stays valid |
| RoomModel.UpdateRow | backend/app/Models/Room.php:61-72 | update replaces every supplied data column and keeps id, owner, created_at and the soft-delete marker; updated_at moves only when something changed; a refused write changes nothing |
| RoomModel.SoftDelete | backend/app/Models/Room.php:59 | delete sets the soft-delete marker and updated_at and changes nothing else |
| RoomModel.NewMedia | backend/app/Models/Room.php:96-108 | an attached file gets the thumb and preview conversions at once, in registration order |
| RoomModel.MediaOf | backend/app/Models/Room.php:80 | a room's media are exactly the media rows carrying its id |
| RoomModel.Collected | backend/app/Models/Room.php:80 | getMedia(collection) keeps exactly the items of that collection |
| RoomModel.WithoutCollection | backend/app/Models/Room.php:92-93 | clearing a single-file collection removes exactly that room's items in that collection |
| RoomModel.AttachCollections | backend/app/Models/Room.php:88-94 | attaching to thumbnail leaves exactly the new file there; attaching to images appends at the end; other collections and rooms are untouched |
| RoomModel.AttachKeepsSingleFile | backend/app/Models/Room.php:92-93 | the thumbnail collection never holds more than one item |
| RoomModel.RemoveAt | backend/app/Models/Room.php:59 | deleting a media row removes one row and adds none |
| RoomModel.RemoveAtShrinksCollections | backend/app/Models/Room.php:88-94 | removing a media row never grows any room's collection |
| RoomModel.LastIndexOf | backend/app/Models/Room.php:83 | finds the final dot of a file name, or reports that there is none |
| RoomModel.FileStemOfExtension | backend/app/Models/Room.php:83-84 | PATHINFO_FILENAME drops only the final extension |
| RoomModel.ImagesAttribute | backend/app/Models/Room.php:76-86 | one entry per item of the images collection, in order, with the url base/id/file_name and the thumb and preview URLs base/id/conversions/stem-thumb.jpg and -preview.jpg |
| RoomModel.ImagesAttributeSkipsThumbnails | backend/app/Models/Room.php:80 | no entry of the attribute carries the id of a thumbnail item |
| RoomModel.WithoutCollectionKeepsUniqueIds | backend/app/Models/Room.php:92-93 | clearing a collection keeps media ids unique |
| RoomModel.AttachKeepsUniqueIds | backend/app/Models/Room.php:88-94 | attaching a media item with a fresh id keeps media ids unique |
| RoomModel.RemoveAtByIds | backend/app/Models/Room.php:59 | with unique ids, removing one media row removes exactly the item with that id |
| RoomModel.MediaPathsDiffer | backend/app/Models/Room.php:82 | two different media ids give two different URLs |
| RoomModel.EntryUrlsDistinguishMedia | backend/app/Models/Room.php:82-84 | two media items with different ids get different url, thumb and preview |
| RoomQuery.Builder.constructor | backend/app/Services/RoomService.php:48 | a fresh query selects every column and has no clauses |
| RoomQuery.Builder.Select | backend/app/Services/RoomService.php:51-59 | select replaces the column list and keeps the clauses |
| RoomQuery.Builder.Where | backend/app/Services/RoomService.php:14 | where appends one clause; a row matches afterwards iff it matched before and satisfies the clause |
| RoomQuery.Matching | backend/app/Services/RoomService.php:46-66 | the listing keeps exactly the rows that are visible to the caller and pass every filter, in table order |
| RoomQuery.RunIsMatching | backend/app/Services/RoomService.php:55-64 | running the built clauses over the table gives the reference listing |
| RoomQuery.MatchingKeepsIdOrder | backend/app/Services/RoomService.php:66 | the listing is in ascending id order |
| RoomQuery.MatchingAppend | backend/app/Services/RoomService.php:46-66 | filtering distributes over concatenating tables |
| RoomQuery.SoftDeleteHidesRow | backend/app/Services/RoomService.php:118-123 | after a soft delete the listing is the listing of the table without that row |
| RoomQuery.NonAdminSeesOnlyAvailable | backend/app/Services/RoomService.php:61 | every row a non-admin sees is available and live, whatever the filters |
| RoomQuery.AvailableRows | backend/app/Services/RoomService.php:61 | the live available rows |
| RoomQuery.NonAdminTotalCountsAvailableOnly | backend/app/Services/RoomService.php:55-66 | a non-admin total counts only available rows; with no filters it is exactly the available rows |
| RoomQuery.BedroomsFilterIsExact | backend/app/Services/RoomService.php:13-15 | bedrooms=n keeps exactly the rows with n bedrooms |
| RoomQuery.BathroomsFilterIsExact | backend/app/Services/RoomService.php:17-19 | bathrooms=n keeps exactly the rows with n bathrooms |
| RoomQuery.DecimalFilterIsExact | backend/app/Services/RoomService.php:21-27 | price=n and area=n keep exactly the rows whose value equals n |
| RoomQuery.NonNumericFilterAdmitsNothing | backend/app/Services/RoomService.php:13-27 | at the service, a numeric filter whose text is not a number matches no row; a blank text never gets there, as RoomController.BlankFilterSkipped shows |
| RoomQuery.EmptyTypeAndAvailabilitySkipped | backend/app/Services/RoomService.php:37-43 | type and is_available given as "" act as if absent |
| RoomQuery.AvailabilityFilterByDigit | backend/app/Services/RoomService.php:41-43 | is_available=1 keeps available rows, =0 keeps unavailable rows |
| RoomQuery.AvailabilityWordCastsToZero | backend/app/Services/RoomService.php:42 | is_available=true is cast to 0 and keeps the unavailable rows |
| RoomQuery.SearchIgnoresTermCase | backend/app/Services/RoomService.php:30 | the search term is lower-cased, so its case never matters |
| RoomQuery.EmptySearchAdmitsAll | backend/app/Services/RoomService.php:29-35 | an empty search term matches every row |
| RoomQuery.LuxuryNameMatches | backend/app/Services/RoomService.php:31-33 | a name starting with "Luxury" matches the search "Luxury" |
| RoomQuery.BudgetNameMisses | backend/app/Services/RoomService.php:31-33 | "Budget Apartment" without "luxury" in its description does not match |
| RoomQuery.LuxurySearchExample | backend/app/Services/RoomService.php:29-35 | of Luxury Condo, Budget Apartment and Luxury Suite, the search "Luxury" returns the first and the third, in order |
| RoomQuery.Project | backend/app/Services/RoomService.php:51-59 | a projected row holds exactly the selected columns with their stored values |
| RoomQuery.Views | backend/app/Services/RoomService.php:48 | one view per listed row, in order, each with its media |
| RoomQuery.ProjectionColumns | backend/app/Services/RoomService.php:50-59 | the public projection is exactly id, name, address, description, bedrooms, bathrooms, price, area, type; the admin one adds is_available, created_at, updated_at; owner_id and deleted_at are never shown |
| RoomQuery.EffectivePerPage | backend/app/Services/RoomService.php:66 | a page size of 0 falls back to the model's 15; any other size is kept |
| RoomQuery.LastPage | backend/app/Services/RoomService.php:66 | last_page is at least 1 and is the smallest page count that covers the total |
| RoomQuery.Offset | backend/app/Services/RoomService.php:66 | the rows a page skips: (page - 1) × size for a size of at least 0, and 0 for a negative size, as forPage clamps the offset; never negative |
| RoomQuery.FirstItem | backend/app/Http/Controllers/Api/Room/RoomController.php:46 | firstItem() is the offset plus 1 for a size of at least 0; for a negative size it is not clamped and is at most 1 |
| RoomQuery.Window | backend/app/Services/RoomService.php:66 | a window holds at most size rows, the consecutive rows from its start, and is full when enough rows remain |
| RoomQuery.Paginate | backend/app/Services/RoomService.php:66 | total, per_page, current_page and last_page are set; the items are that page's window (every row when no limit); from and to number the first and last item from firstItem() and are null on an empty page; with a positive size they lie within 1..total |
| RoomQuery.EveryRowOnItsPage | backend/app/Services/RoomService.php:66 | row k is item k mod perPage of page k div perPage + 1 |
| RoomQuery.EarlierPagesAreFull | backend/app/Services/RoomService.php:66 | every page before the last holds per_page items |
| RoomQuery.LastPageIsTheEnd | backend/app/Services/RoomService.php:66 | the last page is non-empty when there are rows, and every later page is empty |
| RoomQuery.TwentyRowsFivePerPage | backend/app/Services/RoomService.php:66 | 20 rows at 5 per page: 5 items, total 20, last_page 4 |
| RoomQuery.DefaultPageSize | backend/app/Services/RoomService.php:46 | an unset page size gives pages of 15 |
| RoomsDto.WithDefaults | backend/app/DTOs/RoomsDto.php:6-16 | the constructor defaults: description null, no bedrooms or bathrooms, is_available 1 |
| RoomsDto.FromArray | backend/app/DTOs/RoomsDto.php:18-31 | address, name, area, price and type are copied; absent description becomes null; absent bedrooms and bathrooms become 0, present ones their value truncated toward zero; is_available is 1 iff it is true, otherwise 0 |
| RoomsDto.AbsentAvailabilityDiffersFromConstructor | backend/app/DTOs/RoomsDto.php:15-29 | without is_available, fromArray gives 0 where the constructor default is 1 |
| RoomsDto.WholeBedroomsKept | backend/app/DTOs/RoomsDto.php:27 | a whole number of bedrooms arrives unchanged |
| RoomsDto.FractionalBedroomsTruncated | backend/app/DTOs/RoomsDto.php:27 | 2.5 bedrooms becomes 2 and -2.5 becomes -2 |
| RoomRequest.Authorize | backend/app/Http/Requests/RoomRequest.php:10-13 | authorization passes iff the caller is an admin |
| RoomRequest.ImageErrors | backend/app/Http/Requests/RoomRequest.php:44 | images.i is reported iff file i fails image, mimes or max, and nothing else is reported |
| RoomRequest.FieldErrors | backend/app/Http/Requests/RoomRequest.php:28-42 | each scalar attribute is reported iff its rule fails |
| RoomRequest.FileErrors | backend/app/Http/Requests/RoomRequest.php:43-44 | `images` is reported iff no files are sent and the body carries a value under it that is neither null nor blank; with files, exactly the failing files are reported |
| RoomRequest.Validate | backend/app/Http/Requests/RoomRequest.php:24-46 | validation passes iff no rule fails, the image rules included; the validated data is the input restricted to the scalar rule keys; otherwise it reports exactly the failing attributes |
| RoomRequest.ScalarImagesRejected | backend/app/Http/Requests/RoomRequest.php:43 | text, a number or a boolean under `images` without files fails validation on `images`, besides whatever the scalar rules report |
| RoomRequest.Prepared | backend/app/Http/Requests/RoomRequest.php:15-22 | a present is_available, null included, becomes its filter_var reading or null; every other key is kept |
| RoomRequest.RequestDto | backend/app/Http/Controllers/Api/Room/RoomController.php:61 | the DTO is fromArray of the validated, coerced input, and exists iff validation passes; otherwise the failing attributes |
| RoomRequest.FormRequest.constructor | backend/app/Http/Requests/RoomRequest.php:8 | the request holds its input, files, route id and caller |
| RoomRequest.FormRequest.PrepareForValidation | backend/app/Http/Requests/RoomRequest.php:15-22 | when present, is_available is replaced by its filter_var reading, null on failure; nothing else changes |
| RoomRequest.FormRequest.Resolve | backend/app/Http/Requests/RoomRequest.php:10-46 | input is coerced first, then a non-admin gets Forbidden, then the rules decide between the validated data and the failing attributes |
| RoomRequest.CoercedAvailabilityPasses | backend/app/Http/Requests/RoomRequest.php:17-21 | after coercion the is_available rule never fails |
| RoomRequest.EmptyPayloadErrors | backend/app/Http/Requests/RoomRequest.php:28-42 | an empty body fails on exactly name, address, area, price, type, bedrooms and bathrooms |
| RoomRequest.TrashedNameStillTaken | backend/app/Http/Requests/RoomRequest.php:32 | a soft-deleted room's name still blocks a create or a rename of another room |
| RoomRequest.UpdateIgnoresOwnRow | backend/app/Http/Requests/RoomRequest.php:26-34 | validating an update equals validating a create against the table without the updated room: its own name never blocks it, every other name does |
| RoomRequest.NumbersNeedNotBeNaturals | backend/app/Http/Requests/RoomRequest.php:37-41 | -1.5 passes numeric, as a number or as text |
| RoomRequest.ValidatedIsAcceptable | backend/app/Http/Requests/RoomRequest.php:24-46 | validated, coerced data always satisfies what fromArray reads |
| Services.CreateColumns | backend/app/Services/RoomService.php:76-87 | create writes description ?? '' and the DTO's is_available as a boolean; the rest is copied |
| Services.Uploaded | backend/app/Services/RoomService.php:89-94 | one images-collection media item per file, in order, with consecutive ids |
| Services.FindMedia | backend/app/Services/RoomService.php:140 | finds a media row with that id belonging to that room, or reports that there is none |
| Services.UploadExtendsImages | backend/app/Services/RoomService.php:129-132 | uploading appends the new files to the end of the room's images collection |
| Services.NewRoomListsUploads | backend/app/Services/RoomService.php:89-96 | a new room's images attribute lists exactly the uploaded files in order |
| Services.RoomService.constructor | backend/app/Services/RoomService.php:9 | empty tables that satisfy the store invariant |
| Services.RoomService.RoomsFilter | backend/app/Services/RoomService.php:11-44 | the query keeps its columns and now matches a row iff it matched before and passes every filter |
| Services.RoomService.FilterNumber | backend/app/Services/RoomService.php:13-27 | one numeric filter narrows the query by exactly its predicate |
| Services.RoomService.FilterSearch | backend/app/Services/RoomService.php:29-35 | the search group narrows the query by the name-or-description predicate |
| Services.RoomService.FilterType | backend/app/Services/RoomService.php:37-39 | the type filter narrows the query by its predicate |
| Services.RoomService.FilterAvailability | backend/app/Services/RoomService.php:41-43 | the is_available filter narrows the query by its predicate |
| Services.RoomService.GetRooms | backend/app/Services/RoomService.php:46-67 | the page of the reference listing, projected for the caller |
| Services.RoomService.GetRoomById | backend/app/Services/RoomService.php:69-72 | the stored row iff the id is live, otherwise NotFound |
| Services.RoomService.AddMedia | backend/app/Services/RoomService.php:91-92 | attaching one file keeps the store invariant and applies the collection rules |
| Services.RoomService.AttachImages | backend/app/Services/RoomService.php:89-94 | the loop attaches every file to images, in order |
| Services.RoomService.CreateRoom | backend/app/Services/RoomService.php:74-97 | a new row as InsertRow gives it, owned by ownerId, appended to the table; its images are exactly the given files; a refused insert changes nothing |
| Services.RoomService.UpdateRoom | backend/app/Services/RoomService.php:99-116 | NotFound for an unknown or trashed id; otherwise the row becomes UpdateRow of it, nothing else changes |
| Services.RoomService.DeleteRoom | backend/app/Services/RoomService.php:118-123 | NotFound for an unknown or trashed id; otherwise only that row is soft-deleted; afterwards the id is not live |
| Services.RoomService.UploadImages | backend/app/Services/RoomService.php:125-135 | NotFound for an unknown or trashed id; otherwise the files are appended to the room's images |
| Services.RoomService.DeleteImage | backend/app/Services/RoomService.php:137-143 | succeeds iff the room is live and the media item belongs to it; removes exactly that media item |
| RoomController.Gate | backend/app/Http/Controllers/Api/Room/RoomController.php:17-22 | a call passes iff the route's authentication and the admin role (for mutations) hold; 401 exactly for an anonymous caller on an authenticated route, 403 otherwise |
| RoomController.MutationsNeedAdmin | backend/app/Http/Controllers/Api/Room/RoomController.php:20 | store, update, destroy, uploadImages and deleteImage pass iff the caller is an admin |
| RoomController.ReadsAreOpen | backend/routes/api.php:20-31 | index and show pass for everyone on the public routes and for any signed-in caller on the authenticated ones |
| RoomController.Only | backend/app/Http/Controllers/Api/Room/RoomController.php:34 | the filter bag holds exactly the query keys among the seven filter keys, with their values |
| RoomController.OtherKeysIgnored | backend/app/Http/Controllers/Api/Room/RoomController.php:34 | a key outside the seven never changes the filters |
| RoomController.BlankFilterSkipped | backend/app/Services/RoomService.php:13 | a filter sent empty or as white space lists the same rooms as no filter under that key |
| RoomController.FilterTextTrimmed | backend/app/Http/Controllers/Api/Room/RoomController.php:34 | a filter padded with white space reaches the service as the text without it |
| RoomController.ResolvePerPage | backend/app/Http/Controllers/Api/Room/RoomController.php:35 | per_page defaults to 15; a blank text is an error; any other text is read trimmed |
| RoomController.PageOfText | backend/app/Http/Controllers/Api/Room/RoomController.php:33-37 | FILTER_VALIDATE_INT with a minimum of 1: the page lies between 1 and PHP_INT_MAX |
| RoomController.PerPageOfText | backend/app/Http/Controllers/Api/Room/RoomController.php:35 | a numeric text whose value fits a PHP integer is used, truncated toward zero; a non-numeric or out-of-range text is an error |
| RoomController.PerPageRoundTrip | backend/app/Http/Controllers/Api/Room/RoomController.php:35 | a rendered integer as per_page arrives as that integer when PHP can hold it, and is an error otherwise |
| RoomController.ResolvePage | backend/app/Http/Controllers/Api/Room/RoomController.php:33-37 | the page number used is between 1 and PHP_INT_MAX; a text that is not blank is read trimmed |
| RoomController.PageOfDigits | backend/app/Http/Controllers/Api/Room/RoomController.php:33-37 | digits without a leading zero are that page up to PHP_INT_MAX, and page 1 beyond it |
| RoomController.PageRoundTrip | backend/app/Http/Controllers/Api/Room/RoomController.php:33-37 | page=n gives page n up to PHP_INT_MAX, and page 1 beyond it |
| RoomController.PageFallsBackToFirst | backend/app/Http/Controllers/Api/Room/RoomController.php:33-37 | "0", "abc" and a blank page give page 1 |
| RoomController.MetaOf | backend/app/Http/Controllers/Api/Room/RoomController.php:41-48 | the meta block copies total, per_page, current_page, last_page, from and to from the page |
| RoomController.UploadErrors | backend/app/Http/Controllers/Api/Room/RoomController.php:96-99 | an upload passes iff the list is present, non-empty and every file passes |
| RoomController.OneBadFileRejectsBatch | backend/app/Http/Controllers/Api/Room/RoomController.php:98 | one failing file makes the whole batch fail |
| RoomController.ImageIds | backend/app/Http/Controllers/Api/Room/RoomController.php:107-111 | the reply lists the room's images by id, in order |
| RoomController.Controller.constructor | backend/app/Http/Controllers/Api/Room/RoomController.php:24-26 | the controller holds its service |
| RoomController.Controller.Index | backend/app/Http/Controllers/Api/Room/RoomController.php:28-50 | gate status; 500 for a blank, non-numeric or out-of-range per_page; otherwise 200 with the page of the listing under the cleaned, whitelisted filters, for an admin test that is false without a user, and its meta |
| RoomController.Controller.Show | backend/app/Http/Controllers/Api/Room/RoomController.php:52-57 | gate status; 404 for an unknown or trashed id; otherwise the room with every column, whatever its availability |
| RoomController.Controller.Store | backend/app/Http/Controllers/Api/Room/RoomController.php:59-72 | 401 or 403 for non-admins, storing nothing; for an admin, 422 with the failing attributes iff the cleaned, coerced input fails validation, storing nothing; otherwise 201 iff InsertRow accepts the DTO's columns owned by the caller, the table gaining exactly that row and the media table exactly the uploaded images; a refused insert is 500 and changes neither table |
| RoomController.Controller.Update | backend/app/Http/Controllers/Api/Room/RoomController.php:74-83 | 401 or 403 for non-admins; for an admin, 422 iff validation ignoring the room's own name fails; 404 for an unknown or trashed id; otherwise 200 iff UpdateRow accepts the DTO's columns, that row becoming the updated one and nothing else changing; a refused update is 500 and changes nothing |
| RoomController.Controller.Destroy | backend/app/Http/Controllers/Api/Room/RoomController.php:85-92 | a refused caller leaves the rooms untouched; 404 for an unknown id; otherwise a soft delete and the message |
| RoomController.Controller.UploadImages | backend/app/Http/Controllers/Api/Room/RoomController.php:94-114 | validation runs before the service: an invalid batch gives 422 and attaches nothing; an unknown room gives 404; else the files are appended and the reply is 200, carrying the message, the room's full view and the ids of its images in order |
| RoomController.Controller.DeleteImage | backend/app/Http/Controllers/Api/Room/RoomController.php:116-123 | for an admin, 200 iff the room is live and owns the media item; only that item is removed; 404 changes nothing |
| RoomForm.CoerceNumber | frontend/src/dto/room.dto.ts:27-30 | numbers stay as they are, undefined is NaN |
| RoomForm.CoerceRendered | frontend/src/dto/room.dto.ts:27-30 | Number(String(n)) == n |
| RoomForm.FormErrors | frontend/src/dto/room.dto.ts:23-33 | a form field is reported iff its schema fails |
| RoomForm.ParseRoomForm | frontend/src/dto/room.dto.ts:23-33 | parses iff no field fails; name and address are the input texts with 1..255 characters; description is the input text, present iff its key is; each number is the coerced input value and non-negative; type is the input's rent or sale; is_available is the input boolean, defaulting to true |
| RoomForm.NegativeRefusedByFormOnly | frontend/src/dto/room.dto.ts:27-30 | -1 is refused by the form and accepted by the back end's numeric rule |
| RoomForm.BlankNamePassesFormOnly | frontend/src/dto/room.dto.ts:24 | a blank name passes min(1) but fails the back end's required |
| RoomForm.Payload | frontend/src/dto/room.dto.ts:23-33 | the submitted JSON carries description only when set, and always carries is_available |
| RoomForm.PayloadUntouched | frontend/src/dto/room.dto.ts:23-33 | the middleware and prepareForValidation leave the payload of a form without padded texts as it was sent |
| RoomForm.SubmittedFormReachesDto | frontend/src/dto/room.dto.ts:23-33 | a parsed form without padded texts that the back end accepts reaches the DTO through the middleware, prepareForValidation and validation field for field, bedrooms and bathrooms truncated, is_available as 1 or 0 |
| RoomForm.FilterErrors | frontend/src/dto/room.dto.ts:35-41 | a filter field is reported iff its schema fails |
| RoomForm.OptionalNumber | frontend/src/dto/room.dto.ts:37-39 | an optional number is set iff its key is present, and is then the coerced input value |
| RoomForm.ParseRoomFilters | frontend/src/dto/room.dto.ts:35-41 | parses iff no field fails; each field is set iff present; type and search are the input texts, type being rent, sale or ""; min_price, max_price and bedrooms are the coerced input values |
| RoomForm.EmptyFiltersParse | frontend/src/dto/room.dto.ts:35-41 | an empty filter bar parses with nothing set |
| RoomForm.RoomShapeErrors | frontend/src/dto/room.dto.ts:9-21 | a field of a room read back is reported iff its schema fails |
| RoomForm.NullDescriptionWithoutMediaAccepted | frontend/src/dto/room.dto.ts:13-20 | a room read back may have a null description and no media |
| RoomForm.PublicProjectionLacksAvailability | frontend/src/dto/room.dto.ts:19 | a room as the public listing projects it fails roomSchema on is_available alone, when price and area arrive as JSON numbers (driver-dependent) |
| RoomClient.Param | frontend/src/services/room.service.ts:18-22 | only the five listed keys ever produce a parameter |
| RoomClient.Entry | frontend/src/services/room.service.ts:18-22 | the k-th step emits at most one pair, under the k-th key, iff its value is truthy |
| RoomClient.EmittedKeys | frontend/src/services/room.service.ts:17-22 | every emitted key comes from the steps not yet run |
| RoomClient.EmittedOrdered | frontend/src/services/room.service.ts:18-22 | parameters come out in the order type, min_price, max_price, bedrooms, search |
| RoomClient.EmittedComplete | frontend/src/services/room.service.ts:18-22 | every truthy filter is emitted |
| RoomClient.EmittedEncodes | frontend/src/services/room.service.ts:17-22 | the emitted list encodes the filters: ordered, no repeated key, exactly the truthy ones with their rendered values |
| RoomClient.EntriesAsAppended | frontend/src/services/room.service.ts:18-22 | each step's pair is the text, or String() of the number, when truthy |
| RoomClient.ListParams | frontend/src/services/room.service.ts:16-22 | the five conditional appends build exactly the encoded parameter list |
| RoomClient.QueryOf | frontend/src/services/room.service.ts:24 | the query string the back end reads has exactly the emitted keys |
| RoomClient.FalsyFiltersDropped | frontend/src/services/room.service.ts:18-21 | type "" and bedrooms 0 produce no parameter |
| RoomClient.WhitelistedListKeys | frontend/src/services/room.service.ts:18-22 | of the five keys, exactly type, bedrooms and search are among the back end's filter keys |
| RoomClient.OnlyThreeFiltersReachBackend | frontend/src/services/room.service.ts:19-20 | min_price and max_price never reach the filter; whatever does, after the middleware, is type, bedrooms or search and was set |
| RoomClient.QueryOfLookup | frontend/src/services/room.service.ts:24 | each emitted pair reads back under its key |
| RoomClient.BedroomsArriveIntact | frontend/src/services/room.service.ts:21 | a truthy bedrooms filter reaches the back end and keeps exactly the rows with that many bedrooms |
| RoomClient.UploadForm | frontend/src/services/room.service.ts:58-60 | one images[] entry per file, in order |
| RoomClient.ImagesOf | frontend/src/services/room.service.ts:60 | the files the back end reads from the form |
| RoomClient.UploadRoundTrip | frontend/src/services/room.service.ts:60 | the back end reads back exactly the files sent, in order |
| Toasts.Without | frontend/src/hooks/use-toast.ts:30 | the filter keeps exactly the toasts whose id differs |
| Toasts.WithoutAppend | frontend/src/hooks/use-toast.ts:30 | the filter keeps the survivors in their original order |
| Toasts.WithoutAbsent | frontend/src/hooks/use-toast.ts:30 | removing an id no toast has changes nothing |
| Toasts.WithoutIdempotent | frontend/src/hooks/use-toast.ts:28-31 | removing twice is removing once |
| Toasts.ToastStore.constructor | frontend/src/hooks/use-toast.ts:16 | the store starts empty |
| Toasts.ToastStore.AddToast | frontend/src/hooks/use-toast.ts:17-21 | exactly one toast is appended, type info unless given |
| Toasts.ToastStore.RemoveToast | frontend/src/hooks/use-toast.ts:28-31 | every toast with the id goes, the rest stay in order |
| Toasts.AddThenExpire | frontend/src/hooks/use-toast.ts:22-26 | the timed removal removes the new toast and leaves the earlier ones as removeToast would; all of them when the id is fresh |
| Toasts.WithoutCommutes | frontend/src/hooks/use-toast.ts:28-31 | two removals commute |
| Values.FilterBoolean | backend/app/Http/Requests/RoomRequest.php:19 | true for 1, "1", "true", "on", "yes"; false for 0, "0", "false", "off", "no", "", null; failure otherwise |
| Values.CoerceBoolean | backend/app/Http/Requests/RoomRequest.php:18-20 | the merged value is a boolean, or null exactly when filter_var fails |
| Values.TruncateCents | backend/app/DTOs/RoomsDto.php:27-28 | a float passed to an int parameter is truncated toward zero |
| Values.CleanText | backend/app/Http/Controllers/Api/Room/RoomController.php:34-35 | a query value loses its surrounding white space, and is null exactly when nothing else is left |
| Values.CleanFixesCleanValues | backend/app/Http/Controllers/Api/Room/RoomController.php:59-83 | the middleware changes exactly the values that are padded or blank, and what it yields it would leave alone |
| Values.CleanIdempotent | backend/app/Http/Controllers/Api/Room/RoomController.php:59-83 | cleaning a request twice is cleaning it once |
| Values.Clean | backend/app/Http/Controllers/Api/Room/RoomController.php:59-83 | a body string reaches validation trimmed, or as null when it is blank; other values are unchanged |
| Values.CleanInput | backend/app/Http/Controllers/Api/Room/RoomController.php:59-83 | the body keeps exactly its keys, each value cleaned as Values.Clean cleans it |
| Values.CleanQuery | backend/app/Http/Controllers/Api/Room/RoomController.php:34-35 | the query keeps exactly the keys whose value is not blank, each trimmed |
| Text.Lower | backend/app/Services/RoomService.php:30 | strtolower maps each character and keeps the length |
| Text.LowerIdempotent | backend/app/Services/RoomService.php:30-33 | lower-casing twice is lower-casing once |
| Text.Trim | backend/app/Http/Controllers/Api/Room/RoomController.php:34-35 | the trimmed text neither starts nor ends with white space |
| Text.TrimPadded | backend/app/Http/Controllers/Api/Room/RoomController.php:34-35 | trimming gives back exactly the text between any white-space padding |
| Text.TrimIdempotent | backend/app/Http/Controllers/Api/Room/RoomController.php:34-35 | trimming twice is trimming once |
| Text.TrimEmpty | backend/app/Http/Controllers/Api/Room/RoomController.php:34-35 | trimming leaves nothing iff the text is all white space |
| Text.ExactCents | backend/app/Services/RoomService.php:13-27 | a filter's text has an exact two-place value iff it is a decimal literal with no non-zero digit past the second place |
| Text.IntToStringCents | backend/app/Services/RoomService.php:13-19 | an integer's text is a decimal literal whose value is that integer |
| Text.CentsToStringExact | frontend/src/services/room.service.ts:19-21 | String(n) of a two-place number is a decimal literal that reads back as n |
| Text.PhpIntCastNonNumeric | backend/app/Services/RoomService.php:42 | (int) of text that does not start with a digit or a sign is 0 |
| Text.PhpIntCastNatToString | backend/app/Services/RoomService.php:42 | (int) of a rendered natural number is that number, saturating at PHP_INT_MAX |
| Text.PhpIntCast | backend/app/Services/RoomService.php:42 | (int) of any text lies between PHP_INT_MIN and PHP_INT_MAX |

## Left out

- LIKE wildcards: `%` and `_` in a search term are wildcards for the database. The model treats the term as a plain substring.
- Database collation and column comparison: whether `bedrooms = 'abc'` is cast by the database is driver-dependent. The model matches a numeric filter only when its text is a number of exactly that value. Under MySQL's default case-insensitive collations, `unique:rooms,name` and `type = ?` also ignore case; the model compares texts exactly. The search folds ASCII letters only, as `strtolower` and SQLite's `LOWER` do. MySQL's default `utf8mb4_0900_ai_ci` also ignores accents and non-ASCII case in `LIKE`, so `?search=cafe` finds "Café" there. PostgreSQL's `LOWER` folds non-ASCII letters too.
- PHP and JavaScript number parsing: leading whitespace, exponents, hexadecimal and `Infinity` are not modelled.
- RoomForm.CoerceNumber: more than two decimals are truncated to hundredths, not kept as a float.
- Floating point: price and area are exact hundredths. PHP and JavaScript floats and their rounding are not modelled.
- Values.CleanInput: only scalar values are cleaned. Nested arrays in a JSON body are not modelled.
- RoomsTable.InsertRow: bedrooms and bathrooms are not bounded to the `integer` column's range, nor price and area to `decimal(8,2)` (at most 999999.99). Whether an out-of-range write is refused depends on the database: MySQL in strict mode refuses it, SQLite stores it.
- RoomModel.UpdateRow: the same column ranges are not enforced on update.
- RoomQuery.Paginate: the offset (page - 1) × size is computed exactly. PHP turns a product beyond PHP_INT_MAX into a float, and the `(int)` cast in `offset` wraps it, so `?per_page=4611686018427387904&page=3` starts at row 0 there and lists an empty page in the model.
- RoomController.ResolvePerPage: a decimal text close to PHP_INT_MAX is range-checked after exact truncation. PHP first rounds it to a float.
- Text.PhpIntCast: the cast stops at the first character that is not a digit. PHP reads an exponent, so `(int) "1e3"` is 1000 there and 1 in the model.
- RoomModel.UpdateRow: Eloquent's dirty check compares values after casting. The model compares the stored values directly.
- Storage and image processing: Spatie's file-name sanitising, resizing, sharpening and writing to disk. Media rows record only their room, collection, file name and the conversions generated.
- RoomController.Controller.UploadImages: the reply's `url` and `preview` come from the disk configuration. The model lists the room's image ids instead of those URLs.
- Concurrency: two requests racing the name-uniqueness check are not modelled. Each call is one atomic step.
- The toast timer: the three-second `setTimeout` is not modelled. Its effect, the same filter as `removeToast`, is Toasts.AddThenExpire.
- Toast ids: `Math.random` is not modelled. The id is a parameter, and nothing relies on it being fresh.
- String length: JavaScript counts UTF-16 code units and PHP's `max:255` counts characters. Both are modelled as the length of a `seq<char>`.
- The public `/rooms` routes carry no authentication middleware. The model lets their caller be an admin, as `index` asks `$request->user()`. Whether the default guard resolves a token there is framework configuration.
- Media on room delete: the source keeps a soft-deleted room's media, and the model follows the code.
- The `?? true` for `is_available` in `createRoom` is dropped: Services.CreateColumns always writes the DTO's value, because fromArray never yields null there. RoomsDto.AbsentAvailabilityDiffersFromConstructor states the consequence.
- RoomController.UploadErrors: the files are the list of `images[]` entries. A single file sent as `images` is not an array, and the source refuses it with 422; a text entry among `images[]` fails the `image` rule. The file list cannot express either case. A text under `images` with no files arrives as no list, and the model refuses it on `images`, as the source does.
- RoomRequest.FileErrors: for store and update too, the files are a list. A single file sent as `images` (refused by `array`) and a text entry among `images[]` (refused by `image`) are not expressed.
- RoomController.Controller.Update: update validates `images`, but the service never uses them. The model checks them and does not store them.
- Authentication: login, tokens, password hashing and roles. The caller is given as Anonymous, User or Admin.
- The HTTP calls `get`, `adminGet`, `adminList`, `create`, `update` and `delete` of the front-end service: bare requests with no logic of their own.
- RoomForm.RoomShapeErrors: roomSchema and mediaSchema check shapes only. The nested `media` array is passed beside the scalar fields, because the scalar `Value` has no arrays.
- RoomController.Controller.Index: a `per_page` that is not numeric makes PHP raise a type error, modelled as a 500 reply. Laravel's cast of a numeric string to `int` is modelled as truncation.
- Exceptions other than not-found and validation, such as database outages, are not modelled.
