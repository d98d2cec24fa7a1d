# Access control and sharing in the todo service, modelled in Dafny

This project models the access-control and sharing layer of the todo-gin service. That service is a Go REST API. Its users own categories, share a category with other users for reading or writing, and keep todos inside categories. The model covers:

- **the todo service** (`internal/services/todo_service.go`):
  - the category permission check;
  - get-or-create of a category by name;
  - creating, reading, updating (with a category move) and soft-deleting a todo;
  - pagination of todo listings;
  - the fold that turns the flat rows of the grouped query into one group per category.
- **the category service** (`internal/services/category_service.go`):
  - owner-only create, rename and delete;
  - the sharing state machine (share, unshare, change permission, list shares);
  - reading a user's permission level.
- **the permission enumeration** (`internal/models/category.go`): the two storable permissions "read" and "write". The levels "owner" and "none" exist only as derived values.
- **the handlers** (`internal/handlers/todo_handler.go`, `internal/handlers/category_handler.go`):
  - the binding limits and trimming validators of the request bodies;
  - the read/write restriction on share bodies;
  - the maps from service errors to HTTP statuses.

The tables are a record of maps (`Store.Store`):

- users keyed by email;
- categories keyed by id;
- shares keyed by the (category id, user id) pair, so a unique index on that pair, which the model assumes, holds by construction;
- todos keyed by id, where soft deletion is a flag.

Every repository call becomes a map lookup or update. A call can fail with an error other than "no rows"; which calls fail during one service call is given by a set of `RepoCall` values (`Faults`). Every service operation returns the tables after the call together with its result or error (`Reply`). A partial effect is therefore visible: a create-by-name can create the category and then fail to insert the todo. Each repository insert also reads its new row back by id. When that read fails, the row stays stored, yet the insert still returns the error (`Store.Inserted`). So a create can report an internal error for a row that now exists.

Two store invariants are stated:

- `Store.WellFormed` holds what the database is assumed to guarantee: keys match ids, ids come from one counter, share ids are distinct, foreign keys resolve, and names are unique per owner. The schema that would declare these rules is not part of this model.
- `Store.NoSelfShare` holds what the sharing service maintains: no category is shared with its owner.

`Properties.RunKeepsInvariants` proves that both hold along any sequence of calls, successful or failing. It also proves that no surviving todo ever changes its creator.

Files:

- `wrappers.dfy`: Option and Result.
- `text.dfy`: Go's `strings.TrimSpace` over `unicode.IsSpace`.
- `models.dfy`: Permission, the derived levels, and the records.
- `errors.dfy`: the service errors.
- `status.dfy`: HTTP status codes.
- `store.dfy`: the tables and repository calls.
- `access.dfy`: the permission check.
- `todo_service.dfy`, `pagination.dfy`, `grouping.dfy`, `category_service.dfy`, `todo_handler.dfy`, `category_handler.dfy`.
- `properties.dfy`: properties that relate several calls.

Behaviours of the code a reader might not expect:

- A user without access to a todo's category who reads the todo gets `Forbidden` (403), not a not-found answer (`internal/services/todo_service.go:79-81`).
- A todo created into a shared category by id belongs to the requester, not to the category's owner (`internal/services/todo_service.go:146`). Only a later move to another category sets that category's owner on the todo (`internal/services/todo_service.go:247-248`), and the repository's save may drop that owner again (see Findings).
- A duplicate category name or share is caught by the services' explicit lookups. Only that lookup answers with a conflict. A violation of the assumed unique index at write time comes back as a wrapped internal error. The model lets the index reject such a write and reports the wrapped error.
- The service ignores an empty title on update (`internal/services/todo_service.go:252`). It does not reject an empty update either. Only the handler rejects blank titles and empty updates (`internal/handlers/todo_handler.go:67-75`).
- Listing is not widened to shared todos: the repository query filters on the requesting user (`internal/repository/todo_repo.go:78-96`). The model takes the listing query as a given function.
- `getOrCreateCategory` treats every lookup error, not just "no rows", as "create it" (`internal/services/todo_service.go:94-100`).
- `GetCategoryByID` discards an error of the permission lookup. It treats the missing answer as "no share" and returns `CategoryForbidden` (`internal/services/category_service.go:108-111`).
- `UpdateTodo` answers `CategoryNotFound` for any error while fetching the move's target category, including a database error (`internal/services/todo_service.go:243-246`).

## Model

| member | source | states |
|---|---|---|
| Models.IsValid | internal/models/category.go:10-18 | a text is a valid stored permission exactly when it is the text of one of the two permissions |
| Models.ParsePermission | internal/models/category.go:10-18 | parsing succeeds exactly on valid texts, and the parsed permission prints back as the input |
| Models.ParsePermissionRoundTrip | internal/models/category.go:10-13 | printing a permission and parsing it back gives the same permission |
| Models.DerivedLevelsNotStorable | internal/models/category.go:16-18 | "owner", "none" and "" are never valid stored permissions; they only name derived levels |
| Text.TrimSpace | internal/handlers/category_handler.go:36 | the result is the input with its all-space ends cut off, and it neither starts nor ends with a space |
| Text.TrimSpaceEmptyIff | internal/handlers/category_handler.go:36-39 | a string trims to "" exactly when it consists of spaces only |
| Text.TrimSpaceIdempotent | internal/handlers/todo_handler.go:39-44 | trimming an already trimmed string changes nothing |
| Store.CategoryByNameAndOwner | internal/repository/category_repo.go:91-106 | finds a category exactly when the owner has one with that name, and returns that one |
| Store.AddCategory | internal/repository/category_repo.go:36-57 | inserts one category with a fresh id, and fails exactly on a fault or a name the owner already uses; when the read-back by id fails, the category stays stored and the error is still returned; the tables stay well-formed and ids only grow |
| Store.RenameCategory | internal/repository/category_repo.go:108-129 | renames in place, and fails exactly on a fault or a name another of the owner's categories holds; the tables stay well-formed and ids only grow |
| Store.DropCategory | internal/repository/category_repo.go:131-136 | removes the category together with exactly its shares and todos, leaving the rest as they were; the tables stay well-formed and ids only grow |
| Store.AddShare | internal/repository/category_share_repo.go:36-58 | adds a share for the pair with the requested permission, and fails exactly on a fault, an existing pair or a missing category; when the read-back by id fails, the share stays stored and the error is still returned; the tables stay well-formed and ids only grow |
| Store.SetSharePermission | internal/repository/category_share_repo.go:144-154 | changes only the permission of the pair's share; the tables stay well-formed and ids only grow |
| Store.DropShare | internal/repository/category_share_repo.go:164-173 | removes exactly the pair's share; the tables stay well-formed and ids only grow |
| Store.SharesOf | internal/repository/category_share_repo.go:91-115 | exactly the shares of the category |
| Store.AddTodo | internal/repository/todo_repo.go:50-76 | inserts the todo under a fresh id, and fails exactly on a fault or a missing category; when the read-back by id fails, the todo stays stored and the error is still returned; the tables stay well-formed and ids only grow |
| Store.SaveTodoRow | internal/repository/todo_repo.go:163-187 | overwrites the row with the same id, and nothing else; the tables stay well-formed and ids only grow |
| Store.MarkDeleted | internal/repository/todo_repo.go:189-194 | sets the deleted flag of the todo and keeps the row; the tables stay well-formed and ids only grow |
| Access.CheckCategoryPermission | internal/services/todo_service.go:57-89 | a missing category is CategoryNotFound; the owner passes even when the share lookup would fail; no share is Forbidden; a read share on a write is NoWritePermission; with a healthy database it passes exactly when the level grants the access |
| Access.WriteImpliesRead | internal/services/todo_service.go:83-86 | passing the write check implies passing the read check |
| Access.GrantsMonotone | internal/services/todo_service.go:68-86 | a higher access level grants whatever a lower one grants |
| TodoService.GetOrCreateCategory | internal/services/todo_service.go:92-111 | reuses the requester's category with that name when the lookup finds it; otherwise, after any lookup error, it inserts exactly one new category with that name owned by the requester, or changes nothing when the insert is rejected; a failed read-back keeps the new category and still fails |
| TodoService.CreateTodo | internal/services/todo_service.go:114-155 | a positive id takes precedence over the name and needs write access; no id and no name is CategoryRequired; the new todo is owned and created by the requester under a fresh id; existing todos never change; a failure adds a todo only when the todo's read-back failed; with a healthy database, by-id creation succeeds exactly when the caller may write |
| TodoService.InsertNewTodo | internal/services/todo_service.go:142-154 | the inserted todo carries the request's title and description, is not completed, and is owned and created by the requester; a rejected insert changes nothing; a failed read-back keeps the todo stored and still fails |
| TodoService.GetTodoById | internal/services/todo_service.go:210-222 | a missing or deleted todo is TodoNotFound before any permission check; with a healthy database the todo is returned exactly when the reader has some access |
| TodoService.ApplyFields | internal/services/todo_service.go:251-260 | a title is applied only when present and non-empty, description and completed when present; id, creator, owner and category never change |
| TodoService.UpdateTodo | internal/services/todo_service.go:225-268 | needs write access on the current category, and on the target too when moving; a move sets the category and hands the todo to the target's owner, in the stored and the returned todo (the intended save; see Findings); the creator never changes; every failure leaves the store unchanged |
| TodoService.SaveUpdated | internal/services/todo_service.go:262-267 | a save error is the wrapped update error and leaves the store unchanged; a successful save stores and returns the todo the service built |
| TodoService.SaveUpdatedAsWritten | internal/repository/todo_repo.go:163-187 | the save as the repository writes it: the stored and the returned row keep the old owner, whatever owner the service set |
| TodoService.AsWrittenMoveKeepsOwner | internal/services/todo_service.go:238-267 | for every successful move into a category with another owner, the service's todo carries the new owner but the as-written save stores and returns the old one |
| TodoService.AsWrittenMoveExample | internal/repository/todo_repo.go:168-184 | a concrete move where the service returns owner 2 and the as-written save gives back owner 1 |
| TodoService.DeleteTodo | internal/services/todo_service.go:271-289 | needs write access; marks exactly that todo deleted; every failure leaves the store unchanged |
| Pagination.NormalizePage | internal/services/todo_service.go:160 | the page is at least 1 and a valid page is kept |
| Pagination.PageSize | internal/services/todo_service.go:161-164 | the page size is at least 1 and at most the maximum; a size below 1 becomes the default capped at the maximum |
| Pagination.PageSizeAgreesWhenSane | internal/services/todo_service.go:160-172 | with positive configured sizes, the corrected page size and page count equal the ones the service computes |
| Pagination.AsWrittenPageSizeCanBeZero | internal/services/todo_service.go:161-164 | the page size computed as written is 0 with a configured default of 0 and a requested size of 0, and with a configured maximum of 0 and the handler's default size of 10 |
| Pagination.AsWrittenListingDividesByZero | internal/services/todo_service.go:172 | both configurations make the total-pages division divide by zero, whatever the total |
| Pagination.GoQuotient | internal/services/todo_service.go:172 | Go's truncating division agrees with Dafny's on non-negative operands |
| Pagination.TotalPagesAsWritten | internal/services/todo_service.go:198 | the page count as written is undefined exactly when the page size is 0 |
| Pagination.TotalPages | internal/services/todo_service.go:171-172 | the least number of pages of that size that hold all items; zero pages exactly when there are no items |
| Pagination.CeilingDivision | internal/services/todo_service.go:198 | the rounded-up division covers the total, and one page fewer would not |
| Pagination.ListPage | internal/services/todo_service.go:184-207 | the listing asks the query for the normalised page and size, wraps a query error, and reports a page count that covers the total |
| Pagination.NormalizationExample | internal/services/todo_service_test.go:204-216 | page -1 with size 10 is asked of the query as page 1 with size 10 |
| Grouping.RowTodo | internal/models/category.go:63-79 | a row carries a todo exactly when its todo id is positive; missing timestamps become "" |
| Grouping.GroupIsGroupedView | internal/services/todo_service.go:300-344 | the fold yields one group per distinct category, in the order of first appearance, with the first row's metadata and exactly that category's todos in row order |
| Grouping.GroupDistinct | internal/services/todo_service.go:305-318 | no category gets two groups |
| Grouping.GroupTodoCount | internal/services/todo_service.go:320-337 | the number of grouped todos equals the number of rows with a positive todo id |
| Grouping.AddRowKeepsGrouping | internal/services/todo_service.go:303-338 | one more row keeps the fold equal to the grouped view of the longer row sequence |
| Grouping.PlaceRow | internal/services/todo_service.go:305-336 | one iteration of the map-and-order loop does what one step of the fold does, and keeps the id-to-position map exact |
| Grouping.BuildGroupedView | internal/services/todo_service.go:299-344 | the map-and-order loop computes the fold, and so the grouped view |
| Grouping.GetTodosGroupedByCategory | internal/services/todo_service.go:292-349 | a query error is wrapped; otherwise the result is the grouped view of the rows |
| CategoryService.CreateCategory | internal/services/category_service.go:52-73 | a name the owner already has is CategoryNameExists and creates nothing; a lookup error is propagated; otherwise exactly one new category with that name and owner, which stays stored even when its read-back fails and the call reports an error |
| CategoryService.GetCategoryById | internal/services/category_service.go:95-115 | a missing id is CategoryNotFound; the owner always passes; anyone else passes exactly when they hold a share; a failed share lookup counts as no share |
| CategoryService.OwnedCategory | internal/services/category_service.go:120-131 | succeeds exactly when the category exists and the caller owns it, failing with not-found before forbidden |
| CategoryService.UpdateCategory | internal/services/category_service.go:118-151 | owner only; a changed name taken by another of the owner's categories is CategoryNameExists; keeping the current name needs no check; only the name changes |
| CategoryService.DeleteCategory | internal/services/category_service.go:154-175 | owner only; the category goes with exactly its shares and todos |
| CategoryService.ShareCategory | internal/services/category_service.go:178-227 | failures come in the order missing category, not owner, unknown email, self-share, existing share; past those checks the insert adds one share for the pair with the requested permission, never to the owner, and leaves an existing share untouched; a failed read-back keeps that share and still fails |
| CategoryService.UnshareCategory | internal/services/category_service.go:230-259 | owner only; an absent pair is ShareNotFound; otherwise exactly the pair's share is removed |
| CategoryService.UpdateSharePermission | internal/services/category_service.go:262-291 | owner only; an absent pair is ShareNotFound; otherwise only that share's permission changes, keeping its id, category and user |
| CategoryService.GetSharesForCategory | internal/services/category_service.go:294-314 | owner only; exactly the shares of the category |
| Properties.ShareIsListed | internal/services/category_service.go:294-314 | after a share, the owner's listing is the listing before it plus exactly the new share |
| Properties.ListingGains | internal/repository/category_share_repo.go:91-115 | adding one share row of a category adds exactly that row to the owner's listing |
| Properties.UnshareIsUnlisted | internal/services/category_service.go:230-259 | after an unshare, the owner's listing is the listing before it without exactly that share |
| CategoryService.GetUserPermissionForCategory | internal/services/category_service.go:336-345 | "no rows" reads as no access; the owner, and only the owner, is reported as owner; a shared user gets the share's level |
| TodoHandler.ValidateCreate | internal/handlers/todo_handler.go:38-51 | accepts exactly a title that is not all spaces with a positive category id or a non-blank category name; the accepted fields are the trimmed inputs |
| TodoHandler.AcceptCreate | internal/handlers/todo_handler.go:30-51 | binding limits come first; an accepted body has a title of 1 to 255 characters, a description of at most 1000, and a category |
| TodoHandler.ValidateUpdate | internal/handlers/todo_handler.go:61-83 | rejects an update with no fields and a title that is all spaces; otherwise the sent title and description are trimmed, and the description may become empty |
| TodoHandler.AcceptUpdate | internal/handlers/todo_handler.go:54-83 | binding limits come first; an accepted update is non-empty and within the length limits |
| TodoHandler.HandleTodoError | internal/handlers/todo_handler.go:86-129 | nil gives no response; a timeout is 408 before anything else; not-found kinds are 404, permission kinds 403, a missing category 400, everything else 500 |
| TodoHandler.CreateRequest | internal/handlers/todo_handler.go:154-160 | the service request names its category by id exactly when the body has a positive id |
| CategoryHandler.ValidateName | internal/handlers/category_handler.go:35-55 | create and rename accept exactly a name that is not all spaces, and pass it on trimmed |
| CategoryHandler.ValidateNameKeepsTrimmed | internal/handlers/category_handler.go:36-40 | a non-empty name without spaces at its ends is accepted unchanged, so validating twice is validating once |
| CategoryHandler.AcceptName | internal/handlers/category_handler.go:29-55 | binding limits come first; an accepted name has 1 to 255 characters and no spaces at its ends |
| CategoryHandler.BindPermission | internal/handlers/category_handler.go:63-66 | only "read" and "write" bind, each to its own permission |
| CategoryHandler.DerivedLevelsRejected | internal/handlers/category_handler.go:60-65 | "owner", "none" and "" never bind, and each permission's own text binds back to it |
| CategoryHandler.BindShare | internal/handlers/category_handler.go:57-61 | a share body binds exactly with a non-empty email and a read or write permission |
| CategoryHandler.HandleCategoryError | internal/handlers/category_handler.go:69-122 | nil gives no response; a timeout is 408 before anything else; not-found kinds are 404, forbidden 403, duplicates 409, self-share 400, everything else 500 |
| Properties.ShareIsOnce | internal/services/category_service.go:206-213 | repeating a successful share, with any permission, is ShareAlreadyExists and changes nothing |
| Properties.UnshareIsOnce | internal/services/category_service.go:244-251 | a second unshare of the same pair is ShareNotFound |
| Properties.ShareGrantsItsLevel | internal/services/todo_service.go:72-88 | after a share the user has exactly the shared level: read access always, write access exactly with a write share |
| Properties.DowngradeBlocksUpdate | internal/services/todo_service.go:232-235 | after a downgrade to read, the user's update of a todo in that category is NoWritePermission and changes nothing |
| Properties.UnshareRevokesRead | internal/services/todo_service.go:216-219 | after an unshare, the former user's read of a todo in that category is Forbidden |
| Properties.DeletedTodoNotFound | internal/services/todo_service.go:211-214 | after a delete, every read of that todo is TodoNotFound |
| Properties.SharedCreateKeepsRequesterAsOwner | internal/services/todo_service.go:142-148 | a write-shared user creating into the shared category by id owns the new todo; the category owner does not |
| Properties.CreateTodoReadBackKeepsTodo | internal/repository/todo_repo.go:56-73 | an owner's by-id create whose read-back fails answers the internal error, yet the todo is stored under the next id |
| Properties.AcceptedCreateHasCategory | internal/handlers/todo_handler.go:45-49 | a create body the handler accepts never makes the service answer CategoryRequired |
| Properties.AcceptedUpdateTitleApplies | internal/services/todo_service.go:252-254 | through the handler, a sent title is never blank, so a successful update stores the trimmed title |
| Properties.TodoFailuresAreClientErrors | internal/handlers/todo_handler.go:97-128 | with a healthy database every failing todo call is answered with a 4xx status |
| Properties.CategoryFailuresAreClientErrors | internal/handlers/category_handler.go:80-121 | with a healthy database every failing create, read, rename or delete of a category is answered with a 4xx status |
| Properties.ShareFailuresAreClientErrors | internal/handlers/category_handler.go:80-121 | with a healthy database every failing share, unshare, permission change or share listing is answered with a 4xx status |
| Properties.StepKeepsNoSelfShare | internal/services/category_service.go:202-204 | no call, successful or not, lets a category's owner hold a share of it |
| Properties.StepKeepsCreators | internal/services/todo_service.go:251-260 | no call changes the creator of a todo it keeps |
| Properties.RunKeepsInvariants | internal/services/todo_service.go:142-148 | along any sequence of calls the store stays valid, ids only grow, and every surviving todo keeps its creator |

## Left out

- Repositories and SQL: every query is reduced to a map operation. The SQL is not part of this model. This includes:
  - the soft-delete filter of the todo lookup;
  - the "owner"/share/"none" query of the permission lookup;
  - the order of the grouped rows;
  - the per-user filter of the listing query;
  - the order of the shares listing: `CategoryService.GetSharesForCategory` returns a set of shares, not the query's ordered slice.

  Query results the model cannot compute, such as the listing page and the grouped rows, are parameters.
- TodoService.UpdateTodo: stores and returns the target's owner after a move, which is what the service intends. The repository's update parameters carry no owner (`internal/repository/todo_repo.go:168-174`). It then replaces the todo with the row read back (`internal/repository/todo_repo.go:179-184`). Unless the update query, which is not part of this model, derives the owner, both the stored and the returned todo keep the old owner. `TodoService.SaveUpdatedAsWritten` models that save (see Findings).
- Unique indexes: the unique (owner_id, name) index on categories and the unique (category_id, user_id) index on shares are assumed. The schema is not part of this model. `Store.AddCategory` rejecting a duplicate name rests on that assumption. It is what keeps names unique per owner when `getOrCreateCategory` creates a category after a failed lookup (`internal/services/todo_service.go:94-100`).
- Repository errors are a fixed set of failing calls for the whole service call. A call that fails once and then succeeds within the same service call is not modelled. An insert's read-back runs the same query as the lookup by id (`FetchTodo`, `FetchCategory`, and `FetchShareById` for shares). So it fails exactly when that lookup's call is in the set.
- Context deadlines and cancellation: a timeout is a boolean given to the error maps. The rest of the model has no clock, and the 5-second deadline is not modelled.
- Authentication (JWT, bcrypt), the request-id middleware, logging, gin routing and JSON response bodies: these are foreign library calls or I/O. Only the status codes are modelled.
- Path-id parsing and the missing-user 401: these are handler plumbing outside the named validators.
- Timestamps: absent. The grouped view's nullable timestamps are carried through as given strings.
- `GetCategories` and `GetSharedCategories`: these fetch at most 1000 todos per category in a loop and are not modelled. The user name and email that the shares listing joins in are not modelled either; shares are returned as stored.
- Integer widths: ids are unbounded naturals. The 32-bit limit of path ids and the int64 totals do not matter to any property stated here.
- CategoryHandler.BindShare: the email format check (`binding:"email"`) is not modelled. Only a non-empty email is required.
- Pagination.PageSize: this is the corrected page size. It differs from the service's computation only when a configured size is below 1 (see Findings).
- The legacy gorm stack (`controllers/`, `routes/`, `middlewares/`, `models/`) is superseded and not modelled.

## Findings

| source | as written | input that shows it | evidently intended | confidence | as-written member | corrected member |
|---|---|---|---|---|---|---|
| internal/services/todo_service.go:161-172 | the page size is the request's size, or the configured default when below 1, capped at the configured maximum; then `(total + pageSize - 1) / pageSize` | MAX_PAGE_SIZE=0 and any listing request, including one without page_size (the handler fills in 10, `internal/handlers/todo_handler.go:183`); or DEFAULT_PAGE_SIZE=0 and page_size=0, negative or not a number. The page size is 0 and the division panics. `config/config.go:95-106` reads both sizes without any range check | a page size of at least 1, so that the page count is always defined | medium; not executed | Pagination.AsWrittenListingDividesByZero | Pagination.PageSize |
| internal/repository/todo_repo.go:168-184 | the update sends title, description, category and completed but no owner, then replaces the todo with the row read back | user 1 holds a write share of user 2's category and moves their own todo into it: the service sets owner 2 (`internal/services/todo_service.go:247-248`), but the row saved and returned keeps owner 1 | the moved todo belongs to the target category's owner, as the service's comment at `internal/services/todo_service.go:242` says | low; not executed; the update query is not part of this model and could derive the owner itself | TodoService.AsWrittenMoveKeepsOwner | TodoService.UpdateTodo |
