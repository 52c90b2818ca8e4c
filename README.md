# go-crud category store in Dafny

A model of the core of go-crud, a small HTTP service for CRUD operations on a
single "category" entity backed by a MySQL table. The model covers:

- **Repository** (`repository.dfy`, `table.dfy`): `CategoryRepository` is a class.
  Its fields are the table's rows, in scan order, and the AUTO_INCREMENT counter.
  Each SQL statement's meaning is a function in module `Table`:
  - `Where` for `select … where id = ?`
  - `UpdateWhere` for `update … where id = ?`
  - `DeleteWhere` for `delete … where id = ?`

  `Save`, `Update`, `Delete`, `FindById` and `FindAll` are methods over those
  fields. The table invariant `Wellformed` holds that ids are positive, below
  the counter, and strictly increasing in scan order.
- **Service** (`service.dfy`): `CategoryService` holds the repository and a
  validation rule. Go's panics are the failure cases of
  `ServiceResult = Ok(value) | ValidationFailed | NotFound(message)`.
- **Response mapping** (`helper.dfy`): `ToCategoryResponse` is a field copy.
  `ToCategoryResponses` is the append loop, specified by the function `Responses`.
- **Auth gate** (`middleware.dfy`): `Decide` and `ServeHTTP` are functions. A
  request is forwarded exactly when `Header.Get("X-API-Key")` reads
  `"RAHASIA"`. Otherwise the response is 401 with the envelope
  `{401, "unauthorized"}` and no data.
- **Scenarios** (`scenarios.dfy`): the integration tests restated as verified
  methods, each starting from a freshly truncated table.

Where the code and its tests disagree, the model follows the code:
- The service validates only on update and never on create, so a
  persisted name can be empty (`Scenarios.CreateEmptyNameStored`). The
  test at test/category_controller_test.go:74-95 expects 400 for an empty
  create. That rejection, if it happens, is in the controller, which is not
  part of this model.
- On an infrastructure error, `PanicIfError` panics. The panic is handled
  outside the modelled core, and the model has no infrastructure-failure case.

## Model

| member | source | states |
|---|---|---|
| `Helper.ToCategoryResponse` | helper/model.go:8-13 | the response carries exactly the record's id and name |
| `Helper.ToCategoryResponseInjective` | helper/model.go:8-13 | the copy loses nothing: equal responses come from equal records |
| `Helper.Responses` | helper/model.go:15-22 | the specification of the response list: one response per record, so the list has the input's length |
| `Helper.ResponsesAt` | helper/model.go:15-22 | the response list has the input's length, and element i is the response of record i (order preserved) |
| `Helper.ResponsesAppend` | helper/model.go:15-22 | mapping a concatenation is the concatenation of the mappings: nothing is reordered or dropped |
| `Helper.ToCategoryResponses` | helper/model.go:15-22 | the append loop returns the element-wise mapping: same length (empty in, empty out), element i is `ToCategoryResponse(categories[i])` |
| `Table.Where` | repository/category_repository_impl.go:64-65 | the result set holds exactly the rows carrying the id; it is empty exactly when no row has the id |
| `Table.UpdateWhere` | repository/category_repository_impl.go:43-44 | the table keeps its length and every id; matching rows take the new name, all other rows keep theirs |
| `Table.DeleteWhere` | repository/category_repository_impl.go:54-55 | the remaining rows are exactly the rows whose id differs; the table never grows |
| `Table.FreshIdAbsent` | repository/category_repository_impl.go:26-33 | the id the counter hands out next is carried by no row |
| `Table.InsertWellformed` | repository/category_repository_impl.go:26-33 | inserting under the counter's id and advancing the counter keeps ids unique, positive and increasing |
| `Table.WhereAppend` | repository/category_repository_impl.go:64-65 | selecting from a table with a row appended gives the old matches, then the new row if it matches |
| `Table.WhereUnique` | repository/category_repository_impl.go:64-73 | on a well-formed table the lookup of a row's id yields that row and only that row |
| `Table.UpdateMissingUnchanged` | repository/category_repository_impl.go:43-46 | updating an id that no row has leaves the table unchanged and creates no row |
| `Table.UpdateWellformed` | repository/category_repository_impl.go:43-44 | an update keeps the table invariant |
| `Table.UpdateThenWhere` | repository/category_repository_impl.go:43-44 | after updating an existing id, looking it up gives exactly that id with the new name |
| `Table.DeleteWellformed` | repository/category_repository_impl.go:54-55 | a delete keeps the survivors in order and keeps the table invariant |
| `Table.DeleteMissingUnchanged` | repository/category_repository_impl.go:54-56 | deleting an id that no row has leaves the table unchanged |
| `Table.DeleteRemovesId` | repository/category_repository_impl.go:54-55 | after a delete no row carries the id |
| `Table.DeleteIdempotent` | repository/category_repository_impl.go:49-57 | deleting twice leaves the same table as deleting once |
| `Table.DeleteRemovesOne` | repository/category_repository_impl.go:54-55 | on a well-formed table, deleting an existing id removes exactly one row |
| `Repository.CategoryRepository.constructor` | test/category_controller_test.go:47-49 | a truncated table: no rows, and the counter starts at 1 |
| `Repository.CategoryRepository.Save` | repository/category_repository_impl.go:21-35 | returns the argument with only its id replaced by the counter's value; exactly that row is appended and the counter advances |
| `Repository.CategoryRepository.Update` | repository/category_repository_impl.go:38-47 | returns its argument unchanged whether or not a row matched; the new table is `UpdateWhere` of the old; the counter is untouched |
| `Repository.CategoryRepository.Delete` | repository/category_repository_impl.go:49-57 | no error in any case; the new table is `DeleteWhere` of the old |
| `Repository.CategoryRepository.FindById` | repository/category_repository_impl.go:59-77 | no error exactly when a row has the id, and then the result is that row; otherwise the zero record and the error "category not found"; the table is not modified |
| `Repository.CategoryRepository.FindAll` | repository/category_repository_impl.go:79-98 | the scan loop returns every row in table order; the table is not modified |
| `Repository.SaveThenFindSelectsSaved` | repository/category_repository_impl.go:26-33 | after a save, looking up the returned id selects exactly the saved row (the round trip) |
| `Service.CategoryService.constructor` | service/category_service_impl.go:17-21 | the service wraps the given repository (and the given validation rule) |
| `Service.CategoryService.Create` | service/category_service_impl.go:23-32 | no validation; a row with the request's name is saved; the response has the generated id and the request's name |
| `Service.CategoryService.Update` | service/category_service_impl.go:34-45 | a request failing validation gives ValidationFailed and leaves the table unchanged; a passing one gives Ok with the request's own id and name, and the table is updated by id |
| `Service.CategoryService.Delete` | service/category_service_impl.go:47-49 | forwards the same id to the repository and never fails |
| `Service.CategoryService.FindById` | service/category_service_impl.go:51-58 | NotFound with the repository's message exactly when no row has the id; otherwise Ok with the response of the row carrying that id; never ValidationFailed |
| `Service.CategoryService.FindAll` | service/category_service_impl.go:60-64 | the element-wise mapping of the repository's rows, same length, same order |
| `Middleware.CaseWords` | middleware/auth_middleware.go:20 | net/http's casing rule for header names keeps the name's length; its contents are stated by `CaseWordsAt` |
| `Middleware.CaseWordsAt` | middleware/auth_middleware.go:20 | position i of the cased name is the upper-case letter when i starts the name or follows a '-', and the lower-case letter otherwise |
| `Middleware.CaseWordsChangesOnlyCase` | middleware/auth_middleware.go:20 | the casing rule changes nothing but letter case, by induction over the name |
| `Middleware.CanonicalKey` | middleware/auth_middleware.go:20 | the canonical header name has the length of the given one |
| `Middleware.CanonicalKeyOfNonToken` | middleware/auth_middleware.go:20 | a name with a character that may not appear in a field name is kept exactly as given |
| `Middleware.CanonicalKeyOfToken` | middleware/auth_middleware.go:20 | a name made only of token characters is canonicalised by the casing rule of `CaseWords` |
| `Middleware.CanonicalKeyChangesOnlyCase` | middleware/auth_middleware.go:20 | the canonical name differs from the given one at most in letter case |
| `Middleware.Get` | middleware/auth_middleware.go:20 | `Header.Get`: "" when the canonical name is absent; a non-empty result is a value stored under the canonical name |
| `Middleware.Add` | test/category_controller_test.go:64 | `Header.Add`: adds the canonical name and leaves every other field unchanged; a later `Get` reads the first stored value, which is the added one when none was there before |
| `Middleware.Decide` | middleware/auth_middleware.go:20-29 | Forward exactly when the `X-API-Key` header reads "RAHASIA"; otherwise Reject with the envelope code 401, status "unauthorized" and no data |
| `Middleware.ServeHTTP` | middleware/auth_middleware.go:19-32 | a forwarded request gets the wrapped handler's response unchanged; the rest get status 401, content type application/json and the envelope {401, "unauthorized"} |
| `Middleware.ForwardsExactlyWithKey` | middleware/auth_middleware.go:20-21 | forwarding happens exactly when the `X-API-Key` header reads "RAHASIA", and the wrapped handler's response is then returned unchanged |
| `Middleware.RejectsWithoutKey` | middleware/auth_middleware.go:22-32 | any other header value gives status 401 and the envelope {401, "unauthorized"} with no data, and the response does not depend on the wrapped handler |
| `Middleware.MissingHeaderRejected` | middleware/auth_middleware.go:20 | a request without the header reads it as "" and is rejected |
| `Middleware.DecisionIgnoresMethodAndPath` | middleware/auth_middleware.go:19-32 | requests that differ only in method or path get the same decision |
| `Middleware.FirstValueDecides` | middleware/auth_middleware.go:20 | with a repeated key header, only its first value decides |
| `Middleware.ApiKeyHeaderCanonical` | middleware/auth_middleware.go:20 | the header is looked up under its canonical name "X-Api-Key" |
| `Middleware.CaseWordsIgnoresCase` | middleware/auth_middleware.go:20 | canonical casing of two names that differ only in letter case gives the same result |
| `Middleware.CanonicalKeyIgnoresCase` | middleware/auth_middleware.go:20 | for a name made only of token characters, any spelling that differs only in letter case has the same canonical form and reads the same value from every header |
| `Middleware.TestRequestsForwarded` | test/category_controller_test.go:62-68 | a request whose header was built with `Add("X-API-Key", "RAHASIA")` is forwarded, and so is one with the name in lower case |
| `Scenarios.CreateSucceeds` | test/category_controller_test.go:51-72 | creating "Fashion" yields that name and a positive id |
| `Scenarios.CreateEmptyNameStored` | service/category_service_impl.go:23-32 | the service accepts and stores an empty name on create |
| `Scenarios.UpdateSucceeds` | test/category_controller_test.go:97-123 | an update of a saved row succeeds, and a later lookup returns the new name |
| `Scenarios.UpdateEmptyNameFails` | test/category_controller_test.go:125-151 | an update with an empty name fails validation, and the saved row keeps its name |
| `Scenarios.UpdateMissingIdSilent` | repository/category_repository_impl.go:43-46 | updating an id that no row has succeeds and creates no row |
| `Scenarios.GetSucceeds` | test/category_controller_test.go:153-174 | looking up the id a save returned gives the saved name back |
| `Scenarios.GetMissingFails` | test/category_controller_test.go:176-197 | looking up id 10000 in a one-row table gives NotFound("category not found") |
| `Scenarios.DeleteSucceeds` | test/category_controller_test.go:199-220 | deleting the saved row empties the table, and deleting it again changes nothing |
| `Scenarios.DeleteMissingSilent` | test/category_controller_test.go:222-243 | deleting an id that no row has is not an error and leaves the table as it was |
| `Scenarios.ListInCreationOrder` | test/category_controller_test.go:245-279 | after two saves the list has two entries: the first saved id first, the second saved id second |

## Left out

- main.go: bootstrap wiring and `ListenAndServe` are I/O only.
- The SQL engine: the table is abstract. Its scan order is taken to be the order rows were inserted, which for an AUTO_INCREMENT key is the order of ids.
- The column types and constraints of the `category` schema are not part of this model.
- Transactions (`Begin`, `CommitOrRollback`) and `context` cancellation are foreign calls and are not modelled. On an infrastructure error `PanicIfError` panics. The panic is handled outside the modelled core, and the model has no infrastructure-failure case.
- Integer widths: ids are unbounded integers. The int64-to-int conversion of `LastInsertId` is not modelled.
- Nil slices: with no rows, `FindAll` and `ToCategoryResponses` return a nil slice, which encodes as JSON `null`. A Dafny sequence cannot tell this apart from an empty list.
- Validation: the rule is a parameter of the service. validator/category_validate.go delegates to go-playground/validator, and the struct tags that hold the rule (model/web) are not part of this model. `NameRequired` (a non-empty name) is the rule the tests exercise.
- The controller, router and exception handler are not part of this model. JSON decoding, path-id parsing and the 400/404 status mapping are therefore not modelled. The `Payload` type stands in for the data of the controller's success envelopes, which the model never builds.
- Middleware output: `writer.Header().Set`, `WriteHeader` and `WriteToResponseBody` are folded into one `Response` value (status, content type, envelope). Byte-level writing is not modelled.
- `Header.Get` and `Header.Add`: these are rewritten in Dafny from net/http's documented behaviour, for ASCII names only, and are not checked against net/http itself. The canonical-name rule upper-cases the first letter and each letter after '-', lower-cases the rest, and leaves unchanged any name that has a non-token character.
- Concurrency between requests is not modelled. Each call runs on its own.
