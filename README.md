# wms-service core, modelled in Dafny

This project models the sequential logic of a small warehouse-management
REST service written in Go. The service keeps hubs (warehouses), SKUs
(stock-keeping units) and per-hub stock levels. The model covers three
parts of it:

- **Inventory check-and-decrement** (`controllers/inventory_controller.go`).
  The `hub_inventories` table is a class holding its rows in primary-key
  order. The handler's local `HubInventory` struct is a second class, which
  gorm's `First` fills in and `ReduceQuantity` mutates before `Save` writes
  the whole row back. The handler is a method. It is proved equal to a
  function of the table (`Handle`), which is split into a read-and-compare
  half (`Load`) and a write half (`Commit`). Composing the halves as two
  reads followed by two writes shows the lost update.
- **Hub/SKU validation and the handlers' guards** (`controllers/controller.go`).
  In the source, two goroutines send one `ValidationResponse` each into a
  channel of capacity 2, and a `for ... range` loop keeps the first failure.
  Here the channel's contents are a sequence of outcomes in arrival order,
  and the loop is a method (`Reduce`) proved against a recursive reference
  (`Aggregate`). Channel capacity is treated separately: any trace of sends
  and receives in which each producer sends at most once never finds the
  channel full. The listing, get-by-id and create handlers are functions
  that return the status and the body key the handler writes.
- **String and number helpers** (`utils/utils.go`, `internal/domain/user_details.go`).
  Go strings are byte strings, so they are modelled as `seq<Byte>`.
  `Remove` and `TrimLowerArr` work in place on an `array`. The other
  helpers are functions. `strconv.ParseUint(s, 10, 64)` is called by both
  files. It is modelled as Go's digit loop and proved against the decimal
  value of the string. `UserDetails` is a class, and `SetCreated` /
  `SetUpdated` are methods that may receive a nil receiver, as in Go.

The database, the clock and the payload decoder are parameters:

- `lookupFails`, `saveFails` and `insertFails` say whether the gorm call fails.
- `findHub`/`findSku` give the result of a lookup by id.
- `ListResult` is the result of a `Find`.
- An `Option` payload is `None` when JSON binding fails.
- `now` is the value of `time.Now()`.
- `hubFirst` says which validation outcome reaches the channel first.

The model follows what the code does:

- The SKU check's failure message begins "SKU validation failed: ", and the hub check's begins "hub validation failed: ".
- A missing inventory row (or a failed lookup) is answered with 404. A failed hub/SKU validation is answered with 400.
- The handler only compares the ordered quantity R with the stock Q. When `R < 0` and the stock is not negative, the check passes and the stock grows by |R|. When `Q - R` passes the 64-bit limit, the stock wraps to a negative number.
- `ReduceQuantity` decrements the in-memory struct before it saves. When the save fails, the struct stays decremented and the reply is 500.
- The write is gorm's whole-row `Save` of the struct read earlier. The read, the comparison and the write are separate steps.

Some behaviour the model brings out:

- `CapitalizeFirstChar` converts the first BYTE to a rune (`string(input[0])`). A UTF-8 lead byte therefore grows into two bytes, for example "é" (C3 A9) becomes C3 83 A9.
- Interleaving two requests for 6 units against 10 in stock leaves 4, and both requests get 200. Run one after the other, the second request would be refused.

## Model

| member | source | states |
|---|---|---|
| `Common.Sub64` | controllers/inventory_controller.go:61 | Go `int` subtraction equals the mathematical difference whenever that difference fits in 64 bits (and wraps modulo 2^64 otherwise) |
| `Strconv.ParseUint` | utils/utils.go:231 | `ParseUint(s,10,64)` succeeds iff s is non-empty, all decimal digits and its value is at most 2^64-1, and then returns that value; a syntax error gives 0, a range error gives the maximum |
| `Strconv.Scan` | utils/utils.go:231 | one step of Go's digit loop per byte: on success the value is at least the value accumulated so far; a non-digit ends in a syntax error with 0, a value past 2^64-1 in a range error with the maximum |
| `Strconv.ScanCorrect` | utils/utils.go:231 | the digit loop, resumed after any already-parsed prefix that fits, agrees with the reference decimal value and the fits-in-64-bits test |
| `Strconv.ScanDigitsNoSyntax` | utils/utils.go:231 | over digits only, the digit loop never reports a syntax error |
| `Strconv.ParseUintOverflow` | utils/utils.go:231 | a non-empty digit string whose value exceeds 2^64-1 is a range error with the maximal value, never a syntax error |
| `Utils.Remove` | utils/utils.go:63-71 | in place: the first `n` slots become the input with its first occurrence of the element removed (or the input unchanged), and the slots from `n` on keep their old contents |
| `Utils.ShiftLeft` | utils/utils.go:67 | in place, the elements after index i move one slot left and the last slot keeps its value, so the first n-1 slots are the input without element i |
| `Utils.RemoveFirstPresent` | utils/utils.go:63-68 | if the element occurs, exactly the element at its first index is deleted: length drops by one and the order of the rest is kept |
| `Utils.RemoveFirstAbsent` | utils/utils.go:69-70 | if the element does not occur, the input is returned unchanged |
| `Utils.RemoveFirstMultiset` | utils/utils.go:63-70 | removal takes exactly one copy of the element out of the multiset of elements and nothing else |
| `Utils.Split` | utils/utils.go:167 | `strings.Split` on a one-byte separator always yields at least one piece, also for the empty string |
| `Utils.SplitPiecesFree` | utils/utils.go:167 | no piece of `strings.Split` holds the separator |
| `Utils.JoinSplit` | utils/utils.go:167 | joining the pieces of `strings.Split` with the separator gives back the original string |
| `Utils.SplitJoin` | utils/utils.go:167 | splitting a join of separator-free pieces gives back the pieces |
| `Utils.SplitCount` | utils/utils.go:167-169 | `strings.Split` yields one more piece than there are separators |
| `Utils.PhoneNumber` | utils/utils.go:176-178 | formatting is the dash-join of the three parts |
| `Utils.ParsePhoneNumber` | utils/utils.go:166-174 | with exactly two dashes it returns three dash-free parts that re-format to the input; otherwise it returns ("", "", input) |
| `Utils.PhoneNumberRoundTrip` | utils/utils.go:166-178 | parsing a formatted number whose parts hold no dash gives back the parts |
| `Utils.UpperLatin1` | utils/utils.go:185 | `unicode.ToUpper` on one byte-valued rune: ASCII letters go to upper case, and every non-ASCII rune stays non-ASCII and below U+0800 |
| `Utils.CapitalizeFirstChar` | utils/utils.go:180-186 | the empty string is unchanged; an ASCII first byte is upper-cased, the length is kept and bytes from index 1 on are kept; a non-ASCII first byte b is read as the rune of value b, and the result is the two-byte UTF-8 encoding of that rune's upper case followed by the rest |
| `Utils.CapitalizeAsciiIdempotent` | utils/utils.go:180-186 | for an ASCII first byte, capitalizing twice equals capitalizing once and the result does not start with a lower-case letter |
| `Utils.CapitalizeSplitsUtf8` | utils/utils.go:185 | the UTF-8 "é" (C3 A9) is turned into C3 83 A9 |
| `Utils.TrimLeft` | utils/utils.go:250 | the result is a suffix of the input, everything cut is white space, and the result does not start with white space |
| `Utils.TrimRight` | utils/utils.go:250 | the result is a prefix of the input, everything cut is white space, and the result does not end with white space |
| `Utils.TrimSpaceSlice` | utils/utils.go:250 | `TrimSpace` returns a slice of the input with only white space outside it |
| `Utils.TrimSpace` | utils/utils.go:250 | `strings.TrimSpace` returns no more bytes than it was given, neither starts nor ends with white space, and returns a string that already neither starts nor ends with white space unchanged |
| `Utils.ToLower` | utils/utils.go:250 | `strings.ToLower` keeps the length, lower-cases every byte on its own, leaves no upper-case letter, keeps white space where it was, and returns a string without upper-case letters unchanged |
| `Utils.TrimLower` | utils/utils.go:249-251 | the result of `TrimLower` is no longer than the input, has no leading or trailing white space and no upper-case letter |
| `Utils.TrimLowerIdempotent` | utils/utils.go:249-251 | `TrimLower` is idempotent |
| `Utils.TrimLowerArr` | utils/utils.go:242-247 | in place, each element i becomes `TrimLower` of the old element i; the same array is returned |
| `Utils.ParseStringToUint64` | utils/utils.go:228-240 | succeeds iff the string is a non-empty decimal of at most 2^64-1 and then returns its value; otherwise it returns 0 and a ParseIntError for that string |
| `Domain.UserIDOf` | internal/domain/user_details.go:48-59 | an empty UserID is an error; otherwise it succeeds iff UserID is a valid uint64 decimal and then returns its value; 0 on every error |
| `Domain.GetUserIDUint64` | internal/domain/user_details.go:43-60 | a nil receiver is an error, an empty UserID is an error, otherwise the decimal value of UserID or an error if it is not a valid uint64 decimal |
| `Domain.AfterSetCreated` | internal/domain/user_details.go:22-30 | on a valid user id only CreateByUserID changes, to the parsed id; otherwise no field changes |
| `Domain.AfterSetUpdated` | internal/domain/user_details.go:32-41 | on a valid user id only UpdatedByUserID (to the parsed id) and UpdatedAt (to the given time) change; otherwise no field changes |
| `Domain.SetCreated` | internal/domain/user_details.go:22-30 | the object's new field values are `AfterSetCreated` of the old; it returns the receiver on success and nil on failure, nil receiver included |
| `Domain.SetUpdated` | internal/domain/user_details.go:32-41 | the object's new field values are `AfterSetUpdated` of the old at the given time; it returns the receiver on success and nil on failure |
| `Domain.SetCreatedIdempotent` | internal/domain/user_details.go:22-30 | applying SetCreated twice gives the same record as once |
| `Domain.SetUpdatedIdempotent` | internal/domain/user_details.go:32-41 | applying SetUpdated twice at the same time gives the same record as once |
| `Domain.SetCreatedSetUpdatedCommute` | internal/domain/user_details.go:22-41 | the two stamps touch disjoint fields and commute |
| `Domain.SetCreatedTwice` | internal/domain/user_details.go:22-30 | on the object, a second SetCreated leaves the state of the first and returns the same pointer |
| `Controllers.GetAllHubs` | controllers/controller.go:20-34 | 500 iff the store fails, 404 iff the hub list is empty, 200 iff it is not, each with its body |
| `Controllers.GetAllSKUs` | controllers/controller.go:77-91 | 500 iff the store fails, 404 iff the SKU list is empty, 200 iff it is not, each with its body |
| `Controllers.GetHubByID` | controllers/controller.go:36-52 | 400 for an empty id, 404 when the lookup fails, 200 iff the id is non-empty and the hub is found |
| `Controllers.GetSKUByID` | controllers/controller.go:93-109 | 400 for an empty id, 404 when the lookup fails, 200 iff the id is non-empty and the SKU is found |
| `Controllers.CreateHub` | controllers/controller.go:54-75 | 201 and the hub appended iff the payload binds, the manager email and name are non-empty and the insert succeeds; a payload that does not bind is 400 "Invalid request payload"; a missing email or name is 400; a failed insert is 500 "Failed to create hub"; 201 carries "Hub created successfully"; every non-201 leaves the table unchanged |
| `Controllers.CreateSKU` | controllers/controller.go:111-131 | 201 and the SKU appended iff the payload binds, ProductID is non-zero and the insert succeeds; a payload that does not bind is 400 "Invalid request payload"; ProductID 0 is 400; a failed insert is 500 "Failed to create SKU"; 201 carries "SKU created successfully"; every non-201 leaves the table unchanged |
| `Controllers.HubCheck` | controllers/controller.go:157-169 | the hub check emits one well-formed outcome, valid iff the hub is found, else with an error starting "hub validation failed: " |
| `Controllers.SkuCheck` | controllers/controller.go:173-185 | the SKU check emits one well-formed outcome, valid iff the SKU is found, else with an error starting "SKU validation failed: " |
| `Controllers.Arrivals` | controllers/controller.go:153-191 | the channel holds exactly the two outcomes, one per check, in either order |
| `Controllers.Reduce` | controllers/controller.go:194-203 | the loop that starts valid and breaks at the first invalid outcome computes `Aggregate` of the channel's contents |
| `Controllers.AggregateValid` | controllers/controller.go:194-203 | the aggregate is valid iff every consumed outcome is valid |
| `Controllers.AggregateFirstFailure` | controllers/controller.go:197-202 | when the first invalid outcome is at k, the aggregate is invalid with exactly that outcome's error, whatever follows |
| `Controllers.AggregateOrderIndependent` | controllers/controller.go:194-203 | any two arrival orders of the same outcomes give the same validity |
| `Controllers.AggregateWellFormed` | controllers/controller.go:157-203 | from well-formed outcomes the aggregate is well-formed: invalid always carries an error |
| `Controllers.ChannelNeverBlocks` | controllers/controller.go:153-191 | with capacity 2 and at most one send per producer, no send ever finds the channel full, whatever the consumer does after it breaks |
| `Controllers.FailurePrefixesDistinct` | controllers/controller.go:164-180 | no message starts with both the hub and the SKU failure prefix |
| `Controllers.ValidateReferences` | controllers/controller.go:152-203 | the aggregate decision for the two lookups is well-formed |
| `Controllers.ValidateReferencesMeaning` | controllers/controller.go:155-203 | valid iff both exist, the same for both orders; one failure gives that side's error; two failures give the error of the one that arrived first |
| `Controllers.ValidateHubAndSKU` | controllers/controller.go:133-211 | an unbound payload is 400; otherwise 200 iff the hub and the SKU both exist, else 400 with a message naming the hub or the SKU side |
| `InventoryController.FirstMatch` | controllers/inventory_controller.go:38 | the first row in key order that matches (sku_id, hub_id), or none when no row matches |
| `InventoryController.Upsert` | controllers/inventory_controller.go:64 | gorm's `Save` by a non-zero primary key grows the table by at most one row |
| `InventoryController.UpsertKeeps` | controllers/inventory_controller.go:64 | after `Save` by key the row is stored, every stored row with another key is still there, and no other row appears |
| `InventoryController.SaveRow` | controllers/inventory_controller.go:64 | `Save` with key 0 appends the row under the next key and keeps every earlier row in place; with a non-zero key it grows the table by at most one row |
| `InventoryController.SaveRowOrdered` | controllers/inventory_controller.go:64 | a save keeps the table's primary keys positive, distinct and in order |
| `InventoryController.SaveRowReplaces` | controllers/inventory_controller.go:64 | saving a row whose key is stored rewrites exactly that row; every other row is untouched |
| `InventoryController.InventoryTable.First` | controllers/inventory_controller.go:38-42 | fills the struct with the first matching row when there is one and the store answers; otherwise leaves it as it was and reports not found |
| `InventoryController.InventoryTable.Save` | controllers/inventory_controller.go:64-66 | on success the whole row is written by primary key (insert under a new key for key 0); on failure nothing is written |
| `InventoryController.HubInventory.ReduceQuantity` | controllers/inventory_controller.go:59-71 | the in-memory quantity drops by the request (64-bit) whether or not the save succeeds; the table changes only when the save succeeds |
| `InventoryController.FirstMatchAt` | controllers/inventory_controller.go:38 | `First` finds the row that matches with no matching row before it |
| `InventoryController.Load` | controllers/inventory_controller.go:37-47 | a rejection is 404 or 400; an acceptance means the lookup answered and the accepted row matches the SKU and hub and holds at least the ordered quantity |
| `InventoryController.LoadAccepts` | controllers/inventory_controller.go:37-47 | when the first matching row holds at least the ordered quantity, the read-and-compare half accepts exactly that row |
| `InventoryController.Commit` | controllers/inventory_controller.go:49-55 | a failed save is 500 with the table unchanged; a good save is 200 and grows the table by at most one row |
| `InventoryController.CommitRewrites` | controllers/inventory_controller.go:59-64 | a good commit of a stored row with 0 <= R <= Q rewrites that row alone to Q - R and keeps the table ordered |
| `InventoryController.CommitTwice` | controllers/inventory_controller.go:59-64 | committing the same read row a second time leaves the table as the first commit left it |
| `InventoryController.Handle` | controllers/inventory_controller.go:26-57 | the table changes only on a 200; 400 "Invalid request payload" iff the payload does not bind; 200 iff it binds, the lookup answers, a row matches, its quantity covers the request and the save succeeds |
| `InventoryController.HandleNotFound` | controllers/inventory_controller.go:37-42 | no matching row or a failed lookup gives 404 "Inventory not found" and an unchanged table, whatever the quantity |
| `InventoryController.HandleInsufficient` | controllers/inventory_controller.go:44-47 | a request above the on-hand Q gives 400 "Insufficient inventory" and Q stays |
| `InventoryController.HandleDeducts` | controllers/inventory_controller.go:44-64 | R <= Q and a good save give 200, the matched row alone becomes Q - R, and for R >= 0 the result is exactly Q - R and not negative |
| `InventoryController.HandleSaveFails` | controllers/inventory_controller.go:50-53 | a failed save gives 500 and leaves the stored table unchanged |
| `InventoryController.HandleBoundaries` | controllers/inventory_controller.go:44-61 | R == Q leaves 0; R == Q + 1 is refused with no change |
| `InventoryController.HandleNegativeQuantity` | controllers/inventory_controller.go:44-61 | when the stock is not negative, a negative R passes and raises the stock by abs(R), or wraps it negative beyond 2^63-1 |
| `InventoryController.LostUpdate` | controllers/inventory_controller.go:38-64 | two requests that both read Q before either saves: both reads accept the same row; both writes reply 200, and the second leaves the row at Q - R, as the first did, not Q - 2R |
| `InventoryController.SequentialDeductsTwice` | controllers/inventory_controller.go:26-64 | the same two requests one after the other deduct twice |
| `InventoryController.LostUpdateExample` | controllers/inventory_controller.go:38-64 | 10 in stock, two interleaved orders of 6 both succeed and leave 4, where the second, run afterwards, would be refused |
| `InventoryController.LoadInventory` | controllers/inventory_controller.go:37-47 | reading into a fresh struct and comparing gives `Load` of the table |
| `InventoryController.UpdateInventory` | controllers/inventory_controller.go:49-55 | ReduceQuantity and the reply give `Commit` of the table and the struct read earlier, and the struct's quantity drops by the request (64-bit) even when the save fails |
| `InventoryController.ValidateAndUpdateInventory` | controllers/inventory_controller.go:26-57 | the handler's reply and the new table are `Handle` of the old table, and the table stays ordered |
| `InventoryController.InterleavedRequests` | controllers/inventory_controller.go:38-64 | on the live table, read, read, write, write: both replies are 200 and only one deduction remains |

## Left out

- JSON binding is a payload that is present or absent. The `details` field of error bodies and the records in success bodies are not modelled.
- Logging (`log`, `fmt.Println`) is not modelled. Neither is `GetHealth`, which only prints.
- gorm and Postgres are replaced by the parameters listed above. The primary key that `Create` assigns in `CreateHub` / `CreateSKU` is not modelled: the record is appended as given.
- InventoryController.NextId, InventoryController.SaveRow: a `Save` with key 0 is given the last stored key plus one, which is the largest key while the table is kept ordered by key. Postgres takes the key from a sequence, which can be larger after deletions. No handler path saves a row with key 0, so no handler result depends on this choice.
- gorm's handling of a string id in `First(&hub, id)` is not modelled. gorm reads such an id as a key or as a raw condition; the model uses the lookup function's answer.
- Goroutines, the `sync.WaitGroup` and `close(respChan)` are not modelled. The arrival order is the `hubFirst` parameter, and the channel is a trace of sends and receives.
- "Each identifier is looked up exactly once" holds by construction of `ValidateHubAndSKU`. No contract states it.
- `internal/hubs/repository/repository.go`, `init/init.go`, `main.go`, `routes/routes.go` and `internal/hubs/wire.go` are not part of this model. They hold ORM wrappers, configuration, start-up, routing and dependency-injection code.
- The `models` package is not part of this model. `Hub`, `SKU`, `ValidationResponse` and `ValidateOrderRequest` carry only the fields the controllers read.
- These helpers in the utils file wrap foreign libraries, randomness, time or request context, and are not modelled: `GenerateULID`, `GenerateOTP`, `ExtractFirstCaptureGroup`, `GetValidationErrors`, `SendEmail`, `GetUserDetails`, `GetDefaultHeaders`, `GetNameSpace`, `ExtractTenantIDFromParamsAndContext`, `ParseParamToUint64` (which is `ParseStringToUint64` of a path parameter) and `GetLogTag`.
- Utils.ParseStringToUint64: the request context and the text of the error message are not modelled. The error records the input and the cause.
- Strconv.ParseUint: a syntax error and a range error are told apart, but Go's `*NumError` text is not modelled.
- Utils.TrimLeft, Utils.TrimRight, Utils.TrimSpaceSlice, Utils.TrimSpace, Utils.ToLower, Utils.TrimLower, Utils.TrimLowerIdempotent, Utils.TrimLowerArr: `strings.TrimSpace` and `strings.ToLower` are modelled on ASCII white space and letters only. They are exact for ASCII input. Go also trims Unicode spaces at either end, lower-cases non-ASCII letters, and replaces invalid UTF-8 when the string is not ASCII. The model keeps such bytes as they are.
- InventoryController.InventoryTable.Save, InventoryController.Commit, InventoryController.HandleSaveFails: a failed gorm `Save` is taken to write nothing, as a single statement that the database rolls back. A partial write by a failed save is not modelled, and "the table is unchanged on 500" rests on that assumption.
- `time.Now()` in `SetUpdated` is replaced by the time passed in as a parameter.
- Concurrent execution of inventory requests is not modelled. Only the interleaving of the two halves is: read, read, write, write.
