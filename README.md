# ExpireEye backend, modelled in Dafny

ExpireEye tracks food that users keep at home. A catalog ("warehouse") of
products, each with a nutrition row fetched from a nutrition API, is shared
by all users; every user keeps an inventory of rows that reference catalog
products, with a quantity, an expiry date and a status ("active" or
"expired"). A background scanner marks rows whose expiry date has passed as
expired, pushes an alert over the user's notification websocket and logs a
warning notification. Statistics routes summarise the inventory. Two
FastAPI applications sit in front: the main app (`app/`) and an older
backend (`backend/app/`) with its own login, signup and per-user product
routes. Both gate every non-public path on an `access_token` cookie.

This project models that core as Dafny modules, one per source file, over
shared modules for the records and the stores:

- `Wrappers`: `Option`, `Result` and `Failure`. A failure is either an HTTP
  error the handler raises (`Http(status, detail)`) or an exception the
  handler does not catch (`Crash(reason)`, which FastAPI turns into a 500).
- `Text`: ASCII `str.lower`, `strip`, `title`, slicing, and SQL `LIKE` /
  `ILIKE` matching with the `%` and `_` wildcards, which for a needle
  without wildcards is a case-insensitive substring test.
- `Timestamps`: string order (`<` on Python strings and SQL text), calendar
  date-times, `isoformat()` and adding seconds.
- `Entities`: inventory rows, catalog products, nutrition rows, users,
  notifications and decoded token claims.
- `Store` (class `Db`) and `BackendStore` (class `BackendDb`): the tables of
  the two applications as sequence fields, with an id counter standing for
  uuid4 and auto-increment ids.
- `ProductUtils`, `NutritionUtils`, `BackendNutritionUtils`,
  `NotificationService`, `ProductService`, `NotificationRouter`,
  `UserProductService`, `UserInventory`, `Warehouse`, `Stats`, `AppMain`,
  `BackendMain`, `Auth` and `ProductRoutes`: one module per source file.
- `Middleware`: the access-token gate and the validation-error handler that
  both `main.py` files contain.

Handlers that change the tables are methods on the store classes, with
`modifies` clauses and postconditions that state the whole new state.
Pure lookups and replies are functions. Loops in the source (the scanner,
the listings, the mass add, the websocket session, the nutrients filter,
the expiry-trends loop) are `while` loops with invariants, each proved
against a specification function. Foreign code is passed in as a
parameter: SHA-256 (`sha`), JWT encode and decode, bcrypt hash and check,
the nutrition API's result, the clock, and whether a database call or a
socket write fails.

## Model

| member | source | states |
|---|---|---|
| ProductUtils.Barcode | app/utils/product_utils.py:7-20 | the barcode is 12 to 15 characters long: a prefix of at most 3 characters, 8 hash digits and the separators with the `20` suffix |
| ProductUtils.BarcodeParts | app/utils/product_utils.py:18-20 | the prefix is the first min(3, len) characters of the stripped, lower-cased name; the hash part is the first 8 lowercase hex digits of its SHA-256; `ParseBarcode` reads both back |
| ProductUtils.BarcodeNeverEmpty | app/utils/product_utils.py:20 | the barcode is never empty, so the warehouse's "N/A" fallback never applies |
| ProductUtils.BarcodeIgnoresCase | app/utils/product_utils.py:18 | names that differ only in letter case get the same barcode |
| ProductUtils.BarcodeIgnoresPadding | app/utils/product_utils.py:18 | surrounding whitespace does not change the barcode |
| ProductUtils.FindProduct | app/utils/product_utils.py:23-24 | the first catalog product with this id, or None exactly when no product has it |
| ProductUtils.FindUserProduct | app/utils/product_utils.py:27-32 | the first row whose user id and product id both match, or None exactly when no row matches both |
| NutritionUtils.CheckNutritionExists | app/utils/nutrition_utils.py:20-30 | "N/A" for a missing key or for the premium placeholder in any letter case; any other present value unchanged, null included |
| NutritionUtils.PlaceholderNeverSurvives | app/utils/nutrition_utils.py:21-28 | the result is never the premium placeholder, in any letter case |
| NutritionUtils.CheckNutritionExistsIdempotent | app/utils/nutrition_utils.py:20-30 | storing the checked value back under its key and checking again gives the same answer |
| BackendNutritionUtils.CheckNutritionExists | backend/app/utils/nutrition_utils.py:16-26 | the same answer as the `app/` copy for every key and map |
| BackendNutritionUtils.NullIsKept | backend/app/utils/nutrition_utils.py:26 | a key present with null yields null, not "N/A" |
| Entities.Attr | app/models/nutrition_model.py:1-25 | reading a column the class does not declare is an AttributeError; a declared column reads its stored value, null when never written |
| Entities.NutritionDict | app/routers/warehouse.py:121-127 | a dict built column by column fails on the first undeclared key; otherwise its keys are exactly the listed ones |
| NotificationService.DeliverEffect | app/services/notification_service.py:17-28 | a send never adds or re-points an entry; no entry: nothing changes; a good write adds one frame on the user's socket; a failed write drops only that user's entry |
| NotificationService.Registry.Send | app/services/notification_service.py:17-28 | the registry and the socket log after the send are `Deliver` of those before |
| NotificationService.Registry.Register | app/services/notification_service.py:40 | the key now points at the new socket; nothing is written |
| NotificationService.Registry.Write | app/services/notification_service.py:42-56 | exactly one frame is appended on the given socket |
| NotificationService.Registry.Disconnect | app/services/notification_service.py:57-60 | only the session's key is dropped |
| NotificationService.Registry.Session | app/services/notification_service.py:31-60 | a missing token, or a token that decodes to None, aborts with nothing registered or written; otherwise the acknowledgement and one echo per inbound frame go out on the session's socket, in order, and the key is gone at the end |
| NotificationService.SessionFramesShape | app/services/notification_service.py:42-56 | the first frame is CONNECTION_ESTABLISHED with the user id; frame i + 1 answers inbound frame i |
| NotificationService.EchoFramesAt | app/services/notification_service.py:53-56 | echo i is "Notification received: " followed by inbound frame i |
| NotificationService.AddNotification | app/services/notification_service.py:63-79 | exactly one unread notification with a fresh id, the given user, message, type and time is appended; no other table changes |
| ProductService.DueIndicesSpec | app/services/product_service.py:19-25 | the query selects exactly the active rows whose expiry date sorts strictly before the run's timestamp, each once, in store order |
| ProductService.DueFromSound | app/services/product_service.py:21-23 | every selected position holds a due row |
| ProductService.DueFromComplete | app/services/product_service.py:21-23 | every due row from the start position is selected |
| ProductService.DueFromIncreasing | app/services/product_service.py:24 | selected positions are strictly increasing, so no row is selected twice |
| ProductService.ExpireDueEffect | app/services/product_service.py:40-41 | a selected row ends expired and stamped with the run's time, other columns kept; every other row is unchanged; a row expiring at the very instant of the run is not selected |
| ProductService.SecondRunSelectsNothing | app/services/product_service.py:19-25 | a second run at the same timestamp selects no row |
| ProductService.NoticesAt | app/services/product_service.py:53-58 | the m-th warning is for the m-th selected row: its user, an unread "warning" naming the catalog product, the m-th fresh id |
| ProductService.StepsAt | app/services/product_service.py:35-59 | the m-th trace entry is: mark the m-th selected row expired, push its alert (product name, expiry date, run time) to its user, persist its warning, commit |
| ProductService.PushesEffect | app/services/product_service.py:52 | the run never adds or re-points a registry entry; it writes at most one alert per handled row, each stamped with the run's time; with every push succeeding, each connected user receives the alert of each of their rows |
| ProductService.ProcessRowEffect | app/services/product_service.py:40-59 | one loop turn on values: only the handled row changes, and it is expired; one notification for its user is appended under the next id |
| ProductService.HandleRow | app/services/product_service.py:40-59 | one loop turn changes the store, registry and trace exactly as `ProcessRow` says |
| ProductService.CheckProductExpiry | app/services/product_service.py:14-60 | the run completes iff no selected row's product is missing, else stops at the first such row; exactly the selected rows before the stop are expired; the log gains exactly those rows' warnings; the registry is that after their pushes; catalog, users and nutrition are untouched |
| NotificationRouter.ListNotifications | app/routers/notification_router.py:11-35 | a crash exactly when the token did not decode; 401 exactly when the token carries no user id |
| NotificationRouter.ListNotificationsSpec | app/routers/notification_router.py:19-35 | "No notifications found" exactly when none is the caller's; otherwise one entry per notification of theirs, the i-th entry carrying the id, type, message, time and read flag of the i-th of them in store order, and none of anyone else's |
| NotificationRouter.OwnedByCounts | app/routers/notification_router.py:19 | the query returns each of the caller's notifications as often as it is stored, and no other |
| NotificationRouter.OwnedByAppend | app/routers/notification_router.py:19 | the query keeps store order: a notification stored later comes after the caller's earlier ones |
| NotificationRouter.ListAfterAppend | app/routers/notification_router.py:19-35 | after one more notification is stored for the caller, the listing is the previous entries followed by its entry |
| NotificationRouter.FindNotification | app/routers/notification_router.py:40-42 | the first notification with this id, or None exactly when no notification has it |
| NotificationRouter.MarkedReadEffect | app/routers/notification_router.py:45 | marking sets the read flag of the first notification with the id and changes nothing else |
| NotificationRouter.MarkedReadIdempotent | app/routers/notification_router.py:45 | marking twice is the same as marking once |
| NotificationRouter.MarkNotificationAsRead | app/routers/notification_router.py:38-49 | 404 "Notification not found" for an unknown id with the log unchanged; otherwise the log is `MarkedRead` of the old log |
| UserProductService.FindByName | app/services/user_product_service.py:39 | the first catalog product with exactly this name, or None exactly when no product has it |
| UserProductService.OwnedRows | app/services/user_product_service.py:128-133 | exactly the rows of the given user; a null user id matches none |
| UserProductService.SortNewestFirst | app/services/user_product_service.py:131 | the same rows (as a multiset), the most recently added first |
| UserProductService.Resolve | app/services/user_product_service.py:39-54 | an existing product is used as is and nothing changes; a missing one runs the insert hook, which raises, inserts nothing, or appends one product under the next id; the name is then found exactly when it resolves, and the inventory is never touched |
| UserProductService.ResolveFinds | app/services/user_product_service.py:48 | the position Resolve reports is where the second look-up by name finds the product in the catalog it leaves |
| UserProductService.ResolveProduct | app/services/user_product_service.py:39-54 | the catalog, inventory and id counter end up as Resolve says; an error from the hook is passed on with nothing else changed; the answer is the found position |
| UserProductService.AddRow | app/services/user_product_service.py:56-70 | exactly one active row with a fresh id and the given fields is appended |
| UserProductService.CreateEffect | app/services/user_product_service.py:39-124 | the catalog changes only when the name is missing and the hook inserts; a name that does not resolve commits no row and raises (the hook's error, or the NOT NULL productId); one that resolves commits exactly one active row with a fresh id referencing the product of that name, after which a scanned item raises and an unscanned one replies with its values |
| UserProductService.CreateUserProduct | app/services/user_product_service.py:17-124 | 404 for an unknown user with nothing changed; otherwise the catalog, inventory and id counter end up as Create says (CreateEffect), and users, nutrition and notifications are untouched |
| UserProductService.UpdateTarget | app/services/user_product_service.py:200-221 | 404 exactly when the user has no row for the product; Ok, at that row, exactly when both fields are present and one of them differs from what is stored; a missing field gives 400 "Both quantity and expiryDate are required", two unchanged fields give 400 "No changes detected" |
| UserProductService.Revised | app/services/user_product_service.py:223-237 | the id, owner, product, status and addedAt are kept; a falsy new quantity, date or notes keeps the stored value; updatedAt is the new time |
| UserProductService.NotesAloneAreNoChange | app/services/user_product_service.py:215-221 | a body repeating quantity and date is refused as "no changes" even when it brings new notes |
| UserProductService.FalsyQuantityKeepsStored | app/services/user_product_service.py:223-227 | a quantity of 0 passes the guard yet leaves the stored quantity |
| UserProductService.UpdateUserProductData | app/services/user_product_service.py:196-248 | on a guard failure the rows are unchanged; otherwise only the matched row is replaced by `Revised` |
| UserProductService.DeleteUserProductData | app/services/user_product_service.py:251-263 | 404 with rows unchanged when no row matches; otherwise exactly the matched row is removed |
| UserProductService.DeleteRemovesOne | app/services/user_product_service.py:260 | every other row survives in order, and the multiset loses exactly the removed row |
| UserProductService.EntryFor | app/services/user_product_service.py:136-192 | the placeholder for a row whose product is gone; otherwise the product's id, name and category with the row's fields; fails exactly on reading an undeclared nutrition column |
| UserProductService.EntriesOf | app/services/user_product_service.py:135-193 | a listing that succeeds has one entry per row |
| UserProductService.EntriesOfAt | app/services/user_product_service.py:135-193 | one entry per row, in order, and a failure only where some row's entry fails |
| UserProductService.DeclaredKeysNeverFail | app/services/user_product_service.py:144-159 | reading only declared columns, the listing never fails |
| UserProductService.ListEntries | app/services/user_product_service.py:135-193 | the loop's result equals `EntriesOf` of the rows |
| UserProductService.GetUserProductList | app/services/user_product_service.py:127-193 | the listing of the caller's rows, newest first |
| UserProductService.ServiceListing | app/services/user_product_service.py:127-193 | one entry per row of the caller, newest addedAt first, each carrying its row's fields, with the placeholder for a missing product |
| UserProductService.Partition | app/services/user_product_service.py:276-332 | every item lands in exactly one of "success" and "failed" |
| UserProductService.ItemStep | app/services/user_product_service.py:282-330 | one item of the bulk loop: it is answered as Answers says, an incomplete item changes nothing, and the inventory keeps its rows and gains at most one, owned by this user; a failed commit leaves the rows as they were |
| UserProductService.ItemStepResolved | app/services/user_product_service.py:297-323 | a complete item whose name resolves commits one row with its values at its time, and succeeds exactly when it is not scanned; a scanned one fails with the notification error though its row stays; a known name leaves the catalog as it was; the session stays usable |
| UserProductService.ItemStepUnresolved | app/services/user_product_service.py:297-330 | a complete item whose name does not resolve fails and commits no row; unless the hook raised, the failure is the NOT NULL error of the row's commit and leaves the session failed |
| UserProductService.AddItem | app/services/user_product_service.py:282-330 | the store, the outcome and whether the session failed are exactly what ItemStep gives for the store before the item |
| UserProductService.BulkTurn | app/services/user_product_service.py:282-330 | one pass of the loop on the store is the Turn of the run so far: on a failed session a complete item fails without touching the store, otherwise AddItem's result |
| UserProductService.Turn | app/services/user_product_service.py:282-330 | a turn appends one outcome after the earlier ones, unchanged, and a failed session stays failed |
| UserProductService.AddMassUserProducts | app/services/user_product_service.py:266-332 | an unknown user gets one "User does not exist" failure and nothing changes; otherwise the store ends up as MassRun over all items says, with no rollback between items, and "success" and "failed" are its outcomes split in order |
| UserProductService.MassRunRows | app/services/user_product_service.py:276-332 | the bulk loop keeps the existing rows first and untouched, adds at most one row per item, and every added row is the user's |
| UserProductService.MassRunAnswers | app/services/user_product_service.py:276-332 | every item of the bulk loop is answered as Answers says |
| UserProductService.FailedSessionFailsRest | app/services/user_product_service.py:297-330 | once a commit has failed, no later item changes the store, and every later complete item fails with the pending-rollback error |
| UserProductService.UnresolvedItemFailsRest | app/services/user_product_service.py:53-69 | a complete item whose name does not resolve, with the hook raising nothing, fails on the NOT NULL productId commit; the bulk add then commits nothing more and every later complete item fails with the pending-rollback error |
| UserProductService.OutcomeStays | app/services/user_product_service.py:276-332 | later items never change an earlier item's outcome |
| UserProductService.MassAddAllKnown | app/services/user_product_service.py:276-332 | when every item is complete, unscanned and already in the catalog: catalog untouched, every item succeeds, nothing fails, and one row per item is appended in input order with that item's values |
| UserProductService.MassAddAccounts | app/services/user_product_service.py:297-330 | with a known user every item is answered once, and any incomplete item shows up under "failed" |
| UserInventory.AddUserProduct | app/routers/user_inventory.py:15-71 | guards in order (no token, expiry overflow, unknown user 404, empty name 400, unknown product 404, null quantity); success exactly when all pass, adding one active row that expires 20 s after now, and replying with the title-cased name |
| UserInventory.AddedRowExpiresAfterTwentySeconds | app/routers/user_inventory.py:24 | the scanner picks the added row at time u exactly when u is later than 20 s after its creation, and never at its creation |
| UserInventory.GetUserProducts | app/routers/user_inventory.py:74-132 | a missing token crashes; otherwise the caller's rows in store order, each listed as the service lists it |
| UserInventory.UpdateUserProduct | app/routers/user_inventory.py:135-191 | the service's guards, messages and update for the caller |
| UserInventory.DeleteUserProduct | app/routers/user_inventory.py:194-212 | 404 when the caller has no row for the product; otherwise exactly that row is removed |
| UserInventory.FindByBarcode | app/routers/user_inventory.py:241 | the first product with this barcode, or None exactly when none has it |
| UserInventory.GetProductByBarcode | app/routers/user_inventory.py:239-265 | 404 exactly for an unknown barcode; any answer carries the product's name and category |
| UserInventory.LookupByBarcode | app/routers/user_inventory.py:239-265 | an unknown barcode is 404; an answer carries the name of the product with that barcode |
| UserInventory.BarcodeLookupAlwaysFails | app/routers/user_inventory.py:243-264 | as written, a barcode lookup never answers: 404, or a crash on `fat` or on the unassigned `nutrition` |
| UserInventory.LookupByBarcodeAnswers | app/routers/user_inventory.py:239-265 | the intended lookup: 404 for an unknown barcode, else name, category and the five nutrients with the values stored in the product's nutrition row (null when never written), or an empty object when it has none |
| UserInventory.InventoryListingFails | app/routers/user_inventory.py:82-100 | as written, the listing fails exactly when a listed row's product has a nutrition row |
| UserInventory.IntendedInventoryListing | app/routers/user_inventory.py:82-130 | with `fat` and `calories` declared, the listing never fails, one entry per row; an entry has nutrition exactly when its product has a nutrition row, and then exactly the five keys with the values stored in that row (null when never written) |
| Warehouse.NutritionDataShape | app/routers/warehouse.py:62-69 | the nutrition row holds exactly the constructor's keywords, each with its own value |
| Warehouse.FirstUndeclared | app/routers/warehouse.py:71 | the constructor raises exactly when some keyword is not a column, naming one such keyword |
| Warehouse.StoredBarcode | app/routers/warehouse.py:79 | the stored barcode is the generated one |
| Warehouse.AddGuard | app/routers/warehouse.py:34-58 | guards in order: 400 all fields, 400 short name, 404 unknown user; Ok carries the caller's id |
| Warehouse.AddProduct | app/routers/warehouse.py:30-94 | a guard failure or no API result changes nothing; an undeclared keyword crashes; a NOT NULL column left unset or null fails the commit with nothing stored; success exactly otherwise, storing the nutrition row then the product referencing it |
| Warehouse.StoreProduct | app/routers/warehouse.py:71-88 | exactly one nutrition row and one product referencing it are appended, with fresh ids |
| Warehouse.AddProductNeverSucceeds | app/routers/warehouse.py:62-71 | as written, the `Nutrition` constructor always raises on `fat` |
| Warehouse.WiderClassStillFails | app/models/nutrition_model.py:11-24 | even with `fat` and `calories` declared, the row leaves `energy_kcal` and other NOT NULL columns unset, so the commit at line 73 of the router always fails |
| Warehouse.IntendedAddProduct | app/routers/warehouse.py:62-94 | with a table of exactly the written columns, all NOT NULL, no keyword is undeclared and no required column is missing for any API result without null nutrients, and the stored barcode reads back as the name's prefix and hash |
| Warehouse.IntendedAddProductNullValue | app/routers/warehouse.py:62-73 | with that table, an API result with a null `protein_g` still fails the commit |
| Warehouse.Selected | app/routers/warehouse.py:106-109 | with no name, every product; else exactly the products whose name matches `%name%` under ILIKE, the name's own `%` and `_` acting as wildcards |
| Warehouse.SelectedByLiteral | app/routers/warehouse.py:107 | a name without wildcards selects exactly the products whose name contains it, ignoring case |
| Warehouse.SelectedByUnderscore | app/routers/warehouse.py:107 | the name "_" selects every product with a non-empty name, not the names containing an underscore |
| Text.ILikeContains | app/routers/warehouse.py:107 | for a needle without wildcards, ILIKE `%needle%` is the case-insensitive substring test |
| Warehouse.ListedFor | app/routers/warehouse.py:115-136 | no nutrition id gives null nutrition; a missing nutrition row crashes; an entry carries the product's id, name and barcode |
| Warehouse.ListingOf | app/routers/warehouse.py:113-138 | a listing that succeeds has one entry per product |
| Warehouse.ListingOfAt | app/routers/warehouse.py:113-138 | one entry per product, in order, failing only where some product's entry does |
| Warehouse.GetProducts | app/routers/warehouse.py:97-138 | the loop's result equals the listing of the selected products |
| Warehouse.ListingFailsOnNutrition | app/routers/warehouse.py:117-127 | as written, listing fails as soon as one selected product has a nutrition id; otherwise all are listed with null nutrition |
| Warehouse.IntendedListing | app/routers/warehouse.py:113-135 | with the five nutrient columns declared, listing fails exactly when a selected product's nutrition row is missing; otherwise each product is listed in order, with exactly the five nutrient keys and their stored values when it has a nutrition id |
| Warehouse.UpdateProductTarget | app/routers/warehouse.py:148-172 | 404 for an unknown id; a null new name crashes; Ok exactly when the token decoded, the product exists, and both the name (ignoring case) and the category differ from the stored ones |
| Warehouse.UpdateNeedsBothChanged | app/routers/warehouse.py:165-172 | changing only the name or only the category is refused as "no changes" |
| Warehouse.RevisedProduct | app/routers/warehouse.py:174-183 | the name is title-cased; a falsy category or barcode keeps the stored one; updatedAt is refreshed |
| Warehouse.UpdateProduct | app/routers/warehouse.py:141-192 | on a guard failure the catalog is unchanged; otherwise only that product is replaced by `RevisedProduct` |
| Warehouse.DeleteProduct | app/routers/warehouse.py:195-216 | 404 with nothing changed for an unknown id; otherwise every row referencing the product goes, then the product, and nothing else |
| Warehouse.DeleteCascades | app/routers/warehouse.py:210 | no remaining row references the product, every other row survives, and the count drops by the number that did |
| Stats.Tally | app/routers/stats.py:28-29 | grouping gives strictly ascending keys, each group non-empty, with no more marked rows than rows |
| Stats.TallyCounts | app/routers/stats.py:45-51 | each group counts exactly the rows with its key, and the marked rows among them |
| Stats.TallyMeaning | app/routers/stats.py:22-31 | ascending distinct keys, each with its row and marked counts, and a group for every key some row has |
| Stats.GetExpiredTrend | app/routers/stats.py:20-36 | no rows give no items, and every item counts at least one expired row |
| Stats.ExpiredTrendMeaning | app/routers/stats.py:20-36 | one item per calendar date of an expired row, ascending, with that date's count of expired rows |
| Stats.ExpiredDaysCount | app/routers/stats.py:27 | the grouped rows are exactly the expired ones |
| Stats.GetExpiryTrends | app/routers/stats.py:38-68 | one item per date that has rows, every such date present, in ascending date order; `expiring` is the rows of the date; `wasted_cost` is 50 times its expired rows; `active` is the difference and never negative |
| Stats.GetWastageByCategory | app/routers/stats.py:70-90 | no expired row gives no items; otherwise one count per category, each at least one, in ascending category order |
| Stats.WastageMeaning | app/routers/stats.py:70-90 | with some expired row: one count per category of an expired row that joins a catalog product, each the number of such rows; no other category appears |
| Stats.WastageBounded | app/routers/stats.py:70-90 | no expired row gives []; otherwise the category counts add up to at most the number of expired rows |
| Stats.TallySum | app/routers/stats.py:83-85 | the group counts add up to the number of rows grouped |
| Stats.GetWastedVsEaten | app/routers/stats.py:92-100 | two rows, "wasted" then "active" |
| Stats.WastedPlusActive | app/routers/stats.py:94-95 | the two counts add up to the number of rows |
| Stats.ColumnDict | app/routers/stats.py:120 | the dict has exactly the table's columns |
| Stats.ShownNutrients | app/routers/stats.py:123-128 | a key is kept exactly when it is not `id` or `addedAt` and its value is neither null nor "N/A"; kept values are unchanged |
| Stats.GetNutrients | app/routers/stats.py:102-133 | an unknown product gives the placeholder item and no nutrients; otherwise the product's name with its shown nutrients |
| Middleware.Gate | app/main.py:26-59 | Bypass exactly for a public path; 401 "missing" exactly for a missing or empty cookie; 401 "invalid" exactly when decoding raises; otherwise forward with the decoded payload |
| Middleware.NullPayloadProceeds | app/main.py:49-50 | a token that decodes to None is not refused: the route runs with no user |
| Middleware.Message | app/main.py:70-74 | "field required" becomes "This field is required."; any other message passes through |
| Middleware.FieldOf | app/main.py:69 | the last element of `loc`; an empty `loc` raises |
| Middleware.FieldErrors | app/main.py:66-77 | one error per input error, in order, with the last loc element and the mapped message; fails exactly when some loc is empty |
| Middleware.ValidationResponse | app/main.py:62-78 | status 422 carrying the mapped errors |
| AppMain.AccessTokenMiddleware | app/main.py:28-39 | Bypass exactly for the six public paths; otherwise the shared gate |
| AppMain.BackendListIsPrefix | app/main.py:28-35 | the backend's three public paths are public here too |
| AppMain.DocsArePublic | app/main.py:32-34 | the documentation paths need no token |
| BackendMain.AccessTokenMiddleware | backend/app/main.py:12-37 | Bypass exactly for login, signup and status; otherwise 401 "missing or invalid" without a non-empty cookie, 401 "invalid" when decoding raises, and the decoded payload (possibly None) is forwarded otherwise |
| BackendMain.SameGateOffDocs | backend/app/main.py:12-37 | the two applications give the same verdict except on the documentation paths, which only the main app lets through without a token |
| BackendMain.DocsNeedToken | backend/app/main.py:14 | `/docs` without a cookie is refused with 401 |
| Auth.FindByEmail | backend/app/routes/auth.py:26 | the first account with this email, or None exactly when none has it |
| Auth.Login | backend/app/routes/auth.py:15-52 | an empty email or password crashes (no status code), though only the empty password gets past request validation, which answers 422 for an empty `EmailStr`; a database error is 500; success exactly when the account exists and bcrypt accepts; every other failure is 401 "Invalid email or password"; the token encodes the account's id and email and the cookie is httponly for 864000 s |
| Auth.LoginOpensGate | backend/app/routes/auth.py:35-44 | the cookie a login sets passes the backend's gate on every non-public path as that account |
| Auth.SignupCheck | backend/app/routes/auth.py:65-82 | in order: 500 on a database error, 409 for a registered email, 400 no email, 400 no password, 400 short password; none exactly when all pass |
| Auth.NewUser | backend/app/routes/auth.py:84-93 | the stored password is the hash, a missing dob is "" and the time is now |
| Auth.Signup | backend/app/routes/auth.py:55-108 | a failed check or a failed commit changes nothing; success exactly otherwise, appending the new account |
| Auth.SignupKeepsEmailsUnique | backend/app/routes/auth.py:65-68 | a successful signup keeps emails unique |
| Auth.SignupThenLogin | backend/app/routes/auth.py:55-108 | an account just created can log in with its credentials, and the token carries its id and email |
| ProductRoutes.AddGuard | app/routes/product.py:27-47 | in order: no token crashes, 400 all fields, 400 short name, 404 unknown user; Ok carries the caller's id |
| ProductRoutes.NutrientsShape | app/routes/product.py:51-59 | the row holds exactly the five constructor keywords, all of them columns |
| ProductRoutes.AddProduct | app/routes/product.py:23-81 | a guard failure or no API result changes nothing; a null nutrient crashes at commit; success exactly otherwise, storing a product owned by the caller, in category "Other", with the given expiry date, and replying with the title-cased name |
| ProductRoutes.StoreProduct | app/routes/product.py:59-74 | exactly one nutrition row and one product referencing it are appended |
| ProductRoutes.ListGuard | app/routes/product.py:84-105 | in order: no token crashes, 401 no user id, 404 unknown user, 400 no product name |
| ProductRoutes.Owned | app/routes/product.py:107-111 | exactly the products with this exact name owned by the caller |
| ProductRoutes.ListedFor | app/routes/product.py:117-138 | fails exactly on a missing nutrition row; an entry carries the product's fields, and nutrition is null exactly when it has no nutrition id |
| ProductRoutes.ListingOf | app/routes/product.py:115-140 | a listing that succeeds has one entry per product |
| ProductRoutes.ListingOfAt | app/routes/product.py:115-140 | one entry per product, in order, failing only where some product's entry does |
| ProductRoutes.GetProducts | app/routes/product.py:84-140 | the guard's failure, or the listing of the caller's products with that name |
| ProductRoutes.ListingShowsOwnProducts | app/routes/product.py:107-140 | only the caller's products with exactly that name are listed, one entry each; failure only on a missing nutrition row |

## Left out

- Async, the websocket transport and scheduling: one scanner run is modelled synchronously. The success of a `send_notification_to_user` write (Registry.Send) is an input; the writes of the websocket session never fail in the model.
- Database sessions, commit and refresh: tables are sequence fields of a class. A failed commit leaves the session failed only inside the bulk loop, the one handler that goes on using its session after catching the error; every other handler ends with the error, and each request gets a fresh session.
- Database faults: modelled as boolean inputs, only where the handler catches them (auth).
- SQL details:
  - MySQL's case-insensitive collation is not modelled; `==` on names and emails is exact.
  - The order of rows tied on `addedAt` is left to store order.
  - A query without ORDER BY returns rows in store (insertion) order.
  - LIKE's backslash escape is not modelled: a backslash in a pattern is an ordinary character.
  - GROUP BY returns groups in an unspecified order; the model sorts them by key.
- Foreign code is passed in as parameters: SHA-256, JWT encode and decode (including the `exp` claim), bcrypt hash and check, and `fetch_nutrition`.
  - The HTTP client is not modelled.
  - An API error dict in place of a result list is not modelled.
  - bcrypt raising on a malformed stored hash is not modelled.
- Text: case mapping is ASCII only. Dates are strings; parsing of malformed date strings is not modelled.
- Clock: all `utcnow()` readings in one handler share one reading.
- Floating point and randomness: the random `consumed` value, percentage rounding and the `float()` conversion of nutrients.
  - Stats.GetExpiryTrends returns `active` in place of `consumed`.
  - Stats.GetWastageByCategory returns the counts the percentages are computed from.
- Exception texts: `str(e)` is an approximation of Python's message.
- Ids: modelled as naturals from one counter shared by all tables, which a fresh store starts at 1 as auto-increment does; so no id is falsy (uuids are non-empty strings).
- Schema gaps the code relies on: the inventory `status` and `notes` columns (absent from app/models/user_product.py:7-16) and the notification `read` flag are part of the records.
- UserProductService.AddMassUserProducts: a null `notes` value is taken as "".
- UserProductService.ResolveProduct: `add_product_to_inventory` is imported (app/services/user_product_service.py:14) from app/services/product_service.py, which does not define it, so as written the module fails to import. The model takes what the call does as the input `insert` and assumes it writes only the catalog: one product, nothing, or an exception.
- UserProductService.CreateUserProduct: rests on the same assumption about `add_product_to_inventory`; a hook that also wrote inventory rows or notifications is not modelled.
- Response-model validation by FastAPI is not modelled.
- CORS and the `/status` routes (constant replies) are not modelled.
- Image detection, uploads and the scan-upload route (`/user/scan` writes a file to disk) are not modelled; nor are app/routers/product.py and app/routers/user.py.
- The scanner's `NameAt` gives "" for a missing product; it is only read where the product exists.
- app/routes/product.py follows the request schema in backend/app/schemas/product.py, which declares `expiryDate`. app/schemas/product.py lacks that field.

## Findings

| source | as written | input that shows it | evidently intended | confidence | as-written member | corrected member |
|---|---|---|---|---|---|---|
| app/routers/user_inventory.py:243-264 | reads `nutrition_data.fat` and `.calories`, which the imported `Nutrition` class lacks; `nutrition` is unassigned when no nutrition row exists | any barcode of a catalog product | name, category and the five nutrients, or `{}` | high, not executed | UserInventory.BarcodeLookupAlwaysFails | UserInventory.LookupByBarcodeAnswers |
| app/routers/warehouse.py:62-73 | `Nutrition(**nutrition_data)` passes `fat` and `calories`, which the imported class lacks; were they declared, the commit would still fail on `energy_kcal` and nine more NOT NULL columns the row never sets | any request passing the guards with an API result | the row is stored in a table of exactly the written columns (those of app/models/nutrition.py plus `addedAt`), then the product | high, not executed | Warehouse.AddProductNeverSucceeds | Warehouse.IntendedAddProduct |
| app/routers/user_inventory.py:90-100 | the listing reads `fat` from the same class | a user row whose product has a nutrition row | the five nutrients are listed | high, not executed | UserInventory.InventoryListingFails | UserInventory.IntendedInventoryListing |
| app/routers/warehouse.py:117-127 | `get_products` reads `nutrition.fat` from the same class | a selected catalog product whose nutrition row exists | every selected product is listed; one reading, taken here, keeps the five nutrients the code reads when the product has a nutrition id, while `NutritionResponse` (app/schemas/product_schema.py:5-18) suggests the response may instead have been meant to carry the nutrition table's own columns | high, not executed | Warehouse.ListingFailsOnNutrition | Warehouse.IntendedListing |
