# Commodities inventory: the mock data layer

This project models the core of a small inventory manager for a
commodities shop. The core is its mock back end, `src/services/api.ts`:
- a fixed two-user credential table and `authAPI.login`;
- an in-memory product store of eight seeded records, with
  `getAll` / `getById` / `create` / `update` / `delete`;
- `dashboardAPI.getStats`, which aggregates the store.

The model also covers the pure rules the screens layer on top of that
facade:
- the search filter and post-delete list of the product list (`Products.tsx`);
- the product form's status classifier, validation chain, submit payload,
  field copy on load and status hint (`ProductForm.tsx`);
- the login screen's empty-field guard and demo-credential buttons (`Login.tsx`);
- the dashboard's elapsed-time labels and inventory-health message (`Dashboard.tsx`).

Everything is a pure function over immutable values. The store is a
`seq<Product>` in insertion order. Every call of the products facade
returns `Call(store, result)`: the store it leaves behind, and either
`Ok(value)` or `Err(message)` for the thrown `Error`. So "a failed call
leaves the store as it was" can be stated and proved. The login facade,
which touches no store, returns a `Result<Session>`; the dashboard facade,
which only reads the store, returns its `DashboardStats`. Whatever the source draws from
the environment becomes a parameter:
- the fresh id from `Math.random`;
- the ISO timestamp from `new Date()`;
- `Date.now()`, in the token and in the activity feed;
- the `window.confirm` answer;
- the route's `id` parameter.

Modules:
- `Types`: the records of `src/types/index.ts`, plus `Option`/`Result`.
- `Text`: JavaScript `trim`, `toLowerCase` and `includes` on strings.
- `Seqs`: `findIndex` with its -1 sentinel, `filter`, and subsequences.
- `Store`: the products facade and the seed.
- `Auth`: the login facade.
- `Dashboard`: `getStats` and the dashboard's display rules.
- `ProductsPage`, `ProductForm`, `LoginPage`: the screens' rules.

## Model

| member | source | states |
|---|---|---|
| `Store.GetAll` | src/services/api.ts:157-160 | the result is the whole store in insertion order and the store is unchanged |
| `Store.GetById` | src/services/api.ts:162-169 | succeeds exactly when some record carries the id, and then returns the first such record; otherwise fails with "Product not found"; the store is never changed |
| `Store.MockProducts` | src/services/api.ts:40-129 | the seed holds eight records, each stamped with the load time, with a positive price and a quantity of at least zero |
| `Store.Merge` | src/services/api.ts:188-192 | each field the patch holds overwrites the previous record's, every other field is kept, and `lastUpdated` is the call's timestamp whatever the patch says |
| `Store.IndexOf` | src/services/api.ts:184 | `findIndex` by id: -1 exactly when no record carries the id, otherwise the first index that does |
| `Store.Create` | src/services/api.ts:171-180 | always succeeds; the store grows by exactly one record at the end, the old records are kept, and the new record carries the payload's seven fields, the supplied id and the supplied timestamp |
| `Store.Update` | src/services/api.ts:182-194 | a missing id fails with "Product not found" and leaves the store alone; otherwise only the first record with the id is replaced: each field the patch holds overwrites, every other field is kept, `lastUpdated` becomes the call's timestamp, and the returned record is the stored one |
| `Store.Delete` | src/services/api.ts:196-203 | a missing id fails with "Product not found" and leaves the store alone; otherwise exactly the first record with the id is spliced out and the rest keep their order |
| `Store.MockProductsUniqueIds` | src/services/api.ts:40-129 | the eight seeded records have pairwise distinct ids |
| `Store.CreateThenGetById` | src/services/api.ts:162-180 | after a create under an id no record has, `getById` of that id returns the created record |
| `Store.UpdateThenGetById` | src/services/api.ts:162-194 | after a successful update whose patch has no id or the same id, `getById` returns the record the update returned |
| `Store.DeleteThenGetById` | src/services/api.ts:162-203 | with distinct ids, `getById` of a deleted id reports "Product not found" |
| `Store.CreatePreservesUniqueIds` | src/services/api.ts:171-180 | creating under a fresh id keeps ids distinct |
| `Store.DeletePreservesUniqueIds` | src/services/api.ts:196-203 | deleting keeps ids distinct |
| `Store.UpdateKeepsStaleStatus` | src/services/api.ts:188-192 | the facade never re-derives status: setting record 1's quantity to 0 succeeds and leaves its status in-stock |
| `Auth.Login` | src/services/api.ts:137-151 | succeeds exactly when some table row matches both email and password; then the user is the first matching row without its password, and the token is `mock-token-<id>-<stamp>`; otherwise fails with "Invalid email or password" |
| `Auth.LoginRoles` | src/services/api.ts:23-38 | a sign-in yields a manager exactly for the manager's pair and a storekeeper exactly for the keeper's pair |
| `Auth.ManagerLogin` | src/services/api.ts:23-30 | the manager's pair yields user 1, Rajesh Kumar, and the token `mock-token-1-<stamp>` |
| `Dashboard.GetStats` | src/services/api.ts:211-220 | the product count is the store's length; the value is Σ price×quantity; the attention count is the number of records whose stored status is low- or out-of-stock, zero exactly when every status is in-stock; the category count is the number of distinct categories, zero exactly when the store is empty; neither count exceeds the product count |
| `Dashboard.CategoriesBound` | src/services/api.ts:214 | there are never more distinct categories than records, and at least one when there is a record |
| `Dashboard.NoAttentionIffAllInStock` | src/services/api.ts:213 | no record is counted for attention exactly when every stored status is in-stock |
| `Dashboard.StatsAfterCreate` | src/services/api.ts:171-180 | after a create, one more product, the value grows by the new record's value, the attention count grows by one exactly when its status needs attention, and the category count grows by at most one |
| `Dashboard.StatsAfterDelete` | src/services/api.ts:196-203 | after a successful delete, one product fewer, the value drops by the deleted record's value, and the attention count drops by one exactly when that record needed attention |
| `Dashboard.MockStats` | src/services/api.ts:40-129 | the seeded store shows 8 products, a total value of 193795, 3 items needing attention and 6 categories |
| `Dashboard.MockCategories` | src/services/api.ts:40-129 | the seeded categories are Beverages, Grains, Pulses, Oils, Spices and Dairy |
| `Dashboard.FormatTime` | src/pages/Dashboard.tsx:42-52 | under an hour shows floor minutes; from one hour up to a day shows floor hours, between 1 and 23; from a day on shows the date; exactly one of the three applies |
| `Dashboard.RecentActivity` | src/services/api.ts:221-243 | the feed has three entries, stamped 15 minutes, 45 minutes and 2 hours before the clock reading, newest first |
| `Dashboard.RecentActivityLabels` | src/services/api.ts:221-243 | rendered at any time less than a minute after the feed was built, the three feed entries are labelled 15 minutes, 45 minutes and 2 hours ago |
| `Dashboard.InventoryHealth` | src/pages/Dashboard.tsx:203-205 | "all well-stocked" exactly when the attention count is 0; otherwise it reports that count |
| `Dashboard.HealthReflectsStore` | src/pages/Dashboard.tsx:203-205 | the card says all is well exactly when every stored status is in-stock |
| `Text.TrimStart` | src/pages/Products.tsx:45 | the result is a suffix of the input; only whitespace was removed, and the result does not start with whitespace |
| `Text.TrimEnd` | src/pages/Products.tsx:45 | the result is a prefix of the input; only whitespace was removed, and the result does not end with whitespace |
| `Text.Trim` | src/pages/Products.tsx:45 | the result is a slice of the input with only whitespace before and after it in the input, and it neither starts nor ends with whitespace |
| `Text.TrimEmptyIffBlank` | src/pages/ProductForm.tsx:61 | a string trims to empty exactly when every character of it is whitespace |
| `Text.Lower` | src/pages/Products.tsx:50 | same length; each upper-case ASCII letter becomes its own lower-case letter and every other character is unchanged |
| `Text.LowerIdempotent` | src/pages/Products.tsx:50-55 | lower-casing twice is the same as lower-casing once |
| `Text.ContainsIffOccurs` | src/pages/Products.tsx:53-55 | `includes` holds exactly when the query occurs at some position of the string |
| `Seqs.FindIndex` | src/services/api.ts:198 | -1 exactly when no element satisfies the test; otherwise the smallest index that does |
| `Seqs.Filter` | src/pages/Products.tsx:51-56 | every element kept passes the test, and the result is no longer than the input |
| `Seqs.FilterCounts` | src/pages/Products.tsx:51-56 | an element that passes occurs in the result exactly as often as in the input, and one that fails never occurs |
| `Seqs.FilterMembership` | src/pages/Products.tsx:51 | an element is kept exactly when it was in the input and passes the test |
| `Seqs.FilterIsSubsequence` | src/pages/Products.tsx:51 | filtering keeps the input's order |
| `Seqs.FilterIdempotent` | src/pages/Products.tsx:51 | filtering twice with the same test equals filtering once |
| `ProductsPage.FilterProducts` | src/pages/Products.tsx:44-58 | a query that is blank after trimming shows every product; otherwise a product is shown exactly when it is listed and its lower-cased name, category or supplier contains the lower-cased query, as many times as it is listed, in list order |
| `ProductsPage.Search` | src/pages/Products.tsx:50-57 | a product is selected exactly when its lower-cased name, category or supplier contains the lower-cased query, as many times as it is listed, in list order |
| `ProductsPage.FilterProductsIdempotent` | src/pages/Products.tsx:44-58 | searching the results again with the same query changes nothing |
| `ProductsPage.QueryIsNotTrimmed` | src/pages/Products.tsx:45-50 | trimming decides only blankness: "rice" finds a Rice record that "rice " misses |
| `ProductsPage.HandleDelete` | src/pages/Products.tsx:60-74 | a declined confirmation changes nothing; a missing id alerts "Product not found" and changes nothing; a success splices the first record with the id out of the store and drops exactly the local entries with that id, every other entry kept as many times as listed and in order |
| `ProductsPage.WithoutId` | src/pages/Products.tsx:68 | exactly the entries carrying the id are removed; every other entry is kept as many times as listed and in order |
| `ProductsPage.StaleOverlappingDeletes` | src/pages/Products.tsx:60-74 | two deletes whose calls overlap, as written: when both succeed the store loses both records, but the list keeps every entry without the second id, each as many times as before, so entries with the first id come back; when the second delete fails, only its alert is shown and the list keeps every entry without the first id |
| `ProductsPage.OverlappingDeletesRestoreRecord` | src/pages/Products.tsx:60-74 | deleting records 1 and 2 of a two-record list with overlapping calls leaves the store empty and shows record 1 |
| `ProductsPage.FreshOverlappingDeletes` | src/pages/Products.tsx:60-74 | the same two deletes when the second handler filters the current list: when both succeed the list drops the entries of both ids |
| `ProductsPage.FreshDeletesMatchStore` | src/pages/Products.tsx:60-74 | with the list equal to the store and distinct ids, two overlapping deletes of distinct present ids then leave the list equal to the store |
| `ProductsPage.LocalListMatchesStore` | src/pages/Products.tsx:60-68 | when the local list is the store and ids are distinct, the list after a delete equals the store the facade leaves |
| `ProductsPage.BadgeLabel` | src/pages/Products.tsx:83-87 | the label is "In Stock", "Low Stock" or "Out of Stock" exactly for the matching status |
| `ProductsPage.BadgeLabelsDistinct` | src/pages/Products.tsx:83-87 | distinct statuses show distinct badge labels |
| `ProductForm.CalculateStatus` | src/pages/ProductForm.tsx:50-54 | out-of-stock exactly at quantity 0, low-stock exactly for other quantities below 20 (negatives included), in-stock exactly from 20 up |
| `ProductForm.Validate` | src/pages/ProductForm.tsx:60-76 | no message exactly when the form is valid; otherwise the message of the first failing check, in the order name, category, price, supplier |
| `ProductForm.ValidateIgnoresQuantityAndUnit` | src/pages/ProductForm.tsx:60-76 | changing quantity or unit never changes the validation outcome |
| `ProductForm.Submit` | src/pages/ProductForm.tsx:56-97 | the facade is called exactly when the form is valid; an invalid form shows the first failing check's message and leaves the store alone; a valid one is saved by `create` on the create route and by `update` on the edit route |
| `ProductForm.Payload` | src/pages/ProductForm.tsx:80-83 | the payload carries the form's six fields; its status is out-of-stock exactly at quantity 0 and in-stock exactly from 20 up |
| `ProductForm.SubmitCreate` | src/pages/ProductForm.tsx:78-91 | one record with the form's six fields, the status derived from its quantity, the new id and the save time is appended, the old records are kept, and the screen goes to /products |
| `ProductForm.SubmitEdit` | src/pages/ProductForm.tsx:78-93 | a missing id shows "Product not found" and leaves the store alone; otherwise only the first record with the id takes the form's six fields, the derived status and the save time, keeps its id, and the screen goes to /products |
| `ProductForm.LoadForm` | src/pages/ProductForm.tsx:31-48 | a found product's six editable fields are copied into the form; a missing one leaves the form and shows "Product not found" |
| `ProductForm.ResubmitRepairsStatus` | src/pages/ProductForm.tsx:31-97 | loading the first record with an id, when its fields pass validation, and saving it unchanged keeps its fields and id, stamps it with the save time, re-derives its status from its quantity, and leaves the store's length and every other record alone |
| `ProductForm.StatusLabel` | src/pages/ProductForm.tsx:272-275 | the hint is empty exactly for a negative quantity |
| `ProductForm.StatusLabelAgreesWithBadge` | src/pages/ProductForm.tsx:272-275 | for a non-negative quantity the hint equals the badge of the derived status |
| `ProductForm.MockStatusesDerived` | src/services/api.ts:40-129 | every seeded record's stored status is the one its quantity derives |
| `LoginPage.HandleSubmit` | src/pages/Login.tsx:14-32 | an empty email or password shows the missing-fields message and does not sign in; otherwise `handleSubmit` signs in with the values it receives and the busy flag ends cleared: success navigates to /dashboard with no error, failure stays with "Invalid email or password" |
| `LoginPage.FillDemoCredentials` | src/pages/Login.tsx:34-43 | each role's button fills that role's demo pair and clears the error |
| `LoginPage.DemoCredentialsSignIn` | src/pages/Login.tsx:34-43 | either demo button followed by submit signs in as a user of that role and navigates to /dashboard |

## Left out

- The axios instance and its bearer-token interceptor (`api.ts:4-20`): the mock never calls them.
- The simulated latency of each facade call. Calls are modelled one at a time, each completing before the next starts, except for the case below. The screen disables only the row being deleted (`src/pages/Products.tsx:249`), so a second delete can start while the first awaits. Each handler filters the list it captured when it started, so the first deleted record reappears; see "## Findings". Other interleavings, such as a refresh racing a delete, are not modelled.
- `Math.random()` ids, `new Date().toISOString()` and `Date.now()` are parameters. So the model makes no claim that ids or tokens are unique. Neither the code nor the model guarantees unique ids; the id lemmas that need them assume `UniqueIds` instead.
- Floating point: `price` is a `real` and `quantity` an `int`, so no rounding is modelled. The form's `parseFloat(value) || 0` input conversion is left out.
- Currency formatting (`Intl.NumberFormat`), `toLocaleDateString`, and the text of the "Nm ago" and "N items need attention" messages. `Dashboard.FormatTime` returns a tag (`MinutesAgo`, `HoursAgo`, `OnDate`) rather than the rendered string.
- `Text.Lower`: only ASCII letters are lower-cased. JavaScript's `toLowerCase` also folds non-ASCII letters.
- Rendering, the JSX, `window.confirm`, `alert` and the router. The confirmation answer is a parameter; the alert and the navigation target are result fields.
- The loading and spinner flags of `fetchStats`, `fetchProducts` and `fetchProduct`, and the re-fetch button: they only sequence calls already modelled.
- The session context behind the login screen's `login` is not part of this model. It is taken to forward to `authAPI.login` and to rethrow its error.
- `App.tsx`'s routing and route guards are not modelled.
- Stored status versus quantity: the facade never checks that they agree (`Store.UpdateKeepsStaleStatus`), and the dashboard counts attention items by the stored status. `CalculateStatus` classes a negative quantity as low-stock, as the code does.
- The browser's own form validation. The form has no `noValidate` (`src/pages/ProductForm.tsx:137`), so the `required`, `min` and `step` attributes on the inputs (`src/pages/ProductForm.tsx:150-266`) stop submission before `handleSubmit` runs. That blocks empty names, categories and suppliers, negative or fractional quantities, and negative prices. `ProductForm.Submit` models `handleSubmit` alone and accepts every form it is given, so its invalid-form cases are the ones the browser lets through (a whitespace-only name, a zero price) or that arrive by other means.
- LoginPage.HandleSubmit: models `handleSubmit` alone. The login form also has no `noValidate` (`src/pages/Login.tsx:82`), and its email input is `type="email"` (`src/pages/Login.tsx:96-104`). The browser strips leading and trailing whitespace from that field's value, and it blocks submission of a non-empty address that is not well-formed. So a malformed address such as `abc` never reaches `handleSubmit` and shows no "Invalid email or password", and a padded demo address signs in where the model's sign-in fails. The model takes the two field values as `handleSubmit` receives them.
- Store.MockProducts: stamps all eight records with one `loadedAt`. The source calls `new Date()` once per record, so their timestamps may differ by a few milliseconds.
- Dashboard.RecentActivity: takes one clock reading `nowMs` for the three entries. The source calls `Date.now()` once per entry (`src/services/api.ts:227`, `:234`, `:241`), so their offsets may differ by a few milliseconds.
- Dashboard.RecentActivityLabels: the dashboard renders with its own later `new Date()` (`src/pages/Dashboard.tsx:44`). The lemma covers a render less than a minute after the feed was built; a later render may show larger ages.

## Findings

| source | as written | input that shows it | evidently intended | confidence | as-written member | corrected member |
|---|---|---|---|---|---|---|
| src/pages/Products.tsx:60-74 | on success each delete handler sets the list to the list it captured when it started, minus its id | list = store = [record 1, record 2]; delete 1 and, before it returns, delete 2: the store ends empty but the list shows record 1 | the list after both deletes equals the store (filter the current list, not the captured one) | medium, not executed | `ProductsPage.StaleOverlappingDeletes` with `ProductsPage.OverlappingDeletesRestoreRecord` | `ProductsPage.FreshOverlappingDeletes` with `ProductsPage.FreshDeletesMatchStore` |
