# Boba shop point-of-sale — a Dafny model of its ordering and back-office logic

This project models the parts of the boba-tea point-of-sale system that carry real decisions. They are:

- **The self-service kiosk.** It covers customising a drink and the append-only cart. It also covers the subtotal, the 8.25% tax and the gross total, recomputed from scratch. Then come the loyalty discount, the order payload, and loyalty-point settlement after submission.
- **The back-office pages.** These are the employee form and its UUID generator, the menu-item form and its validation, and the reports page with its interval handling.
- **The small helpers.** These are the translation cache, the `googtrans` cookie and flag lookup, and the layout's page classification.
- **The Flask endpoints.** These are order submission with its all-or-nothing ingredient decrement, the X/Z report arithmetic with hourly and per-employee breakdowns, the chart date ranges, employee add/update/delete, and review add/delete.

Money is exact (`real`), so floating-point rounding is not modelled; the one rounding the database applies, to whole cents in the order table, is written out. Requests, clocks and random numbers are parameters:
- An awaited request is a reply value, such as accepted or rejected, or a status plus body.
- `Math.random()` nibbles are an input sequence.
- `uuid4()` and `datetime.now()` are an id argument and a time argument.
- A database is a record of maps and sequences.

Each module follows one source file:

| file | module | source |
|---|---|---|
| wrappers.dfy | `Wrappers` | `Option`, standing for `undefined`/`null`/`None` |
| seqs.dfy | `Seqs` | `Array.filter` and occurrence counting |
| strings.dfy | `Strings` | `includes`, `startsWith`, `split`/`join`, `replace`, `strip`, `lower` |
| uuids.dfy | `Uuids` | `uuid.UUID` parsing of ids into the stored form |
| catalog.dfy | `Catalog` | product, ingredient, customer and review records |
| customization.dfy | `Customization` | the customisation dialog |
| kiosk.dfy | `Kiosk` | the kiosk page |
| menu_item.dfy | `MenuItem` | the add-menu-item form |
| employees_page.dfy | `EmployeesPage` | the employee management page |
| reports_page.dfy | `ReportsPage` | the reports page |
| translation.dfy | `Translation` | the translation hook |
| language_flags.dfy | `LanguageFlags` | the cookie parse and the flag table |
| layout.dfy | `Layout` | page classification and side menu |
| order_route.dfy | `OrderRoute` | `/submitorder` |
| report_route.dfy | `ReportRoute` | `/getxreport` and `/generatezreport` |
| charts_route.dfy | `ChartsRoute` | the two chart endpoints |
| employee_route.dfy | `EmployeeRoute` | the employee endpoints |
| review_route.dfy | `ReviewRoute` | the review endpoints |

Three behaviours of the code are easy to get wrong when reading it quickly; the model follows the code:
- **Settlement after a discount.** Settlement has only two branches. A non-zero discount costs 10 × floor(discount) points. Otherwise the customer earns ceil(charged) points. There is no separate branch that wipes the balance.
- **Topping order.** Toppings are kept in the order they were clicked. A newly clicked topping goes to the end; the list is not re-sorted into catalog order.
- **Discount on recompute.** Recomputing the totals after adding to or resetting the cart drops an applied discount. `updateTotals` writes a three-element array.

## Model

| member | source | states |
|---|---|---|
| Customization.Surcharge | frontend/src/components/CustomizationModal.tsx:73-77 | medium adds 1.5 and large adds 2.0; any other size label adds nothing, and no surcharge is negative |
| Customization.SurchargeMatchesTable | frontend/src/components/CustomizationModal.tsx:29-33 | the surcharge finalising applies for each row of the size table equals the price that row displays |
| Customization.ToggleTopping | frontend/src/components/CustomizationModal.tsx:40-46 | membership flips. Removing a selected topping drops all its copies; every other topping keeps its order (element k is the k-th kept position) and its number of copies. An unselected topping is appended at the end with the earlier selection unchanged |
| Customization.ToggleTwiceRestores | frontend/src/components/CustomizationModal.tsx:40-46 | clicking an unselected topping twice gives back exactly the original selection |
| Customization.ToggleKeepsDistinct | frontend/src/components/CustomizationModal.tsx:40-46 | toggling never introduces a duplicate into a duplicate-free selection |
| Customization.DefaultToppings | frontend/src/components/CustomizationModal.tsx:128-133 | the pre-selection is the subsequence of the catalog, in catalog order, whose ids the product's optional ingredient list names, and it holds every such catalog entry; a product without that list gets none |
| Customization.Open | frontend/src/components/CustomizationModal.tsx:128-133 | the defaults effect resets the size to small and the selection to the defaults; it leaves the review list and the review text alone |
| Customization.ProductChanged | frontend/src/components/CustomizationModal.tsx:48-50 | the product-change effect replaces the review list with the product's own `reviews` field, defined or not, and changes nothing else |
| Customization.SelectProduct | frontend/src/components/CustomizationModal.tsx:35-133 | selecting a product shows its defaults and its own review list; the dialog renders exactly when the product carries a review list |
| Customization.SelectProductIntended | frontend/src/components/CustomizationModal.tsx:35-50 | with an empty list standing in for a missing one the dialog always renders, and a product that carries reviews is shown exactly as before |
| Customization.Finalize | frontend/src/components/CustomizationModal.tsx:69-77 | the cart line is the product with price raised by the size surcharge and ingredients exactly the selection; every other field equals the product's |
| Customization.FinalizeDefault | frontend/src/components/CustomizationModal.tsx:69-77 | a product with no ingredient list, finalised straight after opening, costs its base price and carries an empty list |
| Customization.SubmitReview | frontend/src/components/CustomizationModal.tsx:85-107 | no customer or empty text: no request. Otherwise it posts the product, customer and text. A 200 reply appends the returned review and clears the text, but with no review list the spread throws and nothing changes. Another success status only clears the text; a rejected request changes nothing. The list stays defined exactly when it was |
| Customization.DeleteReview | frontend/src/components/CustomizationModal.tsx:109-126 | no customer or no id: no request. On a 200 reply with a review list, every review with that id is removed and every other review keeps its number of copies; with no list the filter throws and nothing changes; any other reply changes nothing |
| Customization.RemoveAppended | frontend/src/components/CustomizationModal.tsx:99-120 | removing the id of a review appended to a list without that id gives back the list |
| Customization.SubmitThenDeleteRestores | frontend/src/components/CustomizationModal.tsx:85-126 | posting a review with a new id and then deleting it gives back the original review list |
| Customization.CatalogProductBreaksDialog | frontend/src/components/CustomizationModal.tsx:35-161 | a product as the catalog endpoint sends it, without a review list, leaves the dialog unable to render, and a 200 post or delete leaves it unchanged |
| Kiosk.Start | frontend/src/pages/Kiosk.tsx:18 | the page starts with an empty cart and totals `[0, 0, 0, 0]`, so its discount slot is 0 rather than absent |
| Kiosk.SubtotalAppend | frontend/src/pages/Kiosk.tsx:48-53 | the subtotal of two carts in sequence is the sum of their subtotals |
| Kiosk.SubtotalOrderIndependent | frontend/src/pages/Kiosk.tsx:48-53 | the subtotal does not depend on the order lines were added in |
| Kiosk.SubtotalNonNegative | frontend/src/pages/Kiosk.tsx:48-53 | with non-negative prices the subtotal is non-negative |
| Kiosk.UpdateTotals | frontend/src/pages/Kiosk.tsx:48-59 | subtotal is the cart's sum, gross is subtotal × 1.0825 and tax is their difference; the discount slot is absent; with non-negative prices 0 ≤ subtotal ≤ gross |
| Kiosk.ComputeTotals | frontend/src/pages/Kiosk.tsx:48-59 | the accumulating loop yields the same totals as the recursive sum definition |
| Kiosk.ChargeBounds | frontend/src/pages/Kiosk.tsx:75 | in any valid session the amount charged, gross minus the discount (absent counts as 0), lies between 0 and gross |
| Kiosk.AddProductToCart | frontend/src/pages/Kiosk.tsx:41-46 | the line is appended, earlier lines unchanged; totals are those of the new cart, subtotal grows by the line's price, and any discount is dropped |
| Kiosk.ResetOrder | frontend/src/pages/Kiosk.tsx:91-96 | the cart is empty and the totals are 0/0/0 with no discount; the customer is kept |
| Kiosk.ApplyDiscount | frontend/src/pages/Kiosk.tsx:98-108 | without a customer or with an empty cart nothing changes. Otherwise the discount is points/10 or gross, whichever is smaller, and subtotal, tax, gross and cart are untouched |
| Kiosk.ApplyDiscountIdempotent | frontend/src/pages/Kiosk.tsx:98-108 | applying the discount twice is the same as applying it once |
| Kiosk.ProductIds | frontend/src/pages/Kiosk.tsx:66 | one product id per cart line, in cart order |
| Kiosk.IngredientIds | frontend/src/pages/Kiosk.tsx:68-71 | a payload exists exactly when every line has an ingredient list |
| Kiosk.IngredientIdsAppend | frontend/src/pages/Kiosk.tsx:68-71 | the flattened ingredient ids of two carts in sequence are the first cart's ids followed by the second's |
| Kiosk.IngredientIdsSingle | frontend/src/pages/Kiosk.tsx:68-71 | a single line contributes exactly its own ingredient ids, in order |
| Kiosk.FinalizedLine | frontend/src/components/CustomizationModal.tsx:69-71 | every finalised line has an ingredient list, so a cart of finalised lines can always be submitted |
| Kiosk.Settle | frontend/src/pages/Kiosk.tsx:83-89 | a guest stays a guest. A non-zero discount costs 10 × floor(discount) points. A zero or absent discount earns ceil(charged) points. Only the points field changes |
| Kiosk.Ceil | frontend/src/pages/Kiosk.tsx:87 | `Math.ceil` on exact amounts: the least integer not below the amount |
| Kiosk.SubmitOrder | frontend/src/pages/Kiosk.tsx:61-90 | an empty cart sends nothing. Otherwise the payload holds product ids in cart order, the flattened ingredient ids, the fixed kiosk employee id, total = gross − discount and the customer id. A rejected post changes nothing. An accepted one resets the cart and settles points from the totals captured before the reset |
| Kiosk.RedeemKeepsPointsNonNegative | frontend/src/pages/Kiosk.tsx:83-85 | redeeming a discount that applyDiscount computed from the same balance never leaves negative points; when the gross cap did not apply, exactly points mod 10 remain |
| Kiosk.StartValid | frontend/src/pages/Kiosk.tsx:18 | the session invariant holds initially: derived totals, discount between 0 and gross, non-negative points |
| Kiosk.AddKeepsValid | frontend/src/pages/Kiosk.tsx:41-46 | adding a line with a non-negative price keeps the session invariant |
| Kiosk.ApplyDiscountKeepsValid | frontend/src/pages/Kiosk.tsx:98-108 | applying the discount keeps the session invariant |
| Kiosk.SubmitKeepsValid | frontend/src/pages/Kiosk.tsx:61-90 | submitting keeps the session invariant, points included, when any discount came from applyDiscount |
| Kiosk.ZeroDiscountAccrues | frontend/src/pages/Kiosk.tsx:83-88 | a customer with 0 points who applies the (zero) discount is treated as having none and earns ceil(10.825) = 11 points on a $10 cart |
| Kiosk.RedemptionExample | frontend/src/pages/Kiosk.tsx:98-108 | 50 points against an $8 gross: discount 5, charge 3, all 50 points spent |
| MenuItem.IngredientChange | frontend/src/components/MenuItemModal.tsx:38-44 | checking appends `{id, quantity: 1}` after the unchanged selection. Unchecking removes every entry with that id; every other entry keeps its position order (element k is the k-th kept entry) and its number of copies |
| MenuItem.CheckThenUncheckRestores | frontend/src/components/MenuItemModal.tsx:38-44 | checking an ingredient that is not selected and then unchecking it gives back the selection |
| MenuItem.QuantityChange | frontend/src/components/MenuItemModal.tsx:46-50 | only entries with the matching id get the new quantity; length, order, ids and all other entries are unchanged |
| MenuItem.QuantityChangeFacts | frontend/src/components/MenuItemModal.tsx:46-50 | changing an unselected id is a no-op, and repeating a change is idempotent |
| MenuItem.QuantityFromInput | frontend/src/components/MenuItemModal.tsx:267 | an input parsing to 0 or NaN becomes 1; any other parsed value is kept |
| MenuItem.Cleared | frontend/src/components/MenuItemModal.tsx:91-100 | after a post every input is cleared except alerts, which keeps its value |
| MenuItem.Submit | frontend/src/components/MenuItemModal.tsx:52-114 | a missing field or ingredient gives the required-fields error; otherwise a NaN or non-positive price gives the price error; no request on either. A request is made exactly when both checks pass. Success clears the form; failure shows the post error |
| MenuItem.RequiredCheckFirst | frontend/src/components/MenuItemModal.tsx:53-62 | with an empty name and a bad price, the required-fields error is reported and nothing is sent |
| EmployeesPage.PlaceholdersJoin | frontend/src/pages/Employees.tsx:149 | placeholder counts add up across concatenated template pieces |
| EmployeesPage.TemplateCount | frontend/src/pages/Employees.tsx:149 | the version-4 template has exactly 31 placeholders, one per random nibble |
| EmployeesPage.FillShape | frontend/src/pages/Employees.tsx:149-153 | filling keeps the length; each `x` becomes a lower-case hex digit, each `y` one of 8/9/a/b, and every other character is unchanged |
| EmployeesPage.GenerateUuid | frontend/src/pages/Employees.tsx:147-153 | 31 nibbles give a 36-character string with '-' at 8, 13, 18 and 23, '4' at 14, one of 8/9/a/b at 19, and lower-case hex everywhere else |
| EmployeesPage.UuidShape | frontend/src/pages/Employees.tsx:149-153 | any template with the UUID layout fills to a string with the UUID shape |
| EmployeesPage.GenerateId | frontend/src/pages/Employees.tsx:155-158 | only the form's id changes, to a generated UUID |
| EmployeesPage.EditEmployee | frontend/src/pages/Employees.tsx:162-170 | the form holds the employee's id, name and manager flag, editing is on, and the employee is current |
| EmployeesPage.ResetForm | frontend/src/pages/Employees.tsx:182-190 | id and name are empty, the flag is false, editing is off and there is no current employee; the list and the error banner are kept |
| EmployeesPage.HandleInputChange | frontend/src/pages/Employees.tsx:173-179 | a checkbox stores its checked state, any other input its text; no other key changes |
| EmployeesPage.InputChangeLastWins | frontend/src/pages/Employees.tsx:173-179 | two changes of the same input leave only the second |
| EmployeesPage.UpdateBody | frontend/src/pages/Employees.tsx:88-91 | the update body carries exactly the form's name and manager flag |
| EmployeesPage.HandleSubmit | frontend/src/pages/Employees.tsx:43-200 | in editing mode it updates the current employee, or does nothing without one; otherwise it adds. A save that succeeds empties the form and leaves editing, and the list reload then either replaces the list and clears the banner or keeps the list and shows the load error. A save that fails keeps the form and the list and shows "Failed to add employee. Error: " or "Failed to update employee. Error: " with the reply text, the status line or the fetch error |
| EmployeesPage.FailureMessage | frontend/src/pages/Employees.tsx:54-95 | a failed reply's message is its text, or "HTTP error! Status: " and the status when the text is empty; a failed fetch keeps its own message |
| EmployeesPage.SaveError | frontend/src/pages/Employees.tsx:65-111 | the banner names the update in editing mode and the add otherwise, followed by the failure message |
| EmployeesPage.Reload | frontend/src/pages/Employees.tsx:19-40 | a loaded list replaces the shown one and clears the banner; a failed load keeps the list and shows "Failed to load employees. Error: " with the cause; the form is untouched |
| EmployeesPage.RetryAfterFailure | frontend/src/pages/Employees.tsx:43-115 | a failed save keeps the form, so retrying it ends exactly as a first attempt that succeeded |
| EmployeesPage.EditThenSubmit | frontend/src/pages/Employees.tsx:77-91 | saving right after Edit sends that employee's own name and flag under its id |
| ReportsPage.MapIntervalToTimeRange | frontend/src/pages/Reports.tsx:49-63 | thisWeek, thisMonth and thisYear map to weekly, monthly and yearly, each in both directions; everything else maps to daily; the result is always one of the four |
| ReportsPage.XReportParams | frontend/src/pages/Reports.tsx:69-75 | custom sends only start and end, each "<date> <time>"; every other interval sends only the mapped time range |
| ReportsPage.ParamsExclusive | frontend/src/pages/Reports.tsx:69-75 | exactly one way of naming the period is sent, and the two bounds travel together |
| ReportsPage.FetchXReport | frontend/src/pages/Reports.tsx:76-88 | a reply with data is shown; a missing `data` or a thrown request clears the X data; nothing else changes |
| ReportsPage.ZeroReport | frontend/src/pages/Reports.tsx:111-124 | the reset X record has zero totals, empty lists and the given time range |
| ReportsPage.ZeroReportMatchesEmptyDay | frontend/src/pages/Reports.tsx:111-124 | the zeroed record shows the same figures and hourly list the report endpoint computes for a day without orders |
| ReportsPage.GenerateZReport | frontend/src/pages/Reports.tsx:99-134 | data in the reply: Z data stored, flag set, X data zeroed with the mapped range, confirmation closed. No data: only the confirmation closes. Thrown: nothing changes |
| ReportsPage.HandleIntervalChange | frontend/src/pages/Reports.tsx:139-181 | the interval is recorded. Custom clears the X data and fetches nothing. The five named intervals fetch themselves and keep the X data: pastHour changes nothing else, today starts at today, thisWeek at the week start, thisMonth at the month start and thisYear at the year start, each ending today with every other field kept. Anything else only records the choice |
| ReportsPage.IntervalChangeIdempotent | frontend/src/pages/Reports.tsx:139-181 | choosing the same interval again on the same day leaves the page as it was and fetches the same interval |
| ReportsPage.ChangeNeverSendsDates | frontend/src/pages/Reports.tsx:139-181 | every fetch an interval change triggers names its period by time range, never by dates |
| Translation.StorageKey | frontend/src/utils/useTranslation.ts:6-8 | the key is "translation_", the language, "_" and then the text |
| Translation.StorageKeyInjective | frontend/src/utils/useTranslation.ts:6-8 | for one language, different texts never share a key |
| Translation.StorageKeysCollideAcrossLanguages | frontend/src/utils/useTranslation.ts:6-8 | across languages keys can collide, for example ("a", "b_c") and ("a_b", "c") |
| Translation.T | frontend/src/utils/useTranslation.ts:73-75 | a present, non-empty translation is returned, otherwise the text itself |
| Translation.Misses | frontend/src/utils/useTranslation.ts:28-36 | every requested text occurs in the input and misses the cache, and every missed text is requested |
| Translation.MissesInOrder | frontend/src/utils/useTranslation.ts:28-36 | the request keeps the input order (element k is the text at the k-th missed position) and asks for a missed text as often as it occurs |
| Translation.Hits | frontend/src/utils/useTranslation.ts:28-36 | the cached part holds exactly the texts with a truthy cached value, bound to that value |
| Translation.PartitionExact | frontend/src/utils/useTranslation.ts:28-36 | every text is a cache hit or requested, never both |
| Translation.Bind | frontend/src/utils/useTranslation.ts:56-61 | the response binds exactly the requested texts |
| Translation.BindAt | frontend/src/utils/useTranslation.ts:56-61 | the text at its last request position i is bound to the i-th translation, or to `undefined` past the end; an earlier duplicate is overwritten by the later one |
| Translation.StoreAll | frontend/src/utils/useTranslation.ts:57-61 | after storing, the keys are the old keys plus one key per requested text |
| Translation.StoreAllAt | frontend/src/utils/useTranslation.ts:56-61 | the storage key of the text at its last request position i holds the i-th translation, or "undefined" past the end |
| Translation.LastRequestExists | frontend/src/utils/useTranslation.ts:56-61 | every requested text has a last request position, so the two rows above cover every requested text |
| Translation.StoreAllElsewhere | frontend/src/utils/useTranslation.ts:56-61 | storage keys of texts not requested keep their values |
| Translation.TranslateTexts | frontend/src/utils/useTranslation.ts:10-71 | "EN" maps every text to itself without cache or request. Otherwise a request is made exactly when some text misses, and it carries the misses. With none, every hit is applied. A thrown or translation-less reply changes nothing, hits included. Translations of texts outside the batch are kept |
| Translation.TranslateSuccess | frontend/src/utils/useTranslation.ts:56-66 | after a successful reply, the requested text at its last request position i shows translation i and its key stores it |
| Translation.TranslateHit | frontend/src/utils/useTranslation.ts:29-66 | after a successful reply, a text of the batch found in the cache shows its cached value and its storage entry is unchanged |
| Translation.LowercaseEnRequests | frontend/src/utils/useTranslation.ts:12 | lower-case "en" is not special: an uncached text is requested |
| LanguageFlags.TableHoldsCountryCodes | frontend/src/utils/transaltionFlags.ts:1-39 | every flag value is a two-letter lower-case country code |
| LanguageFlags.IndiaSharedFlag | frontend/src/utils/transaltionFlags.ts:11-30 | hi, gu and pa all map to "in", so the table is not injective |
| LanguageFlags.TableSamples | frontend/src/utils/transaltionFlags.ts:3-37 | en→us, es→mx, zh→cn, cmn→tw and yue→hk |
| LanguageFlags.FindRow | frontend/src/components/LanguageTranslation.tsx:39-40 | the result is the first cookie entry starting with the prefix, or none when no entry does |
| LanguageFlags.LangFromCookie | frontend/src/components/LanguageTranslation.tsx:37-42 | the language is never empty. Without a googtrans entry it is "en". Any other result is a "/"-free field of that entry |
| LanguageFlags.CookieSelectsTarget | frontend/src/components/LanguageTranslation.tsx:37-42 | a cookie that is the single entry `googtrans=/<from>/<to>` (such as "googtrans=/en/es") selects `<to>`, or "en" when `<to>` is empty |
| LanguageFlags.SingleEntry | frontend/src/components/LanguageTranslation.tsx:37-42 | a cookie that is one googtrans entry selects its third "/"-field, or "en" when that is missing or empty |
| LanguageFlags.EntrySelectsTarget | frontend/src/components/LanguageTranslation.tsx:37-42 | whatever else the cookie holds, when its first googtrans entry is `googtrans=/<from>/<to>` with a non-empty `<to>`, the language is `<to>` |
| LanguageFlags.EntryFields | frontend/src/components/LanguageTranslation.tsx:41 | splitting `googtrans=/<from>/<to>` at "/" gives the prefix, `<from>` and `<to>` when neither holds a "/" |
| LanguageFlags.NoCookieIsEnglish | frontend/src/components/LanguageTranslation.tsx:37-42 | an empty cookie gives "en" |
| LanguageFlags.FlagCode | frontend/src/components/LanguageTranslation.tsx:58 | a mapped language gives its table entry and an unmapped one "us"; the result is always a country code |
| LanguageFlags.FlagUrl | frontend/src/components/LanguageTranslation.tsx:59 | the URL is the flagcdn w320 path with the code in place |
| LanguageFlags.DefaultsAgree | frontend/src/utils/transaltionFlags.ts:3 | the no-cookie default and any unmapped language show the same flag, "us" |
| Layout.ClassifyPath | frontend/src/components/Layout.tsx:14-15 | the page is the first of inventory, reports, employees, kitchen and customer whose keyword the path contains; no earlier keyword occurs |
| Layout.MenuIffNoKeyword | frontend/src/components/Layout.tsx:14-15 | the path is the menu page exactly when it contains none of the keywords |
| Layout.KeywordBoundsRank | frontend/src/components/Layout.tsx:14-15 | a keyword anywhere in the path selects its page or an earlier one |
| Layout.SubstringMatch | frontend/src/components/Layout.tsx:14-15 | a keyword occurring at any position counts; whole path segments are not required |
| Layout.KitchenViewIsKitchen | frontend/src/components/Layout.tsx:15 | "/kitchenview" is the kitchen page |
| Layout.KitchenWithoutEarlierLetters | frontend/src/components/Layout.tsx:14-15 | a path containing "kitchen" but no earlier keyword is the kitchen page |
| Layout.ReportsBeatsCustomer | frontend/src/components/Layout.tsx:14-15 | a path containing both "reports" and "customer", without "inventory", is the reports page |
| Layout.SideMenuFor | frontend/src/components/Layout.tsx:27 | the customer page shows the loyalty menu with a customer and nothing without one; every other page shows the navigation menu for itself |
| OrderRoute.Decrement | backend/routes/order_routes.py:49-55 | on success the ingredient set is unchanged |
| OrderRoute.DecrementCounts | backend/routes/order_routes.py:49-55 | on success each stock drops by exactly the number of occurrences of its id |
| OrderRoute.DecrementIff | backend/routes/order_routes.py:49-61 | the decrement succeeds exactly when every id is known and occurs at most as often as its stock |
| OrderRoute.SufficientStep | backend/routes/order_routes.py:49-55 | later occurrences see the earlier decrements: taking one unit keeps sufficiency in step with the remaining ids |
| OrderRoute.DecrementKeepsTouchedNonNegative | backend/routes/order_routes.py:49-57 | after a successful decrement every touched stock is ≥ 0 |
| OrderRoute.DecrementStock | backend/routes/order_routes.py:48-61 | the loop succeeds exactly when the stock suffices; then new = old − occurrences; on failure the stock is rolled back unchanged |
| OrderRoute.SubmitOrder | backend/routes/order_routes.py:14-63 | the order row, with the total rounded to cents, is committed before anything can fail. A missing or empty product list, or an unknown last product, is a 500 that adds no line. An accepted order whose last product is known gets exactly one line, for that product, even when the stock phase then fails. The reply is 200 exactly when the order row is accepted, the product list is non-empty with a known last product, and the ingredient list is present and the stock suffices for it; stock changes only then, by the decrement |
| OrderRoute.Cents | backend/database.py:39 | the nearest whole number of cents, within half a cent |
| OrderRoute.RoundCents | backend/database.py:39 | the stored total is a whole number of cents within half a cent of the client's total, and never negative for a non-negative total |
| OrderRoute.RoundCentsKeepsCents | backend/database.py:39 | a total already in whole cents is stored unchanged |
| OrderRoute.OnlyLastLineRecorded | backend/routes/order_routes.py:35-42 | an order for ["tea", "boba"] succeeds with a single line, for "boba", even though "tea" is not a known product |
| OrderRoute.Lines | backend/routes/order_routes.py:35-40 | one quantity-1 line per product, in order |
| OrderRoute.SubmitOrderIntended | backend/routes/order_routes.py:34-46 | with the add inside the loop, the reply is 200 exactly when the order row is accepted, every product is known, and the ingredient list is present with sufficient stock; then every product has its line and the stock decrement applies |
| OrderRoute.IntendedRecordsEveryLine | backend/routes/order_routes.py:34-46 | the intended endpoint keeps existing lines and records each product once per occurrence |
| OrderRoute.LinesCount | backend/routes/order_routes.py:35-40 | the lines for a product list contain each product as often as the list does |
| OrderRoute.SingleProductAgrees | backend/routes/order_routes.py:34-46 | for a one-product order the endpoint as written and as intended give the same reply and tables |
| ReportRoute.DayCount | backend/routes/report_routes.py:22-23 | counts only orders of that day, never more than there are |
| ReportRoute.DaySum | backend/routes/report_routes.py:25-29 | the day's sum is non-negative when all totals are |
| ReportRoute.HourSum | backend/routes/report_routes.py:38-45 | an hour's sum is non-negative when all totals are |
| ReportRoute.DayTotals | backend/routes/report_routes.py:22-31 | tax = subtotal × 0.0825 and total = subtotal × 1.0825; a day without orders has subtotal 0 |
| ReportRoute.NoOrdersNoSales | backend/routes/report_routes.py:29 | a day without orders sums to 0 |
| ReportRoute.Clock12 | backend/routes/report_routes.py:48 | the 12-hour clock value lies in 1..12 and agrees with the hour modulo 12 |
| ReportRoute.HourLabel | backend/routes/report_routes.py:48 | the label is 8 characters, two digits then ":00 AM" or ":00 PM"; AM exactly for hours before noon |
| ReportRoute.HourLabelDigits | backend/routes/report_routes.py:48 | the two leading characters are decimal digits spelling the 12-hour clock value, zero-padded |
| ReportRoute.HourLabelInjective | backend/routes/report_routes.py:48 | different hours of the day never share a label |
| ReportRoute.HourLabelExamples | backend/routes/report_routes.py:48 | hour 0 is "12:00 AM", hour 12 is "12:00 PM" and hour 13 is "01:00 PM" |
| ReportRoute.HourTotals | backend/routes/report_routes.py:34-45 | 24 totals, the g-th being hour g's sum |
| ReportRoute.PositiveHours | backend/routes/report_routes.py:34-50 | the hours from the starting hour on whose sum is positive, each below 24 |
| ReportRoute.HourlyFrom | backend/routes/report_routes.py:34-50 | from the starting hour on, row k is the label and sum of the k-th hour with a positive sum; there are at most as many rows as remaining hours, each with a positive total |
| ReportRoute.HourlySales | backend/routes/report_routes.py:33-50 | row k is the label and sum of the k-th hour of the day with a positive sum; at most 24 rows |
| ReportRoute.HourlyComplete | backend/routes/report_routes.py:33-50 | every hour with a positive sum has its row |
| ReportRoute.HourlyAscending | backend/routes/report_routes.py:33-50 | rows come in strictly ascending hour order, so no hour label repeats |
| ReportRoute.RowsCoverHours | backend/routes/report_routes.py:45-50 | with non-negative totals the skipped hours contribute nothing |
| ReportRoute.HoursFromCons | backend/routes/report_routes.py:34-43 | an order falls into exactly one half-open hour of its day |
| ReportRoute.HoursCoverDay | backend/routes/report_routes.py:22-43 | the 24 hours together sum to the day's subtotal |
| ReportRoute.HourlyRowsSumToSubtotal | backend/routes/report_routes.py:22-50 | with non-negative totals the emitted hourly totals add up to the subtotal |
| ReportRoute.EmployeePerformance | backend/routes/report_routes.py:75-94 | each row belongs to an employee of the table and carries that employee's order count (positive) and sales |
| ReportRoute.RowsAreAllEmployees | backend/routes/report_routes.py:75-94 | leaving out employees without orders loses no counts and no sales |
| ReportRoute.NoCountNoSum | backend/routes/report_routes.py:79-80 | an employee without orders has no sales |
| ReportRoute.EmployeeCount | backend/routes/report_routes.py:76-87 | an employee's order count never exceeds the day's order count |
| ReportRoute.EmployeeSum | backend/routes/report_routes.py:76-87 | with non-negative totals an employee's sales lie between 0 and the day's subtotal |
| ReportRoute.AllCons | backend/routes/report_routes.py:81-84 | an order counts for exactly the employees carrying its employee id |
| ReportRoute.UniqueMatch | backend/routes/report_routes.py:81-82 | under the primary key an employee id matches exactly one row |
| ReportRoute.NoMatch | backend/routes/report_routes.py:81-82 | an id absent from the table matches no row |
| ReportRoute.NoOrders | backend/routes/report_routes.py:75-94 | without orders every employee count and sum is zero |
| ReportRoute.AllAddUp | backend/routes/report_routes.py:75-94 | per-employee counts and sums add up to the day's count and subtotal when every order's employee exists |
| ReportRoute.EmployeeRowsAddUp | backend/routes/report_routes.py:75-94 | the per-employee rows' order counts sum to totalOrders and their sales to the subtotal |
| ChartsRoute.GetDateRange | backend/routes/charts_routes.py:9-25 | day starts at today's midnight. Week starts on the most recent Monday, less than 7 days back. Month starts on the 1st and year on January 1. Every start is a midnight and ends at now, with start ≤ end. Any other name is rejected |
| ChartsRoute.RangesNest | backend/routes/charts_routes.py:13-21 | the year starts no later than the month, the month no later than the day, and the week no later than the day |
| ChartsRoute.ChartData | backend/routes/charts_routes.py:28-90 | the lower-cased interval (default "daily") decides acceptance; rejection is a 400 with the ValueError message; an accepted empty result becomes the single "No Data" bar |
| ChartsRoute.DefaultIntervalRejected | backend/routes/charts_routes.py:30 | a request without an interval is rejected, because "daily" is not an accepted name |
| ChartsRoute.UpperCaseAccepted | backend/routes/charts_routes.py:30 | "DAY" is accepted because the name is lower-cased first |
| ChartsRoute.CaseInsensitive | backend/routes/charts_routes.py:30 | any spelling of the interval answers exactly as its lower-case form does |
| ChartsRoute.PlaceholderAmbiguous | backend/routes/charts_routes.py:47-53 | no rows and a single "No Data" row of 0 get the same answer |
| Uuids.ParseUuid | backend/routes/employee_routes.py:62 | an accepted id yields 32 lower-case hex digits |
| Uuids.ParseCanonical | backend/routes/employee_routes.py:62 | a canonical id parses to itself |
| EmployeeRoute.AddEmployee | backend/routes/employee_routes.py:42-85 | no body, no name or a blank name is a 400. With a name, a custom id that is not a UUID or is taken is a 400 whatever the flag. The reply is 201 exactly when the name is non-blank, the flag is absent or one the boolean column accepts, and the key is new: the canonical form of a truthy custom id, or else the generated id. Then exactly one row is inserted under that key with the given name and the flag, false by default. Every failure leaves the table unchanged |
| EmployeeRoute.ManagerFlag | backend/database.py:14 | a flag is stored exactly when it is a JSON boolean or the number 1 or 0; a boolean is stored as itself, 1 as true and 0 as false |
| EmployeeRoute.CustomManagerAdded | backend/routes/employee_routes.py:59-80 | a manager with a fresh custom id is stored under that id's canonical form, whichever accepted spelling the body uses |
| EmployeeRoute.NumericFlagStored | backend/routes/employee_routes.py:72-80 | an `is_manager` of 1 adds the same manager row as `true` |
| EmployeeRoute.CustomIdChecked | backend/routes/employee_routes.py:59-71 | a custom id that is not a UUID, or is taken, is a 400 that changes nothing, whatever else the body holds |
| EmployeeRoute.BadFlagWithBadIdIs400 | backend/routes/employee_routes.py:55-71 | a malformed custom id is reported with 400 even when the flag is not a boolean |
| EmployeeRoute.GeneratedIdUsed | backend/routes/employee_routes.py:72-80 | without a custom id the generated id is used and is_manager defaults to false |
| EmployeeRoute.UpdateEmployee | backend/routes/employee_routes.py:92-124 | no body is a 400 and an unknown id a 404. A 200 happens exactly for a non-empty body, a known id and storable values (a present name is a string, a present flag a boolean or the number 1 or 0); then the row keeps its id, a present name takes the body's value, a present flag the value the column stores for it, an absent one keeps the old value, and every other employee is unchanged |
| EmployeeRoute.UpdateKeepsAbsentKeys | backend/routes/employee_routes.py:111-112 | for any storable body, each field the body names takes the body's value and each other field keeps its old value |
| EmployeeRoute.UpdatedRow | backend/routes/employee_routes.py:101-117 | a storable update of a known canonical id answers 200 and replaces exactly the named fields of that one row |
| EmployeeRoute.UpdateTwiceSame | backend/routes/employee_routes.py:92-124 | applying the same update twice leaves the table as applying it once |
| EmployeeRoute.UpdateAcceptsBlankName | backend/routes/employee_routes.py:111 | unlike add, update accepts a blank name |
| EmployeeRoute.DeleteEmployee | backend/routes/employee_routes.py:131-151 | an unknown id is a 404; success happens exactly for a known id and removes exactly that row |
| EmployeeRoute.AddThenDelete | backend/routes/employee_routes.py:72-146 | adding with a generated id and then deleting it restores the table |
| ReviewRoute.AddReview | backend/routes/review_routes.py:10-58 | a missing body is a 500 and a missing or empty field a 400. A product id that is not a UUID is a 500, and a taken review id fails. Success happens exactly when all fields are present, the product id names a stored product in any accepted spelling, the customer exists and the review id is new; it stores one review under the new id referring to the product's canonical id. Failures change nothing |
| ReviewRoute.ProductCheckedFirst | backend/routes/review_routes.py:25-32 | an unknown product is reported before an unknown customer |
| ReviewRoute.AnySpellingFindsProduct | backend/routes/review_routes.py:25-44 | any spelling of a stored product's id that the UUID parser accepts finds the product, and the review records its canonical id |
| ReviewRoute.AddResponseAsWritten | backend/routes/review_routes.py:46-54 | the response's id, customer and text echo the row, but its product_id field is the review id, which matches the product only when the two ids coincide |
| ReviewRoute.AsWrittenMislabelsProduct | backend/routes/review_routes.py:50 | a review "r1" of product "p1" is answered with product_id "r1" |
| ReviewRoute.AddResponse | backend/routes/review_routes.py:46-54 | the corrected response echoes every field of the stored row |
| ReviewRoute.ResponseDescribesStoredReview | backend/routes/review_routes.py:35-54 | the corrected response describes exactly the review that was stored |
| ReviewRoute.DeleteReview | backend/routes/review_routes.py:60-91 | missing fields or an unknown review give 400, and a non-author 403 that removes nothing. Success happens exactly for the author of an existing review and removes only that review |
| ReviewRoute.AddThenDeleteRestores | backend/routes/review_routes.py:35-83 | a review added under a fresh id and then deleted by its author leaves the store as it was |
| Seqs.Filter | frontend/src/components/CustomizationModal.tsx:43 | `Array.filter` keeps only matching elements and drops none of them |
| Seqs.FilterCount | frontend/src/components/CustomizationModal.tsx:43 | a kept value occurs in the result as often as in the input, a dropped value not at all |
| Seqs.Kept | frontend/src/components/CustomizationModal.tsx:43 | every kept position lies in the sequence from the starting position on and holds a matching element |
| Seqs.KeptIncreasing | frontend/src/components/CustomizationModal.tsx:43 | the kept positions are strictly increasing, so they list the matches in their original order |
| Seqs.KeptComplete | frontend/src/components/CustomizationModal.tsx:43 | every position from the starting position on whose element matches is among the kept positions |
| Seqs.FilterInOrder | frontend/src/components/CustomizationModal.tsx:43 | the result is the subsequence at the kept positions: element k is the element at the k-th kept position |
| Strings.ContainsIff | frontend/src/components/Layout.tsx:14 | the `includes` scan agrees with the existence of an occurrence |
| Strings.Find | frontend/src/components/LanguageTranslation.tsx:38-39 | the leftmost occurrence of the separator, or none |
| Strings.JoinSplit | frontend/src/components/LanguageTranslation.tsx:38-41 | joining the pieces of a split with the same separator gives back the string |
| Strings.SplitPiecesFree | frontend/src/components/LanguageTranslation.tsx:41 | no piece of a split contains the separator |
| Strings.StripEmptyIff | backend/routes/employee_routes.py:50 | `strip()` is empty exactly when every character is whitespace |

## Left out

- Network, database and browser I/O are out. Axios/fetch calls, Flask wiring, SQLAlchemy sessions, `localStorage` and cookies are replaced by reply values, maps and strings passed in.
- Floating-point arithmetic and display rounding (`toFixed(2)`, `formatCurrency`) are out; money is exact. The cent rounding of stored order totals is modelled.
- Randomness and clocks (`Math.random`, `uuid4`, `datetime.now`, `new Date()`) are parameters.
- Sign-in, the translation proxy, speech synthesis, weather and the chart/report presentation components are not part of this model.
- `react` state batching is not modelled; each handler is one atomic step.
- Customization.ToggleTopping: it compares toppings by value, whereas the page compares object references. The catalog holds one object per ingredient, so the two agree.
- Customization.DefaultToppings: the catalog endpoint never emits the optional `ingredients` field, so in practice every product opens with an empty selection. The model keeps the field optional and covers both cases.
- Kiosk.SubmitOrder: the `loading` flag and the success alert are not modelled.
- Customization.SubmitReview: the kiosk renders the dialog without a `customer` (frontend/src/pages/Kiosk.tsx:125-129), so from the kiosk the guard at frontend/src/components/CustomizationModal.tsx:86 always returns early and the posting paths the model covers are reachable only from a caller that passes a customer.
- Customization.DeleteReview: likewise the guard at frontend/src/components/CustomizationModal.tsx:110 always returns early from the kiosk, so its 200 path is reachable only with a customer.
- Kiosk.SubtotalAppend: the real sum is exact, so the order independence it gives would not hold for IEEE doubles.
- Strings.Lower: it lower-cases ASCII letters only.
- Uuids.ParseUuid: it accepts exactly 32 hex digits. Python's `int(..., 16)` also tolerates surrounding whitespace, a sign, a `0x` prefix and underscores, so a few more strings pass there. The product lookup in `add_review` goes through the database's UUID type, whose accepted spellings differ in the same corner cases. Ids are held as their 32 hex digits; the hyphenated text `str()` gives is not modelled. `update_employee` and `delete_employee` hand the raw URL id to the database's uuid input (backend/routes/employee_routes.py:101,135), which rejects a `urn:uuid:` prefix and stray hyphens that `ParseUuid` accepts; the model parses the URL id the same way for all three endpoints.
- EmployeeRoute.AddEmployee: an `is_manager` other than a boolean or the number 1 or 0 is refused at the commit (500), as the non-null boolean column refuses it; a string such as "true" is refused likewise. A JSON body that is not an object is modelled as a missing body (400); in the source a list or string body that does not contain "name" is a 400 too, while any other non-object body raises (500).
- EmployeeRoute.UpdateEmployee: a non-string name is a 500 in the model. The `name` column is text, so the database most likely stores a number's text form through its assignment cast and answers 200; the model does not promise that case. A JSON body that is not an object is a 400 in the model, whereas in the source `data.get` raises inside the handler, giving 404 for an unknown id and 500 otherwise.
- OrderRoute.SubmitOrder: `orderAccepted` stands for every database constraint on the order row. The last product's foreign key is the only check modelled for the product phase.
- OrderRoute.Decrement: ingredient ids are compared as raw strings, whereas the source looks each one up through the uuid column (backend/routes/order_routes.py:50), where two spellings of one UUID would name the same ingredient.
- ReviewRoute.AddReview: customer ids are compared as strings, because the customer table is not part of this model.
- ReviewRoute.DeleteReview: it compares ids as strings. The review and customer tables are not part of this model, so whether the stored id is a UUID object (which would never equal the string) cannot be decided.
- ReportRoute: product sales (X report) and ingredient usage (Z report) are grouped SQL joins that are not modelled. The report date and generation time are not modelled either.
- ReportRoute.EmployeePerformance: rows come out in the order of the employee table, where SQL leaves the group order unspecified.
- ChartsRoute.ChartData: the aggregate query itself is a parameter (`rows`), so its grouping and ordering are not modelled.
- LanguageFlags.FlagCode: inherited object properties such as `constructor` are not modelled.
- Translation.T: the translations object likewise inherits `constructor` and the other `Object.prototype` keys, which the model's map does not have.
- EmployeesPage.HandleSubmit: the `loading` flag, and a thrown value that is not an `Error`, are not modelled; a 2xx reply whose body is not JSON is treated as accepted.

## Findings

| source | as written | input that shows it | evidently intended | confidence | as-written member | corrected member |
|---|---|---|---|---|---|---|
| backend/routes/order_routes.py:35-42 | `db.session.add(product_order)` sits after the loop, so only the last line is added; earlier product ids are never checked | products ["tea", "boba"] where "boba" exists and "tea" does not: 200 with one line, for "boba" | add every line inside the loop, so every product is recorded and checked | high, not executed | OrderRoute.OnlyLastLineRecorded | OrderRoute.SubmitOrderIntended |
| backend/routes/review_routes.py:50 | the response's `product_id` is `str(new_review.id)` | a review "r1" of product "p1" is answered with product_id "r1" | `str(new_review.product_id)` | high, not executed | ReviewRoute.AsWrittenMislabelsProduct | ReviewRoute.AddResponse |
| frontend/src/components/CustomizationModal.tsx:48-50 | the review list is initialised and reset from `product.reviews`, a field the catalog endpoint never sends | any product from the catalog: `productReviews` is `undefined`, so `.map` at line 161 throws while rendering, and the spread at 99 and the filter at 120 throw too | fall back to an empty list | medium, not executed | Customization.CatalogProductBreaksDialog | Customization.SelectProductIntended |
