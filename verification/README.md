# POS ledger and checkout, modelled in Dafny

This project models the core of a browser-only point-of-sale application for a
small grocery shop. It covers:

- the ledger: products, users, sales and customers kept in a browser key-value
  store;
- the checkout, which turns a cart into a sale, charges a credit customer and
  takes the sold units out of stock;
- customer credit accounts;
- the sales report with its date, payment and salesperson filters and its CSV
  export;
- the inventory screen;
- the demo-data seeder;
- signing in, restoring the saved session and signing out;
- the route guard in front of every page.

Everything is immutable data and pure functions. The exception is two methods
with loops: `Checkout.DeductStock`, the stock-deduction loop of the checkout,
and `Inventory.UniqueCategories`.

Modules, one concept each:

| module | file | what it holds |
|---|---|---|
| `Options`, `Seqs`, `Text`, `Money` | `common.dfy` | Option values, sequence helpers (filter, update, sums, sublists), ASCII lower-casing and substring search, rounding to cents |
| `Records` | `records.dfy` | the stored records: product, user, customer, sale |
| `Ledger` | `ledger.dfy` | the store accessors of `db.js` |
| `Checkout` | `checkout.dfy` | the cart and `completeSale` of `POS.jsx` |
| `CustomerCredit` | `credit.dfy` | balance changes, utilisation and status, the customer form and search |
| `SalesReport` | `reports.dfy` | sales list, date windows, filters, totals, CSV export |
| `Inventory` | `inventory.dfy` | categories, the inventory filters, the low-stock badge, the product form |
| `Seed` | `seed.dfy` | `seedDatabase`, `clearDatabase`, `randomStock` |
| `Auth` | `auth.dfy` | login, session restore, logout, `ProtectedRoute` |

Conventions:

- Money is an exact `real`.
- `Money.Round2` is `parseFloat(x.toFixed(2))`, rounding half away from zero.
- Instants are milliseconds since the epoch.
- The local calendar is UTC shifted by a fixed offset.
- Identifiers the code draws from `uuidv4()` are parameters, and so are the
  `Math.random()` draws of the seeder.
- A collection never written to the store is `None`.
- Optional record fields, such as a customer's `creditLimit` or
  `currentBalance`, are `Option`s.
- A limit or balance the code reads as `undefined` is `None`.
  `Records.ExceedsLimit` gives the JavaScript meaning of `newBalance > undefined`
  (false).

### Behaviour worth noting

- `addToCart` always appends a new line with quantity 1. It never merges with a
  line for the same product, even though its own comment says it does.
- The tax rate is a fixed 10% (`POS.jsx:31`). The sales page's receipt labels
  it "Tax (8%)" (`SalesHistory.jsx:431`).
- The sale record is written before the credit and stock checks (only an
  empty cart is refused first), and nothing is rolled back:
  - a credit sale with no customer selected still leaves its sale record;
  - so does a sale over the credit limit;
  - so does a sale that runs short of stock.
  `Checkout.CompleteSale` states exactly what each failure leaves behind.
- Nothing checks the amount tendered. `calculateChange` is the tendered amount
  minus the untaxed sum, with no rounding.
- If the selected credit customer has been deleted, the checkout charges no one
  and still succeeds.
- The credit stage reads the customer again from the store. It does not use the
  copy held on screen.
- Restoring a session resumes the saved copy of the session. It does not re-read
  the account.
- The sales page loads the user list only for the owner. A non-owner's CSV
  export therefore names every salesperson "Unknown".
- The inventory's low-stock switch reads the store again. It keeps the listed
  products whose id is among the stored low-stock products.
- The sales page's "this month" and "custom" date filters are modelled as
  the page computes them (`SalesReport.RangeWindow`), bugs included. The
  windows they evidently mean are `SalesReport.RangeWindowIntended`, and
  `SalesReport.RangeWindowsAgree` says where the two differ (see Findings).

## Model

| member | source | states |
|---|---|---|
| Money.Round2 | pos-project/src/data/db.js:163-165 | the rounded amount is a whole number of cents within half a cent of the input |
| Ledger.InitDB | pos-project/src/data/db.js:13-32 | every collection never written becomes empty and written ones are kept; the default owner `admin`/`admin123` is created exactly when there is no user |
| Ledger.InitDBIdempotent | pos-project/src/data/db.js:13-32 | initialising an initialised store changes nothing, whatever fresh id is offered |
| Ledger.SaveProduct | pos-project/src/data/db.js:41-50 | exactly one product is appended after the unchanged old ones; a provided id is kept, otherwise the fresh id is used; no other field changes |
| Ledger.UpdateProduct | pos-project/src/data/db.js:52-59 | same length and order; each product with the id gets the given fields merged in, every other product is untouched |
| Ledger.UpdateProductIdempotent | pos-project/src/data/db.js:52-59 | applying the same update twice equals applying it once, and no id changes |
| Ledger.DeleteProduct | pos-project/src/data/db.js:61-65 | a product remains exactly when it was there and has another id, with every copy kept; the order of the rest is kept |
| Ledger.DeleteProductAbsent | pos-project/src/data/db.js:61-65 | deleting an id nobody has leaves the list unchanged |
| Ledger.DeleteUndoesSave | pos-project/src/data/db.js:41-65 | saving a product under an unused id and then deleting that id gives back the original list |
| Ledger.UpdateProductStock | pos-project/src/data/db.js:67-69 | only the stock of the products with the id changes, to the new value |
| Ledger.SearchProducts | pos-project/src/data/db.js:71-79 | a product is found exactly when the query occurs in its name or description (ignoring case) or in its barcode, every copy kept; the order is kept |
| Ledger.SearchEmptyQuery | pos-project/src/data/db.js:71-79 | the empty query finds every product |
| Ledger.GetLowStockProducts | pos-project/src/data/db.js:81-84 | a product is listed, every copy of it, exactly when its stock is at or below the threshold; the order is kept |
| Ledger.CreateUser | pos-project/src/data/db.js:89-99 | one account is appended; a provided id is kept, otherwise the fresh one is used; a missing full name becomes empty |
| Ledger.GetSales | pos-project/src/data/db.js:102-105 | a sales table never written reads as empty, and a written one as stored |
| Ledger.CreateSale | pos-project/src/data/db.js:107-116 | exactly one sale is appended after the unchanged earlier ones, under its own or a fresh id |
| Ledger.GetSalesByUserId | pos-project/src/data/db.js:118-121 | a sale is listed, every copy of it, exactly when it was made by that user; the order is kept |
| Ledger.GetSalesByDateRange | pos-project/src/data/db.js:123-129 | a sale is listed, every copy of it, exactly when its time lies within both bounds, inclusive; the order is kept |
| Ledger.GetCustomers | pos-project/src/data/db.js:132-135 | a customer table never written reads as empty |
| Ledger.CreateCustomer | pos-project/src/data/db.js:137-147 | one customer is appended under its own or a fresh id; a missing balance becomes 0 |
| Ledger.UpdateCustomer | pos-project/src/data/db.js:149-155 | same length and order; the given fields are merged into each customer with the id, others untouched |
| Ledger.UpdateCustomerIdempotent | pos-project/src/data/db.js:149-155 | applying the same customer update twice equals applying it once, and no id changes |
| Ledger.DeleteCustomer | pos-project/src/data/db.js:157-161 | a customer remains, every copy of them, exactly when they were there and have another id |
| Ledger.DeleteUndoesCreateCustomer | pos-project/src/data/db.js:137-161 | creating a customer under an unused id and deleting it gives back the original list |
| Ledger.UpdateCustomerBalance | pos-project/src/data/db.js:163-165 | only the balance of the customers with the id changes, to the new balance rounded to cents |
| Ledger.StoredBalanceInCents | pos-project/src/data/db.js:163-165 | a balance written this way is always a whole number of cents |
| Ledger.GetCustomerById | pos-project/src/data/db.js:167-170 | found exactly when some customer has the id; the result is the first such customer |
| Ledger.TodayWithinTotal | pos-project/src/data/db.js:173-193 | with non-negative sale totals, today's takings are between zero and the all-time takings |
| Checkout.AddToCart | pos-project/src/pages/POS.jsx:13-16 | the cart grows by one line of quantity 1 for the product, the earlier lines unchanged (no merging) |
| Checkout.CalculateChange | pos-project/src/pages/POS.jsx:18-21 | change plus the untaxed cart sum equals the amount tendered |
| Checkout.ChangeAfterAdd | pos-project/src/pages/POS.jsx:13-21 | adding a product lowers the change by exactly its price |
| Checkout.TotalsNonNegative | pos-project/src/pages/POS.jsx:29-32 | with non-negative prices, 0 <= subtotal <= total, and total is 1.1 times the subtotal |
| Checkout.BuildSale | pos-project/src/pages/POS.jsx:34-50 | the sale records every cart line in order with price and quantity, cent-rounded subtotal, 10% tax and total, and a customer id exactly for a credit sale with a customer selected |
| Checkout.SaleAmountsStable | pos-project/src/pages/POS.jsx:44-46 | the stored amounts are already rounded, so rounding them again on reload changes nothing |
| Checkout.ChargeCredit | pos-project/src/pages/POS.jsx:57-76 | no customer selected is its own failure; a deleted customer is charged nothing; over the limit exactly when balance plus total exceeds the stored limit, reporting balance and limit; otherwise only that customer's balance grows by the total, rounded, and stays within a cent-valued limit |
| Checkout.ChargeUpToLimitAllowed | pos-project/src/pages/POS.jsx:67-72 | a sale that brings the balance exactly to the limit is allowed |
| Checkout.FindProduct | pos-project/src/pages/POS.jsx:80-81 | found exactly when some product has the id, and the result is the first product with that id |
| Checkout.ApplyLinesOnlyStock | pos-project/src/pages/POS.jsx:78-92 | the stock loop keeps length, order and every field except stock |
| Checkout.ApplyLinesKeepsStockNonNegative | pos-project/src/pages/POS.jsx:83-90 | the loop never writes a negative stock over non-negative ones |
| Checkout.CumulativeDecrement | pos-project/src/pages/POS.jsx:78-92 | with unique ids and every line fitting, each product loses exactly the total quantity of its cart lines, even when a product appears on several lines |
| Checkout.StockSufficesExactly | pos-project/src/pages/POS.jsx:78-92 | with unique ids and no negative stock, every line passes its check exactly when no product is asked, over the whole cart, for more units than it has |
| Checkout.ShortLineBreaksAll | pos-project/src/pages/POS.jsx:83-88 | one line that does not fit makes the whole cart not fit |
| Checkout.DeductStock | pos-project/src/pages/POS.jsx:78-92 | it completes exactly when every line fits in turn; otherwise it stops at the first short line with the stock written by the earlier lines, naming the product and its available stock |
| Checkout.CompleteSale | pos-project/src/pages/POS.jsx:23-108 | an empty cart writes nothing; otherwise the sale is appended first; a missing customer or an over-limit charge then fails with products and customers untouched; the stock stage succeeds exactly when every line fits; a short line fails having kept the sale, the charge and the earlier deductions; the screen resets only on success |
| Checkout.PartialFailureExample | pos-project/src/pages/POS.jsx:78-92 | a cart of a stocked and an out-of-stock product deducts the first and then fails on the second |
| CustomerCredit.HandleCreditUpdate | pos-project/src/pages/Customers.jsx:149-187 | an empty or invalid amount is refused; the update goes ahead exactly when a negative result is confirmed (if it arises) and an over-limit result is confirmed (if it arises); it stores balance plus or minus amount for that customer only |
| CustomerCredit.SubtractUndoesAdd | pos-project/src/pages/Customers.jsx:159-177 | adding and then subtracting the same cent amount gives back the stored balance |
| CustomerCredit.CreditUtilization | pos-project/src/pages/Customers.jsx:189-192 | utilisation is 0 without a limit; otherwise it is balance as a percentage of the limit |
| CustomerCredit.UtilizationWithinLimit | pos-project/src/pages/Customers.jsx:189-192 | with a positive limit, utilisation is at most 100 exactly when the balance is within the limit |
| CustomerCredit.GetCreditStatus | pos-project/src/pages/Customers.jsx:194-198 | critical exactly from 90, warning exactly from 70 below 90, good exactly below 70 |
| CustomerCredit.StatusMonotone | pos-project/src/pages/Customers.jsx:194-198 | more utilisation never gives a milder status |
| CustomerCredit.SubmitCustomer | pos-project/src/pages/Customers.jsx:76-103 | an edit overwrites every form field of the edited customer only; a new customer is appended under a fresh id; unparsable numbers are stored as 0 |
| CustomerCredit.SubmitCustomerEditIdempotent | pos-project/src/pages/Customers.jsx:86-88 | submitting the same edit twice equals submitting it once |
| CustomerCredit.SubmitNewCustomerThenDelete | pos-project/src/pages/Customers.jsx:89-92 | adding a customer under an unused id and deleting that id restores the list |
| CustomerCredit.FilterCustomers | pos-project/src/pages/Customers.jsx:40-53 | an empty term shows everyone; otherwise a customer is shown, every copy, exactly when the term occurs in the name or email ignoring case, or in the phone; the order is kept |
| CustomerCredit.FilterCustomersIdempotent | pos-project/src/pages/Customers.jsx:40-53 | searching the result again with the same term changes nothing |
| CustomerCredit.FoundByOwnName | pos-project/src/pages/Customers.jsx:40-53 | every customer is found by searching for their own name |
| CustomerCredit.ActiveCreditAccounts | pos-project/src/pages/Customers.jsx:257 | the count is zero exactly when no customer has a positive limit |
| CustomerCredit.ActiveCreditAccountsStep | pos-project/src/pages/Customers.jsx:257 | the empty list counts zero, and one more customer adds one exactly when they have a positive limit |
| CustomerCredit.TotalBalanceAfterCreate | pos-project/src/pages/Customers.jsx:269 | creating a customer adds exactly its balance (0 when missing) to the total owed |
| SalesReport.LocalDaysWindow | pos-project/src/pages/SalesHistory.jsx:90-95 | an instant lies between the local midnight of one day and the end of another exactly when its local day is in that range |
| SalesReport.TodayWindow | pos-project/src/pages/SalesHistory.jsx:67-70 | a sale passes exactly when it falls on the current local day |
| SalesReport.WeekWindow | pos-project/src/pages/SalesHistory.jsx:71-74 | a sale passes exactly when it is at most seven days before now |
| SalesReport.MonthMissesLastDay | pos-project/src/pages/SalesHistory.jsx:75-77 | as written, a sale at noon on the month's last day is outside the "this month" window |
| SalesReport.MonthWindowAsWritten | pos-project/src/pages/SalesHistory.jsx:75-77 | as written: an instant passes exactly when its local day is in the month and it is before the last day, or is the midnight that starts it |
| SalesReport.MonthWindow | pos-project/src/pages/SalesHistory.jsx:75-77 | corrected: a sale passes exactly when its local day is in the current month |
| SalesReport.CustomRangeMissesEndDay | pos-project/src/pages/SalesHistory.jsx:79-84 | as written, five hours west of UTC a sale at noon on the chosen end day is outside the custom range |
| SalesReport.CustomRangeMissesStartDay | pos-project/src/pages/SalesHistory.jsx:79-84 | as written, two hours east of UTC a sale at 01:00 local time on the chosen start day is outside the custom range |
| SalesReport.CustomWindowAsWritten | pos-project/src/pages/SalesHistory.jsx:79-84 | as written: an instant passes exactly when its UTC day is at least the start day and its local day is at most the local day of the end date's UTC midnight |
| SalesReport.CustomWindow | pos-project/src/pages/SalesHistory.jsx:79-84 | corrected: a sale passes exactly when its local day lies between the chosen start and end days |
| SalesReport.RangeWindow | pos-project/src/pages/SalesHistory.jsx:62-96 | the window the page filters by, month and custom as the page computes them: no date filtering exactly for "all dates" or a custom range missing either end |
| SalesReport.RangeWindowIntended | pos-project/src/pages/SalesHistory.jsx:62-96 | corrected: month and custom windows cover exactly the chosen whole local days |
| SalesReport.RangeWindowsAgree | pos-project/src/pages/SalesHistory.jsx:62-96 | the page's windows equal the corrected ones except that "this month" loses the instants of its last day after midnight, and "custom" agrees when the offset is zero |
| SalesReport.VisibleSales | pos-project/src/pages/SalesHistory.jsx:38-42 | a sale is visible exactly when it is stored and the viewer is the owner or its cashier, and the selection keeps a chronological table chronological |
| SalesReport.LoadSales | pos-project/src/pages/SalesHistory.jsx:34-49 | the owner sees every sale and anyone else only their own (the store's per-user query), in reverse stored order, so a chronological table is shown newest first |
| SalesReport.CreateSaleKeepsChronological | pos-project/src/data/db.js:107-116 | appending a sale no older than the others keeps the table chronological |
| SalesReport.ApplyFilters | pos-project/src/pages/SalesHistory.jsx:58-109 | a sale is shown, every copy, exactly when it passes the page's date window, the payment method and (for the owner) the salesperson filter; the order and newest-first are kept |
| SalesReport.NoFiltersShowsAll | pos-project/src/pages/SalesHistory.jsx:58-109 | with no filter chosen every loaded sale is shown |
| SalesReport.SalespersonFilterOwnerOnly | pos-project/src/pages/SalesHistory.jsx:103-106 | for anyone but the owner the salesperson choice has no effect |
| SalesReport.DateFilterIsRangeQuery | pos-project/src/pages/SalesHistory.jsx:90-95 | with only a date range chosen, the page's filter equals the store's date-range query over that window |
| SalesReport.FilteredRevenueAtMost | pos-project/src/pages/SalesHistory.jsx:144 | with non-negative totals, filtered revenue lies between zero and the revenue of all shown sales |
| SalesReport.ItemCount | pos-project/src/pages/SalesHistory.jsx:350 | the units-sold count of a sale is never negative |
| SalesReport.ItemCountOfCheckout | pos-project/src/pages/SalesHistory.jsx:350 | the units-sold count of a checked-out sale is the sum of its cart quantities |
| SalesReport.SalespersonName | pos-project/src/pages/SalesHistory.jsx:111-114 | the first account with the id gives its full name, or its user name when that is empty; no account gives "Unknown" |
| SalesReport.ExportCsv | pos-project/src/pages/SalesHistory.jsx:116-137 | the header and then one row per sale in order, with the sale's local day, the last 8 characters of its id, the salesperson name (the owner only; anyone else sees "Unknown"), the payment method in capitals, and the sale's subtotal, tax and total rounded to cents |
| SalesReport.CsvRowDescribes | pos-project/src/pages/SalesHistory.jsx:119-127 | the row built for one sale carries that sale's local day, the last 8 characters of its id, the salesperson name for the owner or "Unknown" otherwise, its payment method in capitals and its amounts rounded to cents |
| SalesReport.ExportedAmountsExact | pos-project/src/pages/SalesHistory.jsx:124-126 | amounts already in cents are exported unchanged |
| Inventory.UniqueCategories | pos-project/src/pages/Inventory.jsx:52 | every non-empty category once, no duplicates, in order of first appearance |
| Inventory.ApplyInventoryFilters | pos-project/src/pages/Inventory.jsx:62-88 | a product is shown, every copy, exactly when it matches the search, the chosen category and (if switched on) the stored low-stock list; the order is kept |
| Inventory.LowStockSwitchExact | pos-project/src/pages/Inventory.jsx:80-85 | over the stored list with unique ids, the low-stock switch keeps exactly the products at or below 10 units |
| Inventory.NoInventoryFiltersShowsAll | pos-project/src/pages/Inventory.jsx:62-88 | with no search, all categories and the switch off, every product is shown |
| Inventory.LowStockCount | pos-project/src/pages/Inventory.jsx:167 | the badge equals the size of the store's low-stock list at threshold 10, and is zero exactly when every product has more than 10 units |
| Inventory.SubmitProduct | pos-project/src/pages/Inventory.jsx:98-126 | an edit overwrites every form field of the edited product and keeps its id; otherwise the product is appended under a fresh id; an empty cost becomes 0 |
| Inventory.SubmitEditIdempotent | pos-project/src/pages/Inventory.jsx:109-111 | submitting the same edit twice equals submitting it once |
| Inventory.SubmitNewThenDelete | pos-project/src/pages/Inventory.jsx:112-115 | adding a product under an unused id and deleting it restores the list |
| Seed.RandomStock | pos-project/src/data/seedData.js:9 | for any draw in [0, 1), the stock lies within min..max inclusive |
| Seed.SeedDatabase | pos-project/src/data/seedData.js:11-154 | it seeds exactly when there is at most one user and no product or customer; otherwise nothing changes; seeding appends the three accounts, writes the catalogue products and leaves sales alone |
| Seed.SeededCustomersIdentified | pos-project/src/data/seedData.js:97-142 | seeding writes the five demo customers in order, each under its own fresh id |
| Seed.SeedTwiceIsNoop | pos-project/src/data/seedData.js:19-20 | seeding an already seeded store changes nothing and reports no seeding |
| Seed.SeededStockInRange | pos-project/src/data/seedData.js:55-90 | every seeded product's stock lies within its catalogue range |
| Seed.SeededCustomersWithinLimit | pos-project/src/data/seedData.js:97-138 | every seeded customer has a positive limit and a balance between 0 and that limit |
| Seed.ClearDatabase | pos-project/src/data/seedData.js:157-163 | products, customers and sales become empty; the accounts are kept |
| Seed.ClearThenSeed | pos-project/src/data/seedData.js:157-163 | after clearing, seeding runs exactly when there was at most one account |
| Auth.SessionOf | pos-project/src/contexts/AuthContext.jsx:51 | the session copy has no password and otherwise equals the account |
| Auth.Login | pos-project/src/contexts/AuthContext.jsx:45-61 | login succeeds exactly when some account matches both user name and password; the session is the first match without its password; a failure says "Invalid credentials" |
| Auth.ApplyLogin | pos-project/src/contexts/AuthContext.jsx:50-56 | success signs in and saves the session; failure changes nothing |
| Auth.CreatedAccountSignsIn | pos-project/src/data/db.js:89-99 | an account just created signs in with its password, and gets its own session when no older account has the same credentials |
| Auth.RestoreSession | pos-project/src/contexts/AuthContext.jsx:20-40 | a saved session is resumed exactly when an account with its id still exists; otherwise or with nothing saved, signed out |
| Auth.Logout | pos-project/src/contexts/AuthContext.jsx:63-71 | both the session and its saved copy are cleared |
| Auth.LoginSurvivesReload | pos-project/src/contexts/AuthContext.jsx:20-54 | reloading right after a successful login resumes the same session |
| Auth.RemovedAccountSignsOut | pos-project/src/contexts/AuthContext.jsx:26-31 | a saved session whose account was deleted ends at the next start |
| Auth.Guard | pos-project/src/components/ProtectedRoute.jsx:5-17 | nobody signed in goes to login; allowed exactly when signed in and no role is required or the role matches; otherwise unauthorized naming the role |
| Auth.PageAccess | pos-project/src/App.jsx:50-76 | a signed-in user reaches a page exactly when it is not the inventory or the user is the owner |
| Auth.LogoutLocksEveryPage | pos-project/src/components/ProtectedRoute.jsx:8-10 | after logout every page redirects to login |
| Auth.FreshInstallOwnerSignsIn | pos-project/src/data/seedData.js:23-52 | on a fresh, initialised and seeded store both `admin` and the seeded owner can sign in, and the owner reaches the inventory |

## Left out

- Storage and I/O. The store (`localforage`), the browser's `localStorage`, `console` output, alerts and `window.location` are not modelled. Each collection is a value, and failures of the store itself are not modelled.
- Generated values. `uuidv4()` identifiers, `Math.random()` draws and `new Date()` are parameters. The time zone is a fixed offset with no daylight-saving changes, so the week window near a daylight-saving switch is not modelled.
- The dashboard's "is today" test depends on the clock and locale, so `Ledger.TodayWithinTotal` takes it as a predicate.
- Floating-point arithmetic. Amounts are exact reals, `toFixed(2)` is rounding half away from zero, and binary floating-point representation error is not modelled.
- `parseFloat` / `parseInt` and `NaN`. A parsed field arrives as an option (`None` when unparsable).
- The operator's answers to `confirm` prompts are boolean parameters, including the delete confirmation of the inventory's `handleDelete` (`Inventory.jsx:155-165`). The deletion itself is `Ledger.DeleteProduct`.
- The React views: layout, state hooks, `startEditing` copying a record into the form, and the settings table of `initDB`.
- `Auth.RestoreSession`: a saved session that is not valid JSON (`AuthContext.jsx:34-36`) is not modelled; the saved copy is already a parsed value.
- `Auth.Login`: the exception path with the message "Login failed. Please try again." (`AuthContext.jsx:57-60`) is not modelled, since store failures are out of scope.
- Case-insensitive search lower-cases ASCII letters only; full Unicode case mapping is not modelled.
- `SalesReport.ExportCsv`: the date column is the sale's local day number, not its `toLocaleDateString` text. The quoting and joining into one CSV string and the file download are not modelled.
- The "Tax (8%)" receipt label (`SalesHistory.jsx:431`) is display text only; the tax computed is 10%.
- `Ledger.UpdateProduct`: the record `updateProduct` returns is not modelled, only the stored list.
- `Checkout.CompleteSale`: the user-visible error strings are replaced by structured errors carrying the same values (balance and limit; product name and available stock).
- `Checkout.CalculateChange` is stated exactly as written; it does not block a sale when the tendered cash is short, because the code does not.
- `Ledger.GetDashboardStats` is computed in the model but has no contract of its own; its promised property is `Ledger.TodayWithinTotal`.

## Findings

| source | as written | input that shows it | evidently intended | confidence | as-written member | corrected member |
|---|---|---|---|---|---|---|
| pos-project/src/pages/SalesHistory.jsx:75-77 | "This month" ends at `new Date(year, month + 1, 0)`, local midnight at the START of the month's last day | any sale after 00:00 on the last day of the month, e.g. 31 January at 12:00 local time | the window ends at the end of the month's last day | high (not executed) | SalesReport.MonthWindowAsWritten (shown by SalesReport.MonthMissesLastDay) | SalesReport.MonthWindow (used by SalesReport.RangeWindowIntended) |
| pos-project/src/pages/SalesHistory.jsx:79-84 | both custom dates `new Date("YYYY-MM-DD")` are parsed as UTC midnight; the start stays there, and `setHours(23, 59, 59, 999)` is applied to the end in local time | time zone UTC-5, range ending on day D, a sale at 12:00 local time on D: the window ends at 23:59:59.999 local on D-1; time zone UTC+2, range starting on day S, a sale at 01:00 local time on S: the window starts at 02:00 local on S | the window runs from the start of the chosen start day to the end of the chosen end day, in local time | high (not executed) | SalesReport.CustomWindowAsWritten (shown by SalesReport.CustomRangeMissesEndDay and SalesReport.CustomRangeMissesStartDay) | SalesReport.CustomWindow (used by SalesReport.RangeWindowIntended) |
