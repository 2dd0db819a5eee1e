# Coffee business analysis: server bookkeeping

A model of the bookkeeping at the heart of the coffee shop server.

- **Routes.** There are three tenant-scoped CRUD routes, for orders, customers and products. Each one checks the signed-in tenant, refuses requests with specific status codes and messages, and updates the store.
- **Orders keep stock and customers in step.** Creating an order decrements each product's stock. It also adds the order's total, one visit and `floor(total)` loyalty points to the customer. Deleting an order gives the stock back and takes the aggregates away again.
- **Importers.** Three bulk importers take rows already read from CSV. Each one processes every row in turn and counts successes and failures.
- **Shared libraries:**
  - `csv-utils`: writes records as CSV, parses CSV text back into records, and validates imported rows.
  - `sanitize-input`: email, phone and password checks and the SQL-character scrubber.
  - The in-memory fixed-window rate limiter.

## How the model is built

The store is a `Tables` value. It holds maps from identifier to customer, product and order.

**Each handler has two parts:**
- a pure function from the old tables and the request to the reply and the new tables, such as `OrdersRoute.CreateOrder`;
- a method on the mutable `Database.Store` whose `ensures` ties its effect to that function, such as `OrdersRoute.Post`.

The lemmas state what the handlers promise: refusals, effects, tenant isolation, stock conservation and the store invariant `Entities.Valid`.

**Store failures.** A failure that the database would throw, such as a foreign key or a unique index violation, is a parameter `storeErrors` keyed by row.

**Money** is in integer cents. `Ledger.WholeUnits` is `Math.floor` of an amount in currency units.

**Loops become methods.** The loops of the source are methods with loop invariants, proved against recursive specification functions:
- `Csv.ParseCsvLine` and `Csv.ReadRecords`
- `CsvValidate.Validate`
- `OrdersRoute.CheckItems` and `OrdersRoute.ApplyStockMoves`
- `RateLimiting.RateLimiter.Cleanup`

**The rate limiter** is a class. The shared map is a `Table` object that every limiter holds, because the source keeps one module-level map for all three limiters.

### Behaviour of the code worth knowing

- **The rate-limit window.** `uniqueTokenPerInterval` is stored but never read. The bound comes from the `limit` argument of `check`.
- **The shared table.** All limiters share one table, so the same client shares its window across them.
- **Quoted newlines.** `parseCSV` splits the text into lines before it looks at quotes. A quoted value that holds a newline therefore does not read back. `Csv.ConvertThenParse` proves the round trip for records whose values have no newline and no surrounding white space, with at least two columns.
- **Customer update without an email.** The duplicate lookup then runs with no email filter. It matches any other customer of the tenant, so the update is refused whenever the tenant has another customer (`CustomersRoute.UpdateWithoutEmail`).
- **Customer import ownership.** The customer importer reads no session. It creates customers with no owner, and its duplicate check is global.
- **Product update validation.** The product update validates nothing. It stores a price that create refuses (`ProductsRoute.UpdateAcceptsWhatCreateRefuses`). A missing price, cost or stock reaches the store as NaN, and the reply is a server error.
- **Order import quantities.** The order importer does not check stock, so it can drive stock below zero (`OrdersImport.ImportDrivesStockNegative`).
- **Repeated order lines.** The create handler checks every line against the stock as it was read before the order. It takes the stock only afterwards. Two lines of one product, each of quantity 6, against a stock of 10 are both accepted, and the stock ends at −2 (`OrdersRoute.RepeatedLinesOversell`).

## Model

| member | source | states |
|---|---|---|
| Ledger.WholeUnits | coffee-business-analysis/src/app/api/orders/route.ts:167-169 | the loyalty points of an amount are the largest whole number of units not above it |
| Ledger.ApplyMoves | coffee-business-analysis/src/app/api/orders/route.ts:146-155 | a run of stock updates keeps the set of products, and completes exactly when every update names an existing product |
| Ledger.ApplyMovesEffect | coffee-business-analysis/src/app/api/orders/route.ts:146-155 | when all updates go through, each product's stock moves by the sum of its changes |
| Ledger.ApplyMovesStep | coffee-business-analysis/src/app/api/orders/route.ts:146-155 | the first i+1 updates are the first i followed by one more, which fails on a missing product |
| Ledger.ApplyMovesStops | coffee-business-analysis/src/app/api/orders/route.ts:146-155 | after the first failing update, no later update takes effect |
| Ledger.Sold | coffee-business-analysis/src/app/api/orders/route.ts:146-155 | an order's creation makes one stock update per line |
| Ledger.Returned | coffee-business-analysis/src/app/api/orders/route.ts:258-267 | an order's deletion makes one stock update per line |
| Ledger.SoldQuantity | coffee-business-analysis/src/app/api/orders/route.ts:146-155 | creation takes from each product exactly the quantity its lines hold |
| Ledger.ReturnedQuantity | coffee-business-analysis/src/app/api/orders/route.ts:258-267 | deletion gives back to each product exactly the quantity its lines hold |
| Ledger.RestockUndoesSale | coffee-business-analysis/src/app/api/orders/route.ts:146-155 | selling an order's lines and then returning them leaves every product as it was |
| Ledger.RevertUndoesRecord | coffee-business-analysis/src/app/api/orders/route.ts:269-283 | deleting an order restores the customer's total spent, visits and points; only the last visit stays |
| Ledger.RecordAllSums | coffee-business-analysis/src/app/api/orders/route.ts:157-172 | after a run of orders, the customer's aggregates are the old ones plus the sums over the run |
| Ledger.SumsSplit | coffee-business-analysis/src/app/api/orders/route.ts:157-172 | the sum of the totals and the sum of the points split over concatenation |
| Ledger.RevertOneOfMany | coffee-business-analysis/src/app/api/orders/route.ts:269-283 | after orders t1..tN, deleting order k leaves the aggregates of the other orders alone |
| OrdersRoute.PriceItems | coffee-business-analysis/src/app/api/orders/route.ts:102-111 | a loop that ends early ends with a 404 (unknown or foreign product) or a 400 (not enough stock) |
| OrdersRoute.PriceItemsAcceptsAll | coffee-business-analysis/src/app/api/orders/route.ts:90-121 | the item loop succeeds exactly when every line names a product of the tenant whose stock covers the quantity |
| OrdersRoute.PriceItemsLines | coffee-business-analysis/src/app/api/orders/route.ts:90-121 | after a successful loop there is one stored line per request line, each carrying the product's current price, and the total is the sum of price times quantity |
| OrdersRoute.PriceItemsStops | coffee-business-analysis/src/app/api/orders/route.ts:102-111 | the loop ends at the first failing line, and later lines do not matter |
| OrdersRoute.CheckItems | coffee-business-analysis/src/app/api/orders/route.ts:90-121 | the loop as it runs gives the same outcome as the item specification |
| OrdersRoute.ListOrders | coffee-business-analysis/src/app/api/orders/route.ts:19-54 | no listing without a session; a listing holds only orders the tenant owns |
| OrdersRoute.ListOrdersAllOwned | coffee-business-analysis/src/app/api/orders/route.ts:31-37 | without filters the listing is exactly the tenant's orders |
| OrdersRoute.ListOrdersFilters | coffee-business-analysis/src/app/api/orders/route.ts:28-37 | with a customer id, a non-empty status or both, the listing is exactly the tenant's orders of that customer and with that status |
| OrdersRoute.CreateOrderRefusals | coffee-business-analysis/src/app/api/orders/route.ts:65-88 | 401 without a session; 400 without a customer or items; 404 for a customer of another tenant; an error changes nothing |
| OrdersRoute.CreateOrderChecksEveryLine | coffee-business-analysis/src/app/api/orders/route.ts:93-111 | all or nothing: one unavailable line refuses the whole order and changes nothing |
| OrdersRoute.CreateOrderEffect | coffee-business-analysis/src/app/api/orders/route.ts:123-174 | a created order belongs to the tenant; its total is the sum over its lines, and status and payment default to "pending" and "cash"; the order is dated by the clock's reading; each product loses the quantity ordered; the customer gains the total, a visit and the points; the id counter advances by one |
| OrdersRoute.RepeatedLinesOversell | coffee-business-analysis/src/app/api/orders/route.ts:90-155 | two lines of one product, each within its stock of 10 but together over it, are accepted, and the stock ends at −2 |
| OrdersRoute.UpdateStatusEffect | coffee-business-analysis/src/app/api/orders/route.ts:181-221 | the update succeeds exactly when there is a session and an id of an order the tenant owns; then only that order's status changes, to the given one; an error changes nothing |
| OrdersRoute.DeleteOrderEffect | coffee-business-analysis/src/app/api/orders/route.ts:243-287 | deleting an owned order returns each line's quantity to stock, takes its total, a visit and its points from the customer, and removes the order |
| OrdersRoute.ForeignOrderNotFound | coffee-business-analysis/src/app/api/orders/route.ts:195-204 | another tenant's order can be neither changed nor deleted: 404, nothing changes |
| OrdersRoute.CreateThenDeleteRestores | coffee-business-analysis/src/app/api/orders/route.ts:146-283 | creating an order and deleting it again restores every product's stock and the customer's aggregates |
| OrdersRoute.OrderHandlersKeepValid | coffee-business-analysis/src/app/api/orders/route.ts:61-292 | create, status update and delete keep the store invariant |
| OrdersRoute.ApplyStockMoves | coffee-business-analysis/src/app/api/orders/route.ts:146-155 | the update loop changes the products exactly as the stock-move specification says |
| OrdersRoute.Post | coffee-business-analysis/src/app/api/orders/route.ts:61-179 | the handler's reply and new store are those of the create specification |
| OrdersRoute.Put | coffee-business-analysis/src/app/api/orders/route.ts:181-226 | the handler's reply and new store are those of the status specification |
| OrdersRoute.Delete | coffee-business-analysis/src/app/api/orders/route.ts:228-292 | the handler's reply and new store are those of the delete specification |
| CustomersRoute.CreateCustomerRefusals | coffee-business-analysis/src/app/api/customers/route.ts:57-83 | 401 without a session; 400 without a name or email; 400 for an email the tenant already uses; an error changes nothing |
| CustomersRoute.CreateCustomerAccepts | coffee-business-analysis/src/app/api/customers/route.ts:70-99 | an email that only other tenants use is accepted; the new customer takes the next id, is the tenant's, has the given name and email, the given phone and address or null when absent or empty, zero aggregates and no last visit |
| CustomersRoute.UpdateCustomerRefusals | coffee-business-analysis/src/app/api/customers/route.ts:120-140 | 400 without an id; 404 for a customer the tenant does not own |
| CustomersRoute.UpdateToTakenEmail | coffee-business-analysis/src/app/api/customers/route.ts:142-158 | changing the email to one another customer of the tenant holds is refused with 400 |
| CustomersRoute.UpdateCustomerEffect | coffee-business-analysis/src/app/api/customers/route.ts:143-168 | keeping the stored email skips the lookup; the update writes name and email (kept when absent) and phone and address, which an absent or empty value erases; nothing else changes |
| CustomersRoute.UpdateWithoutEmail | coffee-business-analysis/src/app/api/customers/route.ts:143-158 | an update without an email is refused when the tenant has any other customer |
| CustomersRoute.DeleteCustomerEffect | coffee-business-analysis/src/app/api/customers/route.ts:199-226 | 404 for a foreign customer; 400 for a customer with orders; otherwise exactly that customer is removed |
| CustomersRoute.CustomerHandlersKeepValid | coffee-business-analysis/src/app/api/customers/route.ts:53-234 | create, update and delete keep the store invariant; delete never orphans an order |
| CustomersRoute.CreateKeepsEmailsUnique | coffee-business-analysis/src/app/api/customers/route.ts:70-97 | create keeps emails unique within each tenant |
| CustomersRoute.UpdateKeepsEmailsUnique | coffee-business-analysis/src/app/api/customers/route.ts:142-168 | update keeps emails unique within each tenant |
| CustomersRoute.DeleteKeepsEmailsUnique | coffee-business-analysis/src/app/api/customers/route.ts:224 | delete keeps emails unique within each tenant |
| CustomersRoute.Post | coffee-business-analysis/src/app/api/customers/route.ts:53-107 | the handler's reply and new store are those of the create specification |
| CustomersRoute.Put | coffee-business-analysis/src/app/api/customers/route.ts:110-178 | the handler's reply and new store are those of the update specification |
| CustomersRoute.Delete | coffee-business-analysis/src/app/api/customers/route.ts:181-234 | the handler's reply and new store are those of the delete specification |
| ProductsRoute.StockOrZero | coffee-business-analysis/src/app/api/products/route.ts:70 | an absent stock becomes 0, and a given stock is kept |
| ProductsRoute.NameLessTotal | coffee-business-analysis/src/app/api/products/route.ts:28 | of two different names, one sorts first |
| ProductsRoute.NameLessTransitive | coffee-business-analysis/src/app/api/products/route.ts:28 | the name order is transitive |
| ProductsRoute.ListedBeforeTotal | coffee-business-analysis/src/app/api/products/route.ts:28 | of two products, one is listed no later than the other |
| ProductsRoute.Insert | coffee-business-analysis/src/app/api/products/route.ts:28 | inserting into a name-sorted list keeps it sorted and adds exactly the new product |
| ProductsRoute.SortByName | coffee-business-analysis/src/app/api/products/route.ts:28 | the listing holds each given product once, in name order |
| ProductsRoute.ListProducts | coffee-business-analysis/src/app/api/products/route.ts:18-31 | no listing without a session; otherwise exactly the tenant's products, each once, sorted by name |
| ProductsRoute.ListedInNameOrder | coffee-business-analysis/src/app/api/products/route.ts:28 | any earlier product of the listing sorts no later than any later one |
| ProductsRoute.CreateProductRefusals | coffee-business-analysis/src/app/api/products/route.ts:42-60 | 401 without a session; 400 without a name, category, price or cost; 400 "Invalid price or cost" for a price not above 0 or a negative cost |
| ProductsRoute.CreateProductEffect | coffee-business-analysis/src/app/api/products/route.ts:62-76 | a created product takes the next id and is the tenant's, active, with the given name and category, the description or null, a positive price, a cost of at least 0 and the given stock or 0 |
| ProductsRoute.UpdateProductEffect | coffee-business-analysis/src/app/api/products/route.ts:93-125 | 400 without an id; 404 for another tenant's product; 500 with nothing changed when price, cost or stock is missing; otherwise only that product is overwritten, with the given name and category (kept when absent), the description or null, and the given price, cost and stock |
| ProductsRoute.UpdateAcceptsWhatCreateRefuses | coffee-business-analysis/src/app/api/products/route.ts:108-118 | an update stores a zero or negative price, which create refuses |
| ProductsRoute.DeleteProductEffect | coffee-business-analysis/src/app/api/products/route.ts:138-155 | delete removes exactly an owned product; others get 404 |
| ProductsRoute.ProductHandlersKeepValid | coffee-business-analysis/src/app/api/products/route.ts:38-160 | create, update and delete keep the store invariant |
| ProductsRoute.Post | coffee-business-analysis/src/app/api/products/route.ts:38-81 | the handler's reply and new store are those of the create specification |
| ProductsRoute.Put | coffee-business-analysis/src/app/api/products/route.ts:83-125 | the handler's reply and new store are those of the update specification |
| ProductsRoute.Delete | coffee-business-analysis/src/app/api/products/route.ts:127-160 | the handler's reply and new store are those of the delete specification |
| OrdersImport.FindCustomer | coffee-business-analysis/src/app/api/orders/import/route.ts:37-48 | the lookup finds a customer of the tenant with the row's email, and finds none only when no such customer exists |
| OrdersImport.FindProduct | coffee-business-analysis/src/app/api/orders/import/route.ts:51-62 | the lookup finds a product of the tenant with the row's name, and finds none only when no such product exists |
| OrdersImport.ImportRows | coffee-business-analysis/src/app/api/orders/import/route.ts:34-123 | every row counts once, as a success or a failure, and each failure has one message |
| OrdersImport.ImportOrdersRefusals | coffee-business-analysis/src/app/api/orders/import/route.ts:14-26 | 401 without a session; 400 without rows; neither changes anything |
| OrdersImport.RowNotFound | coffee-business-analysis/src/app/api/orders/import/route.ts:44-62 | an unknown customer or product fails the row with "Customer not found" or "Product not found"; a failed row changes nothing |
| OrdersImport.RowEffect | coffee-business-analysis/src/app/api/orders/import/route.ts:64-116 | an imported row stores one order of one line at the product's price under the next id; status and payment default to "completed" and "cash"; it lowers the product's stock and records the order on its customer with the row's date; no other customer or product changes |
| OrdersImport.ImportDrivesStockNegative | coffee-business-analysis/src/app/api/orders/import/route.ts:91-99 | the importer takes a quantity larger than the stock and leaves the stock negative |
| OrdersImport.FailedRowIsSkipped | coffee-business-analysis/src/app/api/orders/import/route.ts:119-122 | a failed row leaves the store as it was and adds one failure |
| OrdersImport.ImportRowsKeepValid | coffee-business-analysis/src/app/api/orders/import/route.ts:34-123 | the importer keeps the store invariant |
| OrdersImport.ImportOneRow | coffee-business-analysis/src/app/api/orders/import/route.ts:35-122 | one iteration against the store does what the row specification says |
| OrdersImport.Post | coffee-business-analysis/src/app/api/orders/import/route.ts:10-137 | the handler's reply and new store are those of the import specification |
| CustomersImport.LastVisitOf | coffee-business-analysis/src/app/api/customers/import/route.ts:48-52 | the last visit is set exactly when the row gives one that is not "never" in any letter case |
| CustomersImport.ImportRows | coffee-business-analysis/src/app/api/customers/import/route.ts:30-73 | every row counts once, as a success or a failure, and each failure has one message |
| CustomersImport.ImportCustomersRefusal | coffee-business-analysis/src/app/api/customers/import/route.ts:17-22 | a request without rows gets 400 and changes nothing; any other request is imported |
| CustomersImport.DuplicateRowFails | coffee-business-analysis/src/app/api/customers/import/route.ts:33-41 | a row whose email any customer already has fails with "Email already exists" and changes nothing |
| CustomersImport.RowDefaults | coffee-business-analysis/src/app/api/customers/import/route.ts:43-66 | an imported customer has no owner, the row's name and email, and its phone and address or null when they are empty; it takes the row's history, with missing numbers defaulting to 0 and points to the floor of the total spent; its last visit is the row's date, or none when the row gives none or "never" in any case; the id counter advances by one |
| CustomersImport.RepeatedEmailFails | coffee-business-analysis/src/app/api/customers/import/route.ts:30-41 | a later row that repeats an imported email fails |
| CustomersImport.ImportRowsOnlyAddsFrom | coffee-business-analysis/src/app/api/customers/import/route.ts:30-73 | the importer never changes or removes a customer, it only adds |
| CustomersImport.ImportRowsKeepValid | coffee-business-analysis/src/app/api/customers/import/route.ts:30-73 | the importer keeps the store invariant |
| CustomersImport.ImportOneRow | coffee-business-analysis/src/app/api/customers/import/route.ts:31-72 | one iteration against the store does what the row specification says |
| CustomersImport.Post | coffee-business-analysis/src/app/api/customers/import/route.ts:12-87 | the handler's reply and new store are those of the import specification |
| ProductsImport.NewProduct | coffee-business-analysis/src/app/api/products/import/route.ts:37-49 | an imported product is the tenant's, active, with the row's name, category, price and cost, its description or null, and its stock or 0 |
| ProductsImport.ImportRows | coffee-business-analysis/src/app/api/products/import/route.ts:34-56 | every row counts once, as a success or a failure, and each failure has one message |
| ProductsImport.ImportProductsRefusals | coffee-business-analysis/src/app/api/products/import/route.ts:14-26 | 401 without a session; 400 without rows; neither changes anything |
| ProductsImport.ImportedAreAccepted | coffee-business-analysis/src/app/api/products/import/route.ts:34-56 | the successes are exactly the rows the store accepts, and each adds one product |
| ProductsImport.RowEffect | coffee-business-analysis/src/app/api/products/import/route.ts:37-51 | an accepted row stores exactly the row's product (`NewProduct`) at the next id; the counter advances by one and nothing else changes |
| ProductsImport.NoValidation | coffee-business-analysis/src/app/api/products/import/route.ts:37-49 | a row repeating an existing name with a negative price and cost is still imported |
| ProductsImport.Post | coffee-business-analysis/src/app/api/products/import/route.ts:10-70 | the handler's reply and new store are those of the import specification |
| Csv.DoubleQuotes | coffee-business-analysis/src/lib/csv-utils.ts:28 | doubling the quotes adds only quotes and leaves a value without quotes as it is; `Csv.ScanQuotedBody` proves the reader undoes it |
| Csv.EscapeValue | coffee-business-analysis/src/lib/csv-utils.ts:25-30 | a value without a comma, quote or newline is written as is; any other is quoted with its quotes doubled |
| Csv.Values | coffee-business-analysis/src/lib/csv-utils.ts:22-25 | one value per header |
| Csv.ConvertToCsv | coffee-business-analysis/src/lib/csv-utils.ts:14-35 | no records gives the empty text |
| Csv.Scan | coffee-business-analysis/src/lib/csv-utils.ts:77-103 | the line scanner ends with more fields than it started with: the field in progress is always pushed at the end |
| Csv.ScanKeepsFields | coffee-business-analysis/src/lib/csv-utils.ts:77-103 | the scanner only appends: the fields collected so far stay in front, unchanged |
| Csv.ParseLine | coffee-business-analysis/src/lib/csv-utils.ts:77-103 | a line always gives at least one field; `Csv.ParseLineWithoutQuotes` and `Csv.EscapedLineParses` fix the fields themselves |
| Csv.ParseCsvLine | coffee-business-analysis/src/lib/csv-utils.ts:77-103 | the scanning loop gives the fields of the line specification |
| Csv.ParseLineWithoutQuotes | coffee-business-analysis/src/lib/csv-utils.ts:77-103 | a line without quotes reads as its comma-separated pieces |
| Csv.ScanQuotedBody | coffee-business-analysis/src/lib/csv-utils.ts:86-92 | inside quotes, a doubled quote reads as one quote and commas are kept |
| Csv.EscapedLineParses | coffee-business-analysis/src/lib/csv-utils.ts:21-31 | a line of escaped values reads back as the original values |
| Csv.NonBlank | coffee-business-analysis/src/lib/csv-utils.ts:54 | no kept line is blank, and no more lines are kept than given |
| Csv.NonBlankExactly | coffee-business-analysis/src/lib/csv-utils.ts:54 | a line is kept exactly when it is given and is not blank |
| Csv.RowOfKeys | coffee-business-analysis/src/lib/csv-utils.ts:65-68 | a record has exactly the header names as keys |
| Csv.ParseCsvText | coffee-business-analysis/src/lib/csv-utils.ts:53-74 | the parser gives the records of the file specification |
| Csv.ReadRecords | coffee-business-analysis/src/lib/csv-utils.ts:61-71 | the record loop keeps each line whose field count matches the headers, in order |
| Csv.ParsedRecordsShape | coffee-business-analysis/src/lib/csv-utils.ts:53-74 | every parsed record has exactly the trimmed headers as keys, with trimmed values |
| Csv.RowOfField | coffee-business-analysis/src/lib/csv-utils.ts:66-68 | a header takes the trimmed value of its last column |
| Csv.ConvertThenParse | coffee-business-analysis/src/lib/csv-utils.ts:14-103 | reading back a written file gives the original records, for at least two clean headers and values without newlines or surrounding blanks |
| Text.NatToString | coffee-business-analysis/src/lib/csv-utils.ts:111 | the row number is printed as decimal digits without a leading zero that denote the number |
| CsvValidate.RowPrefixNamesLine | coffee-business-analysis/src/lib/csv-utils.ts:111 | every message prefix is "Row ", the decimal numeral of the record's position plus two, and ": " |
| CsvValidate.RowPrefixNamesOneRow | coffee-business-analysis/src/lib/csv-utils.ts:111 | two different records never share a prefix, so each message names one line |
| CsvValidate.CustomerRowErrors | coffee-business-analysis/src/lib/csv-utils.ts:109-118 | at most two messages per customer row, one per problem found, each starting with the row's "Row <line>: " prefix |
| CsvValidate.ProductRowErrors | coffee-business-analysis/src/lib/csv-utils.ts:127-143 | at most five messages per product row, one per problem found, each starting with the row's "Row <line>: " prefix |
| CsvValidate.OrderRowErrors | coffee-business-analysis/src/lib/csv-utils.ts:152-162 | at most three messages per order row, one per problem found, each starting with the row's "Row <line>: " prefix |
| CsvValidate.Validate | coffee-business-analysis/src/lib/csv-utils.ts:107-120 | the loop gives each row's messages in row order, and the data is valid exactly when there are none |
| CsvValidate.ValidateCustomerCsv | coffee-business-analysis/src/lib/csv-utils.ts:106-121 | valid exactly when every row has a name and a well-formed email |
| CsvValidate.ValidateProductCsv | coffee-business-analysis/src/lib/csv-utils.ts:124-146 | valid exactly when every row has a name and a category, a numeric price and cost, and a stock that is absent or an integer |
| CsvValidate.ValidateOrderCsv | coffee-business-analysis/src/lib/csv-utils.ts:149-165 | valid exactly when every row has a customer email, a product name and an integer quantity |
| CsvValidate.CustomerRowClean | coffee-business-analysis/src/lib/csv-utils.ts:110-117 | a customer row has no messages exactly when it passes |
| CsvValidate.ProductRowClean | coffee-business-analysis/src/lib/csv-utils.ts:128-142 | a product row has no messages exactly when it passes |
| CsvValidate.OrderRowClean | coffee-business-analysis/src/lib/csv-utils.ts:153-161 | an order row has no messages exactly when it passes |
| CsvValidate.ErrorsEmptyIff | coffee-business-analysis/src/lib/csv-utils.ts:109-120 | there are no messages exactly when no row has one |
| CsvValidate.ErrorsAppend | coffee-business-analysis/src/lib/csv-utils.ts:109-118 | each row's messages come together, after those of every earlier row, numbered by its position |
| CsvValidate.LeadingDigitParses | coffee-business-analysis/src/lib/csv-utils.ts:134-140 | text starting with a digit reads as a number |
| CsvValidate.LeadingSymbolFails | coffee-business-analysis/src/lib/csv-utils.ts:134-140 | text starting with a currency sign or a letter other than the I of Infinity reads as no number |
| CsvValidate.HexNeedsDigit | coffee-business-analysis/src/lib/csv-utils.ts:140 | after 0x, an integer needs a hexadecimal digit |
| Text.ToLower | coffee-business-analysis/src/lib/sanitize-input.ts:29 | the length is kept, and each character is lowered on its own: a capital becomes a lower-case letter, and other characters outside the Kelvin sign and the dotted capital I stay as they are |
| Text.Filter | coffee-business-analysis/src/lib/sanitize-input.ts:31 | the result holds exactly those characters of the text that the pattern accepts, and no more characters than the text |
| Text.FilterKeepsAll | coffee-business-analysis/src/lib/sanitize-input.ts:41 | text whose every character the pattern accepts is kept unchanged |
| Sanitize.SanitizeEmail | coffee-business-analysis/src/lib/sanitize-input.ts:25-32 | the empty input stays empty; the result holds only lower-case email characters and is no longer than the input |
| Sanitize.SanitizeEmailIdempotent | coffee-business-analysis/src/lib/sanitize-input.ts:25-32 | sanitising an email twice is the same as sanitising it once |
| Sanitize.CleanEmailUnchanged | coffee-business-analysis/src/lib/sanitize-input.ts:25-32 | an email made only of lower-case email characters is kept exactly as it is |
| Sanitize.SanitizePhone | coffee-business-analysis/src/lib/sanitize-input.ts:37-43 | the result holds only phone characters, has no blank at either end, and is no longer than the input |
| Sanitize.SanitizedPhoneValid | coffee-business-analysis/src/lib/sanitize-input.ts:37-43 | a sanitised number of 7 to 20 characters passes the phone check |
| Sanitize.ValidPhoneUnchanged | coffee-business-analysis/src/lib/sanitize-input.ts:87-90 | a number that passes the phone check and has no blank at either end is unchanged by sanitising |
| Sanitize.EmailPatternIsValidEmail | coffee-business-analysis/src/lib/sanitize-input.ts:82-85 | the email check holds exactly when the text is a local part, an @, and a domain containing a dot with text on both sides, all without blanks or further @ |
| Sanitize.ValidEmailShape | coffee-business-analysis/src/lib/sanitize-input.ts:82-85 | a valid email has exactly one @, no blanks, and a dot after the @ |
| Sanitize.PasswordErrors | coffee-business-analysis/src/lib/sanitize-input.ts:101-121 | at most four messages |
| Sanitize.PasswordErrorsMembers | coffee-business-analysis/src/lib/sanitize-input.ts:104-115 | each rule's message is there exactly when the rule fails (length in UTF-16 code units under 6, no lower-case letter, no upper-case letter, no digit); there are none exactly when all four rules hold |
| Sanitize.PasswordErrorsOnlyRules | coffee-business-analysis/src/lib/sanitize-input.ts:104-115 | no message other than the four rule messages appears |
| Sanitize.ValidatePassword | coffee-business-analysis/src/lib/sanitize-input.ts:101-121 | the messages are those of the four rules that fail, one each, in the order the rules are checked; valid exactly when there are none, that is when all four rules hold |
| Text.Utf16Length | coffee-business-analysis/src/lib/sanitize-input.ts:104 | the JavaScript length is between the number of characters and twice that, and equals it exactly when no character lies beyond U+FFFF |
| Sanitize.AstralCharCountsTwice | coffee-business-analysis/src/lib/sanitize-input.ts:104 | a five-character password holding one emoji has length six |
| Sanitize.RemovePair | coffee-business-analysis/src/lib/sanitize-input.ts:130-131 | one removal pass shortens the text exactly when the pair occurs in it |
| Sanitize.PreventSqlInjection | coffee-business-analysis/src/lib/sanitize-input.ts:127-133 | the result holds no quote, double quote, semicolon or backslash |
| Sanitize.CleanInputUnchanged | coffee-business-analysis/src/lib/sanitize-input.ts:127-133 | text with no quote character, no "--", no "/*" and no blank at either end comes through both the original and the corrected scrubber unchanged |
| Sanitize.OnePassLeavesMarkers | coffee-business-analysis/src/lib/sanitize-input.ts:127-133 | the single pass leaves a comment marker: "-/*-" becomes "--" and "//**" becomes "/*" |
| Sanitize.RemovePairUnchanged | coffee-business-analysis/src/lib/sanitize-input.ts:130-131 | removing a pair that does not occur changes nothing |
| Sanitize.PreventSqlInjectionFixed | coffee-business-analysis/src/lib/sanitize-input.ts:127-133 | the corrected scrubber leaves no dangerous character, no "--" and no "/*" |
| Sanitize.FixedAgreesWithoutMarkers | coffee-business-analysis/src/lib/sanitize-input.ts:127-133 | when the input, once its quote characters are removed, holds no "--" and no "/*", the corrected scrubber agrees with the original |
| RateLimiting.Check | coffee-business-analysis/src/lib/rate-limiter.ts:27-51 | a refusal changes nothing; other clients' entries are untouched |
| RateLimiting.Unexpired | coffee-business-analysis/src/lib/rate-limiter.ts:62-69 | exactly the entries whose window has not ended are kept, unchanged |
| RateLimiting.Identifier | coffee-business-analysis/src/lib/rate-limiter.ts:53-59 | a forwarded header gives an identifier without a comma; with neither header it is "unknown" |
| RateLimiting.RateLimiter.CheckRequest | coffee-business-analysis/src/lib/rate-limiter.ts:27-51 | the shared table and the answer are those of the check specification for the request's identifier |
| RateLimiting.RateLimiter.Cleanup | coffee-business-analysis/src/lib/rate-limiter.ts:62-69 | the deletion loop leaves exactly the unexpired entries |
| RateLimiting.PreconfiguredLimiters | coffee-business-analysis/src/lib/rate-limiter.ts:73-91 | three one-minute limiters configured 10, 30 and 100, all on the one shared table |
| RateLimiting.NewWindow | coffee-business-analysis/src/lib/rate-limiter.ts:35-41 | a first request, or one after the window has ended, succeeds with limit-1 left and opens a window of one request |
| RateLimiting.InsideWindow | coffee-business-analysis/src/lib/rate-limiter.ts:44-50 | inside the window and under the limit the count goes up by one; at the limit the request is refused and nothing changes |
| RateLimiting.EndOfWindowIsInside | coffee-business-analysis/src/lib/rate-limiter.ts:35 | a request at exactly the reset time still counts against the window; one a moment later opens a new one |
| RateLimiting.CheckKeepsBounded | coffee-business-analysis/src/lib/rate-limiter.ts:27-51 | counts stay between 1 and the limit, and the remaining count is never negative |
| RateLimiting.CleanupKeepsBounded | coffee-business-analysis/src/lib/rate-limiter.ts:62-69 | cleanup keeps counts within the limit |
| RateLimiting.CleanupIsInvisible | coffee-business-analysis/src/lib/rate-limiter.ts:62-69 | cleanup never changes what a later check answers |
| RateLimiting.WindowCapsSuccesses | coffee-business-analysis/src/lib/rate-limiter.ts:44-50 | within one window a client gets at most the limit's worth of successes |
| RateLimiting.ForwardedFirstAddress | coffee-business-analysis/src/lib/rate-limiter.ts:55-56 | the identifier is the text before the first comma of the forwarded header |
| RateLimiting.RealIpFallback | coffee-business-analysis/src/lib/rate-limiter.ts:56 | without a usable forwarded header, the real-ip header is used |
| Text.Split | coffee-business-analysis/src/lib/csv-utils.ts:54-58 | splitting gives at least one piece, and no piece holds the separator |
| Text.SplitRejoins | coffee-business-analysis/src/lib/csv-utils.ts:54-58 | joining the pieces with the separator gives the text back |
| Text.Trim | coffee-business-analysis/src/lib/csv-utils.ts:58 | the result neither starts nor ends with a blank and is no longer than the text |
| Text.TrimEmpty | coffee-business-analysis/src/lib/csv-utils.ts:58 | trimming leaves nothing exactly when the text is all blank |
| Text.TrimKeepsChars | coffee-business-analysis/src/lib/csv-utils.ts:58 | the result holds only characters of the text |
| Text.TrimIdempotent | coffee-business-analysis/src/lib/csv-utils.ts:67 | trimming twice is trimming once |

## Left out

- The customers listing (GET in the customers route) is left out. It has the shape of the products listing, plus an order count per customer, and is not modelled separately.
- `withRateLimit` and the five-minute `setInterval` cleanup timer are left out. The timer only calls `RateLimiting.RateLimiter.Cleanup`, which is modelled. HTTP headers and the 429 reply are left out.
- `downloadCSV` is left out. It touches only the browser document.
- `sanitizeString`, `sanitizeObject`, `sanitizeNumber` and the URL validator are left out. They are outside the modelled core, and the URL validator depends on the platform's URL parser.
- The tenant "clear" routes are left out. They are outside the modelled core.
- Concurrency between requests is not modelled. Each handler runs alone against the store.
- The database is a map-valued store. A database failure other than one of a row's `storeErrors` is not modelled. Neither is the 500 reply it would cause, except where the code itself produces one, such as a missing order row on delete or a NaN price on product update.
- OrdersRoute.ListOrders returns the set of matching orders. It does not model the order-date ordering or the included customer and product records.
- `findFirst` is modelled as returning the matching record with the least identifier.
- An import takes one clock reading for all its rows, and OrdersRoute.CreateOrder uses one reading for both the order date and the customer's last visit, where the code reads the clock twice.
- Numbers arrive already parsed; NaN is represented as an absent value, and money is in integer cents rather than floating point.
- ProductsRoute.ListProducts sorts names by character code. It does not model a database collation, and it breaks ties between equal names by id, where the database leaves their order open.
- Csv.Values takes record fields that are already strings. It does not model `String(value)` for numbers and dates.
- Text.ToLower lowers ASCII letters plus the Kelvin sign and the capital I with dot above. It does not model the rest of Unicode case mapping.

## Findings

| source | as written | input that shows it | evidently intended | confidence | as-written member | corrected member |
|---|---|---|---|---|---|---|
| coffee-business-analysis/src/lib/sanitize-input.ts:127-133 | removes `--` and then `/*` in one pass each, so removing one marker can join two halves of another | "-/*-" becomes "--", and "//**" becomes "/*" | the output holds no SQL comment marker | not executed | Sanitize.OnePassLeavesMarkers | Sanitize.PreventSqlInjectionFixed |
