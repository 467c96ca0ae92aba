# Ecommerce-dashboard back-office, modelled in Dafny

This project models the admin back-office of the e-commerce dashboard. It covers:

- the server actions behind the products, orders and customers tables (listing with search and pagination, lookup, create, update, delete with the cascade to orders, and the validated order-status update);
- the analytics figures of the dashboard home page (totals, average order value, and the six-month sales/orders chart);
- the growth badges and trend labels of the stat cards;
- the list pages' client controls (search form, page-number strip with ellipses, Previous/Next);
- the order-details page's status buttons and banner;
- the admin onboarding endpoint.

The database is a sequence of documents. A query is a filter, sort and slice over that sequence. A failing connection or query is a `Fetch.Unavailable` parameter. Money is a Dafny `real`. Dates are `Calendar.Timestamp` values that carry their instant together with the local year and month. "Now" is passed in as a parameter.

The page-number strip, Previous/Next and search/page URL handling are identical in `components/OrdersClient.tsx`, `components/CustomersClient.tsx` (lines 37-53 and 151-198) and `components/ProductsClient.tsx` (lines 38-54 and 129-176). The table below cites the orders client.

Modules, one file each:

| file | module | models |
|---|---|---|
| basics.dfy | `Basics` | `Option`, `Result`, `Fetch`, fresh document ids |
| text.dfy | `Text` | `trim`, ASCII `toLowerCase`, `includes`, decimal numerals |
| seqs.dfy | `Seqs` | filter, sum (`reduce`), descending sort, skip/limit window |
| paging.dfy | `Paging` | the `{ success, items, pagination }` envelope shared by the three listings |
| calendar.dfy | `Calendar` | timestamps, month names, `$max`/`$min` of dates |
| order_model.dfy | `OrderModel` | the `Order` schema, status enum, unique order number, insertion |
| product_model.dfy | `ProductModel` | the `Product` schema with its defaults |
| validations.dfy | `Validations` | the zod `productSchema` |
| product_actions.dfy | `ProductActions` | `addProduct`, `updateProduct`, `deleteProduct`, `getProduct`, `getProducts` |
| order_actions.dfy | `OrderActions` | `getOrders`, `getOrderById`, `updateOrderStatus` |
| customer_actions.dfy | `CustomerActions` | `getCustomers` (the `$group` aggregation) and `getCustomerDetails` |
| analytics.dfy | `Analytics` | `getAnalyticsData` and `getMonthlyData` |
| sales_chart.dfy | `SalesChart` | `getGrowth`, `toFixed(1)`, the badge, `getTrendLabel` |
| page_controls.dfy | `PageControls` | list-page search/paging URL, page strip, arrows, status colours |
| order_details.dfy | `OrderDetails` | `handleStatusUpdate`, status buttons, banner, item subtotal |
| onboard.dfy | `Onboard` | `POST /api/onboard` |

### Searches and pages

- An order search by customer email paginates like the unfiltered listing.
- A search by order number reads the first match only (skip 0, limit 1). It reports `totalPages = ceil(total / 1)`, not a fixed 1.
- A customer search is an exact match on the trimmed, lower-cased email. The customer-details lookup uses the email exactly as given.
- The list pages pass `Number(params.page) || 1`, so `?page=-1` reaches the actions unchanged. `getProducts` and `getOrders` (outside a number search) then ask MongoDB for a negative skip; the find command rejects it, and the action answers with its failure envelope. `getCustomers` cuts its page with `slice`, which counts a negative index back from the end of the ranking and succeeds. A number search and a customer search ignore the page and echo it as `currentPage`.

## Model

| member | source | states |
|---|---|---|
| Basics.FreshId | app/actions/product.ts:27 | a new document's `_id` differs from every id already in the collection |
| Text.Trim | app/actions/order.ts:12 | the result is the infix of the term left after removing white space before and after it, and it neither starts nor ends with white space |
| Text.TrimEmptyIffBlank | app/actions/order.ts:14 | a term trims to empty exactly when it is all white space (the "no search" case) |
| Text.TrimIdempotent | app/actions/customer.ts:10 | trimming an already trimmed term changes nothing |
| Text.ToLower | app/actions/customer.ts:10 | same length, no upper-case letter left, other characters untouched |
| Text.ToLowerIdempotent | app/actions/order.ts:18 | a lower-cased email is its own normal form |
| Text.Includes | app/actions/product.ts:123-125 | true exactly when the needle occurs at some position of the text |
| Text.DigitsRoundTrip | components/OrdersClient.tsx:57 | the decimal numeral written for a page number reads back as that number |
| Text.SignedNumeral | components/OrdersClient.tsx:57 | `toString()` of an integer: a leading minus exactly for a negative number, then the digits of its magnitude |
| Text.SignedNumeralRoundTrip | components/OrdersClient.tsx:57 | the numeral written for any integer page, negative ones included, reads back as that integer |
| Seqs.FilterConcat | app/actions/order.ts:31 | filtering a concatenation filters each part |
| Seqs.SumPermutation | app/actions/customer.ts:84 | a sum (`reduce`) does not depend on the order of the documents |
| Seqs.SortDesc | app/actions/order.ts:32 | the result is a permutation of the input, ordered by the key, largest first |
| Seqs.Window | app/actions/order.ts:33-34 | skip/limit keeps at most `limit` elements, exactly those from position `skip` on that exist |
| Seqs.Slice | app/actions/customer.ts:45 | `slice(start, end)` takes the elements between the positions the two indices resolve to, a negative index counting back from the end, and nothing when they cross |
| Seqs.SliceFromNatural | app/actions/customer.ts:45 | with a non-negative start, `slice(skip, skip + limit)` takes what the database's skip/limit takes |
| Seqs.SliceFromEnd | app/actions/customer.ts:45 | with negative indices, `slice` takes the span shifted by the length, clipped at the front |
| Seqs.FilterLast | components/SalesChart.tsx:29-30 | the last element passing a filter sits at a position after which nothing passes, and the elements passing before it are the rest of the filtered list |
| Seqs.FilterSumAppend | app/actions/analytics.ts:62-66 | one more document adds its term to a filtered sum exactly when it passes the filter |
| Seqs.MeanWithinRange | app/actions/analytics.ts:21 | the mean of a non-empty collection is at least its smallest term and at most its largest |
| Paging.Failed | app/actions/order.ts:50-57 | the failure envelope: not successful, the message, no items, page 1 of 0, no more |
| Paging.CeilDiv | app/actions/product.ts:149 | `Math.ceil(n / d)`: the least `q` with `q * d >= n` |
| Paging.SlicePage | app/actions/customer.ts:43-56 | the sliced page is the ordinary page from page 1 on; page 0 is empty; page `-n` holds the span `(n + 1) * limit` to `n * limit` before the end; below 1 `hasMore` is always set |
| Paging.SlicePageKeepsOrder | app/actions/customer.ts:45 | whatever the page number, a sliced page of a sorted list is sorted and holds only its elements |
| Paging.MinusOnePageCountsFromEnd | app/actions/customer.ts:44-54 | `?page=-1` over 25 rows, 10 to a page, returns the rows ranked 6th to 15th with `hasMore` set |
| Paging.PageOf | app/actions/product.ts:119-152 | the items are exactly the sorted results at positions `(page - 1) * limit` up to `page * limit` that exist, in order; `totalPages` is `ceil(total / limit)`; current page and total echoed |
| Paging.PageKeepsOrder | app/actions/product.ts:132-134 | a page of a sorted result set is sorted |
| Paging.HasMoreIffLaterPage | app/actions/product.ts:151 | `hasMore` holds exactly when a later page exists; pages past the last are empty, pages up to it are not |
| Paging.PageHolding | app/actions/product.ts:119 | page `k / limit + 1` is the page whose skip window contains position k |
| Paging.PageLocates | app/actions/product.ts:119 | the k-th result (0-based) is item `k % limit` of page `k / limit + 1`, and no other page covers position k: every result is on exactly one page |
| Calendar.Later | app/actions/customer.ts:25 | `$max` of two dates returns one of them, not earlier than either |
| Calendar.Earlier | app/actions/customer.ts:26 | `$min` of two dates returns one of them, not later than either |
| OrderModel.ParseStatus | models/Order.ts:25-29 | a string is accepted exactly when it names one of the five statuses, and it parses to that status |
| OrderModel.StatusNamesRoundTrip | models/Order.ts:27 | every status's name parses back to it; the enum lists five statuses with distinct names |
| OrderModel.FailingPaths | models/Order.ts:3-29 | validation passes exactly when order number, customer email and total are present and a given status is in the enum |
| OrderModel.InsertOrder | models/Order.ts:3-31 | insertion succeeds exactly when validation passes and the order number is not taken; it appends one order carrying the draft's fields, with the status defaulting to "pending"; it keeps numbers and ids unique |
| OrderModel.FilterKeepsValid | models/Order.ts:6 | removing orders keeps order numbers and ids unique |
| OrderModel.TotalNotTiedToItems | models/Order.ts:21-24 | the schema accepts a total that differs from the sum of the line subtotals |
| ProductModel.SchemaErrors | models/Product.ts:3-27 | no error exactly when name, description, price and category are present |
| ProductModel.CreateProduct | models/Product.ts:3-28 | creation fails exactly on schema errors; otherwise the fields are copied, `stock` defaults to 0, `images` defaults to [] |
| ProductModel.SchemaDefaultsAndNoRanges | models/Product.ts:15-27 | the defaults apply, and a negative price or stock is accepted by the schema itself |
| Validations.TextIssues | lib/validations.ts:4-5 | a text field has an issue exactly when it is missing or shorter than its minimum |
| Validations.StockIssues | lib/validations.ts:7 | stock has issues exactly when it is not a non-negative integer |
| Validations.IssuesNameFailingFields | lib/validations.ts:3-11 | every reported issue names a failing field, and every failing field is reported |
| Validations.Validate | lib/validations.ts:3-11 | success exactly when all five field rules hold, and the data is the input's; otherwise a non-empty issue list |
| ProductActions.ValidatedFormPassesSchema | app/actions/product.ts:24-27 | data that passed the form validation always passes the database schema |
| ProductActions.AddProduct | app/actions/product.ts:10-36 | invalid input changes nothing and reports issues; valid input appends one product with a fresh id and the input's fields; ids stay unique |
| ProductActions.UpdateProduct | app/actions/product.ts:39-65 | only the product with that id is overwritten (name, description, price, stock, category, and images when given), keeping its id and creation time; an unknown id changes nothing and still reports success |
| ProductActions.DeleteProduct | app/actions/product.ts:68-89 | exactly the orders referencing the product are removed, then the product itself |
| ProductActions.CascadeCount | app/actions/product.ts:76 | the orders kept and the orders removed together are all the orders |
| ProductActions.DeleteKeepsOrdersValid | app/actions/product.ts:76 | the cascade keeps order numbers and ids unique |
| ProductActions.GetProduct | app/actions/product.ts:92-112 | the product with that id, "Product not found" exactly when none has it, "Failed to fetch product" on a database error |
| ProductActions.LookupProduct | app/actions/product.ts:95-99 | `findById`: a product with that id, or "Product not found" exactly when none has it |
| ProductActions.ProductResults | app/actions/product.ts:120-132 | exactly the products matching the search in name, category or description, newest first |
| ProductActions.GetProducts | app/actions/product.ts:115-163 | from page 1 on, the items are the requested skip/limit window of the matching products, newest first; counted total, ceil pages, `hasMore` iff a later page. Failure envelope on a database error and on a page below 1, whose negative skip the database refuses |
| ProductActions.ProductPagesLocate | app/actions/product.ts:119-135 | the k-th matching product is item `k % limit` of page `k / limit + 1` |
| OrderActions.ClassifySearch | app/actions/order.ts:12-23 | an empty trimmed term means everything; a term with `@` is a lower-cased email; any other term is an exact order number |
| OrderActions.NumberListing | app/actions/order.ts:25-48 | an order-number search returns at most the first match, with `totalPages` equal to the match count |
| OrderActions.SelectSorted | app/actions/order.ts:30-32 | exactly the selected orders, newest first |
| OrderActions.QueryListing | app/actions/order.ts:25-58 | an order-number search is the first match only, whatever the page, with `totalPages` equal to the match count; any other search is the requested skip/limit window, with ceil pages and `hasMore` iff a later page, or the failure envelope for a page below 1 |
| OrderActions.GetOrders | app/actions/order.ts:7-59 | the selected orders newest first. An email or empty search returns the requested skip/limit window of them, or the failure envelope for a page below 1. An order-number search returns the first one only, for any page. Failure envelope on a database error |
| OrderActions.OrderPagesLocate | app/actions/order.ts:27-45 | for an email or empty search, the k-th selected order is item `k % limit` of page `k / limit + 1` |
| OrderActions.NumberSearchFindsAtMostOne | app/actions/order.ts:20-28 | with unique order numbers, a number search returns exactly the order with that number, on a single page, `hasMore` false, whatever page was asked for |
| OrderActions.FindOrder | app/actions/order.ts:65 | the first position holding the id, or none exactly when no order has it |
| OrderActions.GetOrderById | app/actions/order.ts:61-81 | the order with that id, "Order not found" exactly when none has it, "Failed to fetch order" on a database error |
| OrderActions.UpdateOrderStatus | app/actions/order.ts:83-115 | a name outside the enum is refused before any write; an unknown id is refused; otherwise only that order's status changes; the success message names the status; the store stays valid |
| CustomerActions.LatestDateIsMax | app/actions/customer.ts:25 | `lastOrderDate` is the date of one of the customer's orders and no order is later |
| CustomerActions.EarliestDateIsMin | app/actions/customer.ts:26 | `firstOrderDate` is the date of one of the customer's orders and no order is earlier |
| CustomerActions.AbsorbShape | app/actions/customer.ts:21-27 | one group step merges the order into its email's row in place, or appends a new row |
| CustomerActions.SummaryAppend | app/actions/customer.ts:23-26 | one more order leaves other emails' summaries unchanged and opens or merges its own |
| CustomerActions.AbsorbSummarizes | app/actions/customer.ts:21-27 | one group step keeps the rows exactly the per-email summaries |
| CustomerActions.GroupByEmailSummarizes | app/actions/customer.ts:18-28 | the aggregation yields one row per distinct email, nothing else, each with its order count, summed total and latest and earliest dates |
| CustomerActions.SummaryMeaning | app/actions/customer.ts:23-26 | a row counts and sums exactly its email's orders, and its dates bound all of them and are attained |
| CustomerActions.NormalizeSearch | app/actions/customer.ts:10 | the term is the trimmed search, lower-cased character by character; empty exactly when the search is blank |
| CustomerActions.RankedCustomers | app/actions/customer.ts:29 | the grouped rows, largest lifetime value first, still exactly one row per email |
| CustomerActions.RankingKeepsGrouping | app/actions/customer.ts:29 | reordering the rows keeps them a grouping of the orders |
| CustomerActions.GetCustomers | app/actions/customer.ts:6-66 | rows are exact summaries, largest value first. Without a search: total = distinct emails; from page 1 on the requested skip/limit window of the ranked rows; page 0 empty; a negative page the span `slice` counts back from the end, with `hasMore` set. With a search: at most the one row of that email, one page, no more, for any page. Failure envelope on a database error |
| CustomerActions.CustomerPagesLocate | app/actions/customer.ts:43-55 | without a search, the k-th customer by lifetime value is item `k % limit` of page `k / limit + 1` |
| CustomerActions.SearchedCustomers | app/actions/customer.ts:13-19 | a search yields the searched email's row of the unfiltered grouping, and is empty exactly when that email has no orders |
| CustomerActions.OneEmailOneRow | app/actions/customer.ts:21-22 | orders that share one email group into at most one row |
| CustomerActions.FilterTwice | app/actions/customer.ts:19 | matching an email's orders by that email again keeps them all |
| CustomerActions.DetailMeaning | app/actions/customer.ts:83-87 | read off a newest-first list, count and sum are those of the customer's orders and the dates bound all of them |
| CustomerActions.NewestFirstBounds | app/actions/customer.ts:86-87 | in a newest-first list the first order is the latest and the last the earliest |
| CustomerActions.NewestFirstDates | app/actions/customer.ts:86-87 | the ends of a newest-first list carry the latest and earliest instants of the customer's orders |
| CustomerActions.AverageWithinOrderTotals | app/actions/customer.ts:83-85 | the average order value lies between the customer's smallest and largest order total |
| CustomerActions.GetCustomerDetails | app/actions/customer.ts:68-105 | exactly this email's orders, newest first, with count, sum, average = sum / count; the last order date is the first order's date and the first order date the last order's, bounding all of them; "Customer not found" exactly when there are none; its own message on a database error |
| CustomerActions.DetailsAgreeWithListing | app/actions/customer.ts:83-87 | the details page and the customer list report the same count, lifetime value and first/last dates |
| Analytics.LastSixMonths | app/actions/analytics.ts:49-59 | six consecutive calendar months ending with the current one, labelled with their month names, crossing the year boundary correctly |
| Analytics.MonthNumberInjective | app/actions/analytics.ts:65 | a (year, month) pair identifies one month |
| Analytics.OneSlotPerOrder | app/actions/analytics.ts:62-66 | an order falls in at most one of the six months, and in one exactly when it is in the window |
| Analytics.Round | app/actions/analytics.ts:73 | `Math.round`: the nearest integer, halves rounded up |
| Analytics.MonthlyData | app/actions/analytics.ts:48-79 | six entries, one per month of the window |
| Analytics.StatsPerSlot | app/actions/analytics.ts:62-76 | each entry carries its month's name, the rounded sum of that month's order totals and that month's order count |
| Analytics.SlotSumWindow | app/actions/analytics.ts:62-66 | summing over the six months is summing over the orders inside the window |
| Analytics.MonthlyOrdersAddUp | app/actions/analytics.ts:69 | the six bars' order counts add up to the number of orders in the window |
| Analytics.MonthlySalesAddUp | app/actions/analytics.ts:68-73 | the six bars' sales add up to the window's revenue within the rounding of six months |
| Analytics.OutsideWindowIgnored | app/actions/analytics.ts:63-66 | an order outside the six months does not change the chart |
| Analytics.GetAnalyticsData | app/actions/analytics.ts:7-46 | revenue is the sum of all totals, order count is the number of orders, average is 0 without orders else revenue / count, products counted, the chart is the six monthly bars of the orders; on any failure all zeros and an empty chart |
| Analytics.AverageWithinOrderTotals | app/actions/analytics.ts:20-21 | with orders, the average order value lies between the smallest and the largest order total |
| SalesChart.PercentChange | components/SalesChart.tsx:31 | from a positive earlier value, the figure times the earlier value is 100 times the difference |
| SalesChart.GrowthOf | components/SalesChart.tsx:21-33 | no figure exactly when fewer than two months have data; otherwise the percentage change from the second-to-last to the last month with data |
| SalesChart.LastTwo | components/SalesChart.tsx:29-30 | the two months compared are months of the chart at positions i < j, both with a positive value, and no month after i other than j has one |
| SalesChart.LastTwoPositions | components/SalesChart.tsx:25-30 | the last two entries of the filtered chart sit at positions i < j with no month with data after i other than j |
| SalesChart.GrowthSign | components/SalesChart.tsx:29-32 | the growth is positive, zero or negative exactly as the later month is above, equal to or below the earlier; it stays above -100% |
| SalesChart.ChangeSign | components/SalesChart.tsx:31 | a percentage change between positive values has the sign of the difference and is above -100 |
| SalesChart.ToFixed1 | components/SalesChart.tsx:32 | `toFixed(1)`: a minus sign exactly for negative values, and tenths within 0.05 of the absolute value |
| SalesChart.Render | components/SalesChart.tsx:32 | a "-" exactly for negative figures, then decimal digits, a point and one digit, which together read back as the tenths |
| SalesChart.BadgeAsWritten | components/SalesChart.tsx:56-57 | the badge as written: "+" and the positive style whenever `Number(text) >= 0` |
| SalesChart.BadgeAsWrittenShowsPlusMinus | components/SalesChart.tsx:56-57 | sales 10000 then 9999 give the badge "+-0.0%" styled as a rise |
| SalesChart.GrowthBadge | components/SalesChart.tsx:63-64 | corrected badge: positive style exactly for no data or a non-negative growth |
| SalesChart.BadgeSignConsistent | components/SalesChart.tsx:56-57 | the corrected badge carries exactly one sign, which agrees with its style and with the growth |
| SalesChart.TrendLabel | components/SalesChart.tsx:39-47 | "No previous data" when fewer than two months have data |
| SalesChart.LabelMatchesGrowth | components/SalesChart.tsx:35-47 | the label names a month exactly when there is a figure, and that month is the earlier of the two compared |
| PageControls.SubmitSearch | components/OrdersClient.tsx:43-53 | the page becomes "1"; `search` is set to a non-empty term and removed for an empty one; other parameters are untouched |
| PageControls.SubmitSearchIdempotent | components/OrdersClient.tsx:43-53 | submitting the same search twice gives the same URL as once |
| PageControls.ChangePage | components/OrdersClient.tsx:55-59 | only `page` changes, to a numeral that reads back as the new page, with a minus sign exactly when the page is negative |
| PageControls.PagingKeepsSearch | components/OrdersClient.tsx:55-59 | changing page after a search keeps the search term |
| PageControls.ClearSearch | components/OrdersClient.tsx:89-100 | Clear leaves no parameter, so neither search nor page |
| PageControls.Pages | components/OrdersClient.tsx:194 | the candidate pages are 1 .. totalPages in order |
| PageControls.FilterAscending | components/OrdersClient.tsx:195-200 | filtering keeps the page numbers ascending |
| PageControls.VisiblePages | components/OrdersClient.tsx:194-200 | a page has a button exactly when it is in range and is the first, the last or within one of the current page; buttons are ascending |
| PageControls.AtMostFiveButtons | components/OrdersClient.tsx:194-200 | never more than five page buttons |
| PageControls.EndsAndCurrentShown | components/OrdersClient.tsx:197-199 | the first and last pages, and the current one when in range, always have buttons |
| PageControls.EllipsisMarksHiddenPages | components/OrdersClient.tsx:203 | an ellipsis precedes a button exactly when some page between it and the previous button is hidden |
| PageControls.ArrowsStayInRange | components/OrdersClient.tsx:187-224 | from a page in range, the enabled arrows lead to pages in range, and with more than one page at least one arrow is enabled |
| PageControls.ArrowsLeaveRangeAsWritten | components/OrdersClient.tsx:188-220 | as written, Next stays enabled on page 5 of 3 and writes `page=6`, and Previous stays enabled on page -1 and writes `page=-2` |
| PageControls.BoundedArrowsStayInRange | components/OrdersClient.tsx:188-220 | corrected arrows: from any page an enabled arrow never passes the first or last page, out of range the arrow back towards the range is the enabled one, and in range they behave as written |
| PageControls.StatusColor | components/OrdersClient.tsx:61-70 | a status in the enum gets its own colour |
| PageControls.StatusColorsDistinguish | components/OrdersClient.tsx:61-70 | gray exactly for strings outside the enum; distinct statuses get distinct colours |
| PageControls.ItemCount | components/OrdersClient.tsx:148 | "items" in the plural exactly when the count is not 1 |
| OrderDetails.Initial | components/OrderDetailsClient.tsx:30-32 | the page starts by showing the order's status, idle, with no message |
| OrderDetails.ResultOf | app/actions/order.ts:88-109 | the page sees success exactly for an accepted update, and the server's error otherwise |
| OrderDetails.HandleStatusUpdate | components/OrderDetailsClient.tsx:36-55 | choosing the shown status does nothing and calls nothing. Otherwise the server is called. An answered call ends idle: success shows the new status and its message, failure keeps the status and shows the error or "Failed to update status". A rejected call stops at the `await`: the status is kept, the message stays empty and `isUpdating` stays set |
| OrderDetails.RejectedCallLocksButtons | components/OrderDetailsClient.tsx:39-52 | as written, after a rejected call every status button stays disabled and no message is shown |
| OrderDetails.GuardedStatusUpdate | components/OrderDetailsClient.tsx:36-55 | corrected handler: answered calls as written; a rejected call keeps the status, shows "Failed to update status" and counts as refused; the page always ends idle |
| OrderDetails.GuardedCallReleasesButtons | components/OrderDetailsClient.tsx:141 | with the corrected handler, after any click only the shown status's button is disabled |
| OrderDetails.ClickKeepsPageInSync | components/OrderDetailsClient.tsx:42-50 | if the page showed the stored status before a click, it shows the stored status after the server's answer, whatever was requested |
| OrderDetails.StatusButtons | components/OrderDetailsClient.tsx:34 | five buttons, one per status, in the enum's order |
| OrderDetails.EnabledButtonsCallServer | components/OrderDetailsClient.tsx:141 | an enabled button always reaches the server; when idle, exactly the shown status's button is disabled |
| OrderDetails.OneButtonPerStatus | components/OrderDetailsClient.tsx:137-150 | every status has exactly one button |
| OrderDetails.UpperChar | components/OrderDetailsClient.tsx:148 | a letter a-z becomes the matching capital; every other character is kept |
| OrderDetails.ButtonLabel | components/OrderDetailsClient.tsx:148 | the status with its first character upper-cased and the rest kept |
| OrderDetails.LabelLowersToName | components/OrderDetailsClient.tsx:148 | lower-casing a button's label gives back its status name |
| OrderDetails.DetailStatusColor | components/OrderDetailsClient.tsx:57-66 | a status in the enum gets its own colour |
| OrderDetails.DetailColorsDistinguish | components/OrderDetailsClient.tsx:57-66 | gray exactly for strings outside the enum; distinct statuses get distinct colours of the same hue as on the list page |
| OrderDetails.NotFoundShownGreen | components/OrderDetailsClient.tsx:84 | a refused update reporting "Order not found" gets the success colour |
| OrderDetails.BannerMatchesOutcome | components/OrderDetailsClient.tsx:81-91 | corrected banner and handler: after a click that reaches the server, a message is shown, red exactly when the update was refused or the call rejected |
| OrderDetails.LineSubtotal | components/OrderDetailsClient.tsx:189 | non-negative for non-negative quantity and price; zero exactly when either is zero |
| OrderDetails.FooterIsStoredTotal | components/OrderDetailsClient.tsx:200-202 | the footer shows the stored total, which can differ from the sum of the subtotals |
| Onboard.ExpectedSecret | app/api/onboard/route.ts:13 | the environment's secret when set and non-empty, otherwise "super-secret-key-123" |
| Onboard.FindUser | app/api/onboard/route.ts:30 | true exactly when an account has that exact email |
| Onboard.Post | app/api/onboard/route.ts:6-57 | checks in order: connection/body (500), secret (403), email and password present (400), existing account (409), then create (201) or 500; only 201 adds an account |
| Onboard.OnlyCreatedAddsUser | app/api/onboard/route.ts:39-49 | the accounts change exactly on 201, by one admin account for the email with the hashed password |
| Onboard.SecretCheckedFirst | app/api/onboard/route.ts:15-20 | a wrong secret gives 403 whatever the email and password |
| Onboard.OnboardKeepsEmailsUnique | app/api/onboard/route.ts:30-44 | onboarding never creates a second account for one email |
| Onboard.ReplayIsConflict | app/api/onboard/route.ts:30-36 | replaying a successful request gives 409 and adds nothing |

## Left out

- Database plumbing is not modelled: connections, mongoose query builders, `populate`, `lean` and the `JSON.parse(JSON.stringify(...))` copies. Any failure of a read is one `Unavailable` input.
- Write failures are not modelled. A failing `create`, update or delete inside `addProduct`, `updateProduct`, `deleteProduct` and `updateOrderStatus` is left out, and so are their catch messages ("Failed to add product", "Failed to update order status", ...). The status-update page takes any server answer, or a rejected call, as input, so those paths still reach it.
- Zod's error text is left out: `error.message` of a failed parse is a JSON dump of the issues. The model returns the issues themselves.
- Zod's `z.coerce.number()` is not modelled: the form's price and stock arrive as the numbers the coercion produced.
- Product search is a case-insensitive `$regex`. The model treats the term as a literal substring, so regular-expression metacharacters are not modelled.
- `toLowerCase` and `toUpperCase` are modelled on ASCII letters only. Lengths count characters, not UTF-16 code units.
- OrderActions.GetOrders, ProductActions.GetProducts, CustomerActions.GetCustomers: the page is an integer and `limit >= 1` is required. The pages always pass a limit of 10. A fractional `?page=1.5`, which `Number(params.page) || 1` passes through, is not modelled: the skip is then fractional, and what the database does with it is not visible in this code.
- Seqs.SortDesc: the order of documents with equal sort keys is not pinned down. The database leaves it unspecified, and the contracts only require descending keys.
- Money is modelled as exact `real` arithmetic, not IEEE doubles. `toFixed(2)`, `toLocaleString` and `toLocaleDateString` formatting are left out.
- SalesChart.ToFixed1: modelled as round-half-up of the exact value. Ties in binary floating point are not modelled.
- The two `new Date()` calls in `getMonthlyData` are read as one instant (`now`), so a month boundary between them is not modelled. Local time zones are taken as given through `Timestamp.year` and `Timestamp.month`.
- Concurrency is not modelled: `Promise.all`, and last-write-wins between simultaneous status updates.
- `revalidatePath`, router navigation, `router.refresh` and the three-second message-clearing timer are not modelled.
- PageControls.SubmitSearch: the query string is a map. URLSearchParams' key order and repeated keys are not modelled.
- PageControls.StatusColor: the fallback applies to every string outside the enum. The JavaScript lookup `colors[status]` would also hit inherited object keys such as "constructor"; that quirk is left out.
- Onboard.Post: the body fields are optional strings. A non-string truthy JSON value for email or password is not modelled, and bcrypt is an opaque `hash` function.
- Image upload, authentication and the seed scripts are not modelled. They are external services or data generation, not back-office logic.

## Findings

| source | as written | input that shows it | evidently intended | confidence | as-written member | corrected member |
|---|---|---|---|---|---|---|
| components/SalesChart.tsx:56-57 | the badge adds "+" and the rising style when `Number(growth) >= 0`; the text "-0.0" converts to negative zero, which passes | monthly sales 10000 then 9999: growth -0.01% renders "-0.0", and the badge reads "+-0.0%" in green | one sign only, the style following the sign of the growth | high; not executed | SalesChart.BadgeAsWrittenShowsPlusMinus | SalesChart.BadgeSignConsistent |
| components/OrdersClient.tsx:188-220 | Previous is disabled only when `currentPage === 1`, Next only when `currentPage === totalPages` | `?page=5` with 3 pages: the action echoes page 5, Next is enabled and leads to page 6; `?page=-1`: Previous leads to page -2 | arrows disabled from the first page down and from the last page up | medium; not executed | PageControls.ArrowsLeaveRangeAsWritten | PageControls.BoundedArrowsStayInRange |
| components/OrderDetailsClient.tsx:39-52 | the handler sets `isUpdating`, awaits the server action, and clears `isUpdating` only after it, with no `try`/`finally` | a status click whose server call is rejected (the connection drops): the handler stops at the `await` | `isUpdating` cleared and an error shown whatever the call does | medium; not executed | OrderDetails.RejectedCallLocksButtons | OrderDetails.GuardedStatusUpdate |
| components/OrderDetailsClient.tsx:84 | the banner turns red only when the message contains "Failed" or "error" | a status click on an order deleted meanwhile: the server replies "Order not found", shown in green | red for every refused update | medium; not executed | OrderDetails.NotFoundShownGreen | OrderDetails.BannerMatchesOutcome |
