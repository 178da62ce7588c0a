# AGline abaya manager — a Dafny model

AGline is a small shop-management application for an abaya tailor: an
Express/MongoDB back end stores users, orders and designs, and a React front
end lists orders and customers, derives each order's status, computes sales
figures, a per-design sales report and dashboard statistics, and shows or
hides pages and actions by role.

This project models the rules underneath that application and proves what
they promise:

- **Order status** (`status.dfy`): the display-time label of `getStatus`
  (delivered, or new / in progress / delayed by whole days elapsed) and the
  server's write-time label, kept apart; both bands, totality and
  monotonicity in time, and exactly where the two disagree.
- **Schemas** (`schema.dfy`, `records.dfy`, `text.dfy`): the required fields,
  defaults, trimming of design codes and the role enum of the three Mongoose
  models, as functions from a request body to a stored record or a
  validation error.
- **Record store** (`store.dfy`): a class holding the three collections, with
  one method per handler of `backend/server.js` (register, login, list,
  create, toggle delivery, delete) and an invariant (unique usernames and
  design codes, valid records, distinct ids) that every method keeps.
- **Maintenance scripts** (`migrate.dfy`, `seed.dfy`): the in-place backfill
  of `isDelivered` over an array of legacy documents, and the
  insert-if-absent seeding loop over the store; both idempotent.
- **Sales figures** (`totals.dfy`, `report.dfy`, `dashboard.dfy`,
  `tally.dfy`): the shared totals, profit and distinct customers; the Sales
  page's per-design report with its fallback bucket; the dashboard's
  most-frequent customer and design, monthly sums and recent orders. The
  loops of the source are methods with invariants; the folds are functions
  with additivity and conservation lemmas.
- **Client behaviour** (`access.dfy`, `search.dfy`, `customers.dfy`): the
  route guard and route table, the sidebar menu, the landing page after
  login, logout, the admin-only parts of the pages, the three search boxes,
  and the Customers page's local patch after a delivery toggle, proved to
  agree with the server's update.

Money and timestamps are integers (amounts in the smallest currency unit,
times in milliseconds). Notable behaviours of the code, which the model
keeps:

- `PUT /api/orders/:id` with an unknown id answers `null` with status 200,
  not 404 (`Server.RecordStore.UpdateOrder`).
- A duplicate design code fails `save()` on the unique index and answers
  500, not 400 (`Server.RecordStore.CreateDesign`).
- There is no design-update route; only create, list and delete exist.
- The distinct customer list keeps the order of first appearance, which the
  code produces with `[...new Set(...)]` (`SalesTotals.UniqueCustomersSpec`).
- The only order update is the delivery toggle: no page edits an order or a
  design, and no server route checks a role.

## Model

| member | source | states |
|---|---|---|
| OrderStatus.GetStatus | frontend/src/pages/Orders.jsx:11-22 | delivered iff the label is the delivered one; no creation date gives "New"; otherwise "New" iff at most 2 whole days elapsed (future dates included), "In Progress" iff 3 to 13, "Delayed" iff 14 or more |
| OrderStatus.TextInjective | frontend/src/pages/Orders.jsx:12-21 | the four label texts are pairwise distinct, so every input yields exactly one label |
| OrderStatus.ElapsedDaysMonotonic | frontend/src/pages/Orders.jsx:17 | the floored day count never decreases as `now` grows |
| OrderStatus.StatusMonotonic | frontend/src/pages/Orders.jsx:17-21 | for an undelivered order the label never moves back in New, In Progress, Delayed as time passes, and never becomes delivered |
| OrderStatus.AgeScenarios | frontend/src/pages/Orders.jsx:11-22 | orders 1, 5 and 20 days old are New, In Progress and Delayed; a delivered order is delivered at any age |
| OrderStatus.WriteTimeStatus | backend/server.js:110 | the stored status is the delivered text for a truthy flag and "New" otherwise, whatever the age |
| OrderStatus.WriteTimeAndDisplayDisagree | backend/server.js:110 | an undelivered order 14 or more days old is stored as "New" but displayed as "Delayed" |
| OrderStatus.WriteTimeAgreesWhenFresh | backend/server.js:110 | on delivered orders and on orders at most 2 days old the stored and displayed labels agree |
| OrderStatus.DisagreeIff | backend/server.js:110 | the stored label differs from the displayed one iff the order is undelivered and 3 or more whole days old |
| Records.ParseRole | backend/models/User.js:6 | the role enum accepts exactly "admin" and "user" |
| Records.ParseRoleName | backend/models/User.js:6 | a role's name parses back to that role |
| Text.ToLower | frontend/src/pages/Orders.jsx:120 | lower-casing keeps the length and maps each letter A-Z to a-z, leaving other characters |
| Text.ToLowerIdempotent | frontend/src/pages/Orders.jsx:120-122 | lower-casing twice equals lower-casing once |
| Text.TrimSpec | backend/models/Design.js:9 | the trimmed code has no surrounding white space and is a contiguous slice of the input with only white space cut away |
| Text.TrimIdempotent | backend/models/Design.js:9 | trimming twice equals trimming once |
| Text.TrimAllSpaces | backend/models/Design.js:9 | a string of white space trims to the empty string |
| Schema.MissingOrderFields | backend/models/Order.js:4-11 | the list of failed paths is empty iff the seven text fields are present and non-empty and a price is given; it names price iff price is missing |
| Schema.NewOrder | backend/models/Order.js:3-17 | rejected iff a required path is missing (with exactly those paths); otherwise supplied fields are kept as given, including a client createdAt, and deposit 0, isDelivered false, status "New" and createdAt now are the defaults |
| Schema.CastCode | backend/models/Design.js:9 | the code reaching validation is the trimmed code |
| Schema.MissingDesignFields | backend/models/Design.js:5-30 | validation passes iff the trimmed code is non-empty, both prices are given and the image is non-empty |
| Schema.NewDesign | backend/models/Design.js:3-35 | rejected iff validation fails; otherwise the code is stored trimmed, prices and image as given, notes default to "", both timestamps are the creation time |
| Schema.BlankCodeRejected | backend/models/Design.js:5-10 | a code made only of white space is rejected |
| Schema.NewUser | backend/models/User.js:3-7 | accepted iff username and password are non-empty and the role is absent, "admin" or "user"; an absent role becomes "user" |
| Server.FindUser | backend/server.js:57 | finds a user with that name when one exists, none otherwise |
| Server.FindUserAppend | backend/server.js:39 | appending a user changes a lookup only for a name that was absent |
| Server.FindUserUnique | backend/server.js:57-66 | with unique usernames the lookup returns the only user of that name |
| Server.OrderIndex | backend/server.js:105 | finds the position of an order with that id, or reports that none has it |
| Server.SetDelivery | backend/server.js:104-112 | only `isDelivered` and `status` change; the flag is set when the body carries it and the status follows the write-time rule |
| Server.DeliveryRoundTrip | backend/test_toggle.js:23-38 | marking delivered then undelivered ends at not delivered with status "New", every other field unchanged |
| Server.RemoveOrderSpec | backend/server.js:125 | deleting keeps exactly the orders with other ids, in order, and changes nothing for an absent id |
| Server.RemoveDesignSpec | backend/server.js:160 | the same for designs |
| Server.RemoveDesignDropsCode | backend/server.js:158-165 | after deleting a design no design with its code remains |
| Server.RecordStore.constructor | backend/server.js:29-30 | the three collections start empty and the store satisfies its invariant |
| Server.RecordStore.FindUserByName | backend/server.js:39 | the loop returns the first user with that name |
| Server.RecordStore.SaveUser | backend/server.js:42-43 | an invalid body or a taken username stores nothing; otherwise exactly the built user is appended under a fresh id |
| Server.RecordStore.Register | backend/server.js:35-49 | an existing username answers 400 and adds nothing; an invalid body adds nothing; otherwise exactly one user is added and the reply carries username and role only |
| Server.RecordStore.Login | backend/server.js:53-77 | succeeds iff a stored user has exactly that username and password, answering that user's username, role and id; every failure is the same 401 reply |
| Server.RecordStore.ListOrders | backend/server.js:81-88 | the listing is a permutation of the stored orders sorted by createdAt, newest first |
| Server.RecordStore.CreateOrder | backend/server.js:91-99 | the answer is the schema's result; a valid order is appended, an invalid one stores nothing |
| Server.RecordStore.UpdateOrder | backend/server.js:102-119 | an unknown id answers null and changes nothing; otherwise only the addressed order changes, by the delivery update, and it is returned |
| Server.RecordStore.DeleteOrder | backend/server.js:123-130 | removes only the order with that id and always answers "Order deleted" |
| Server.RecordStore.ListDesigns | backend/server.js:137-144 | a permutation of the stored designs sorted by createdAt, newest first |
| Server.RecordStore.CreateDesign | backend/server.js:147-155 | an invalid body or a trimmed code already stored fails and stores nothing; otherwise the design is appended; code uniqueness is kept |
| Server.RecordStore.DeleteDesign | backend/server.js:158-165 | removes only the design with that id, leaves orders alone and always answers "Design deleted" |
| MigrateOrders.Backfill | backend/migrate_orders.js:30-33 | a document lacking the flag gets `false`; one that has it is unchanged; no other field changes |
| MigrateOrders.BackfillIdempotent | backend/migrate_orders.js:30-33 | after the migration nothing lacks the flag, so a second run matches nothing and changes nothing |
| MigrateOrders.NothingToMigrate | backend/migrate_orders.js:31 | a collection where every document has the flag is left unchanged |
| MigrateOrders.Migrate | backend/migrate_orders.js:30-37 | the array is rewritten in place to the backfilled collection; the matched count is the number of documents lacking the flag and the modified count equals it |
| SeedUsers.SeedAccountsValid | backend/seed_users.js:13-16 | both seed accounts pass the User schema |
| SeedUsers.SeedStep | backend/seed_users.js:18-26 | each iteration keeps the users or appends exactly that seed account |
| SeedUsers.SeedKeepsUsers | backend/seed_users.js:18-26 | the users present before are kept, in place |
| SeedUsers.SeedAddsOnlySeeds | backend/seed_users.js:18-26 | every added user is a seed account |
| SeedUsers.SeedLookups | backend/seed_users.js:19-25 | after the loop both seed names exist, and a name that already existed still finds the same user, password and role |
| SeedUsers.SeedCount | backend/seed_users.js:19-22 | one user is added per seed name that was missing |
| SeedUsers.SeedIdempotent | backend/seed_users.js:13-26 | after one run both accounts exist and a second run adds nothing |
| SeedUsers.Seed | backend/seed_users.js:18-26 | the loop over the store produces exactly the users and next id of the seeding function, and leaves orders and designs alone |
| Seqs.SetSpreadIsFirstOccurrences | frontend/src/context/DataContext.jsx:39 | spreading a `Set` built in order gives the first occurrences of the list |
| SalesTotals.FindDesign | frontend/src/context/DataContext.jsx:50 | returns the first design with that code, or none when no design has it |
| SalesTotals.OrderProfit | frontend/src/context/DataContext.jsx:48-53 | an undelivered order or one with no matching design adds 0; otherwise price minus the first matching design's cost |
| SalesTotals.SalesTotalAppend | frontend/src/context/DataContext.jsx:43-45 | the sales total of `a + b` is the total of `a` plus the total of `b` |
| SalesTotals.ProfitAppend | frontend/src/context/DataContext.jsx:48-53 | the profit of `a + b` is the profit of `a` plus the profit of `b` |
| SalesTotals.UndeliveredMakeNoProfit | frontend/src/context/DataContext.jsx:49 | orders none of which is delivered make no profit |
| SalesTotals.DeliveryMovesSale | frontend/src/context/DataContext.jsx:44 | toggling an order delivered moves it from its deposit to its price in the total and from no profit to price less cost when a design matches |
| SalesTotals.UniqueCustomersSpec | frontend/src/context/DataContext.jsx:39 | the customers are the names in order of first appearance, each once, and a name is listed iff some order carries it |
| SalesTotals.DataProvider.constructor | frontend/src/context/DataContext.jsx:6-9 | empty lists and sales of 0 and 0 initially |
| SalesTotals.DataProvider.Receive | frontend/src/context/DataContext.jsx:36-57 | fetched lists are stored; with orders, customers and sales are recomputed; with none, both keep their previous values |
| SalesReport.BucketCode | frontend/src/pages/Sales.jsx:14-33 | a delivered order goes to its own code when a design carries it, to the fallback bucket otherwise |
| SalesReport.ProfitShare | frontend/src/pages/Sales.jsx:16 | the profit added is price minus the matching design's cost, or 0 without a match |
| SalesReport.IndexOfCode | frontend/src/pages/Sales.jsx:18 | finds the bucket with that code, or reports that none has it |
| SalesReport.AddSpec | frontend/src/pages/Sales.jsx:18-29 | one step appends a new code or keeps the codes, adds 1 to the counts and the amounts to the sales and profit columns |
| SalesReport.TabulateCodes | frontend/src/pages/Sales.jsx:18-25 | the bucket codes are the distinct bucket keys in order of first appearance |
| SalesReport.TabulateConserves | frontend/src/pages/Sales.jsx:27-42 | counts sum to the number of orders, sales to the sum of their prices and profits to the sum of their shares |
| SalesReport.AddKeepsProfitConsistent | frontend/src/pages/Sales.jsx:27-29 | one step keeps each bucket's profit equal to sales minus count times its design's cost, and the fallback's at 0 |
| SalesReport.TabulateProfits | frontend/src/pages/Sales.jsx:14-43 | every matched bucket's profit is its sales minus count times its design's cost, every non-fallback code is some design's code, and the fallback bucket's profit is 0 |
| SalesReport.UnmatchedGoToFallback | frontend/src/pages/Sales.jsx:30-41 | a delivered order with no matching design makes the fallback bucket exist |
| SalesReport.DeletedDesignFallsBack | frontend/src/pages/Sales.jsx:30-44 | after its design is deleted an order lands in the fallback bucket with no profit, and adds no profit to the shared figures |
| SalesReport.ReportProfitMatchesTotals | frontend/src/pages/Sales.jsx:16 | the report's profit over delivered orders equals the shared profit over all orders |
| SalesReport.BuildReport | frontend/src/pages/Sales.jsx:8-49 | only delivered orders enter; codes are distinct; counts sum to the delivered count, sales to their prices, profits to the shared profit; every bucket's profit is consistent |
| SalesReport.SalesPage.constructor | frontend/src/pages/Sales.jsx:6 | the summary starts empty |
| SalesReport.SalesPage.Refresh | frontend/src/pages/Sales.jsx:8-49 | with orders the summary is rebuilt from scratch; without orders it is kept |
| Tally.IndexOfKey | frontend/src/pages/Dashboard.jsx:20 | finds the entry with that key, or reports that none has it |
| Tally.GroupSpec | frontend/src/pages/Dashboard.jsx:36-41 | the grouped table has one entry per distinct key in order of first appearance, holding the sum of that key's values |
| Tally.GroupTotal | frontend/src/pages/Dashboard.jsx:36-41 | the grouped sums add up to the sum of all values |
| Tally.SumAtAbsent | frontend/src/pages/Dashboard.jsx:20 | a key no contribution carries sums to 0 |
| Dashboard.GroupInPlace | frontend/src/pages/Dashboard.jsx:19-20 | the `forEach` builds the grouped table: distinct keys, per-key sums, total preserved |
| Dashboard.TopEntry | frontend/src/pages/Dashboard.jsx:21 | picks the key of an entry whose count is at least every other count |
| Dashboard.MostFrequent | frontend/src/pages/Dashboard.jsx:17-22 | "-" for no orders; otherwise a key occurring in the list at least as often as any other |
| Dashboard.OnesTotal | frontend/src/pages/Dashboard.jsx:20 | counting one per order sums to the number of orders |
| Dashboard.CountsSumToOrders | frontend/src/pages/Dashboard.jsx:20 | the per-key counts sum to the number of orders |
| Dashboard.MostFrequentScenario | frontend/src/pages/Dashboard.jsx:17-22 | for two orders from "Aisha" and one from "Mona" the only admissible answer is "Aisha" |
| Dashboard.MonthPricesTotal | frontend/src/pages/Dashboard.jsx:37-40 | the monthly contributions sum to the price of every order |
| Dashboard.MonthLabels | frontend/src/pages/Dashboard.jsx:35-42 | the month labels of the bars are distinct and are exactly the months some order was created in |
| Dashboard.MonthlySales | frontend/src/pages/Dashboard.jsx:35-42 | exactly one bucket per month label of some order, in order of first appearance, every order's month present, each bucket the sum of its orders' prices, all buckets summing to every order's price, delivered or not |
| Dashboard.RecentOrders | frontend/src/pages/Dashboard.jsx:48 | the last min(5, n) orders of the list, the last one first (element i is the list's element n-1-i) |
| Dashboard.RecentOrdersAreOldest | frontend/src/pages/Dashboard.jsx:48 | on the newest-first list `GET /api/orders` answers (backend/server.js:83), the recent orders are in ascending `createdAt` and none is newer than any order left out: the page shows the oldest orders |
| Dashboard.RecentOrdersMissNewest | frontend/src/pages/Dashboard.jsx:48 | on that list with more than five orders, the first (newest) order is not shown when it is strictly newer than the fifth from the end |
| Dashboard.LatestOrders | frontend/src/pages/Dashboard.jsx:47-48 | the intended box: the first min(5, n) orders of the list, a prefix of it |
| Dashboard.LatestOrdersNewestFirst | frontend/src/pages/Dashboard.jsx:47-48 | on the newest-first list the intended box is newest first and every order it shows is at least as new as every order it leaves out |
| Dashboard.Compute | frontend/src/pages/Dashboard.jsx:10-48 | counts and sales as given; most active customer and most ordered design are "-" without orders and otherwise maximal keys of orders; the top design is the first design with that code; the monthly buckets and recent orders as above |
| Search.SearchOrders | frontend/src/pages/Orders.jsx:118-127 | a subsequence keeping exactly the orders whose lower-cased name, code or place, or whose phone, contains the lower-cased term |
| Search.SearchCustomers | frontend/src/pages/Customers.jsx:93-101 | the same over name, phone and code only |
| Search.SearchDesigns | frontend/src/pages/Designs.jsx:51-58 | a subsequence keeping exactly the designs whose lower-cased code or notes contain the lower-cased term |
| Search.EmptyTermKeepsAll | frontend/src/pages/Orders.jsx:118-127 | an empty term keeps every record on all three pages |
| Search.TermCaseIgnored | frontend/src/pages/Orders.jsx:120 | a term and its lower-cased form find the same records |
| Search.CustomerSearchIgnoresLocation | frontend/src/pages/Customers.jsx:93-101 | the Customers search finds a subset of the Orders search, differing only by delivery place, which it never reads |
| Access.ProtectedRoute | frontend/src/App.jsx:16-28 | no stored user redirects to "/", a role outside the allowed ones redirects to "/customers", and the page renders iff a stored role is allowed |
| Access.RouteTable | frontend/src/App.jsx:54-96 | "/" is open; dashboard and sales admit only admins; the other five pages admit both roles; with nothing stored every protected page redirects to "/" |
| Access.FallbackAdmitsEveryone | frontend/src/App.jsx:80-84 | the redirect target admits every role |
| Access.SidebarRole | frontend/src/components/Sidebar.jsx:7-8 | a missing stored user counts as role "user" |
| Access.MenuByRole | frontend/src/components/Sidebar.jsx:10-18 | an admin sees all five items; a user sees exactly Orders, Customers and Designs, in that order |
| Access.MenuItemsAreAdmitted | frontend/src/components/Sidebar.jsx:10-18 | the visible items keep the menu order and each links to a page the route guard admits for that role |
| Access.LandingPage | frontend/src/pages/Login.jsx:25-29 | admins land on the dashboard, any other role on the customers page |
| Access.LandingPageAdmits | frontend/src/pages/Login.jsx:25-29 | the landing page admits the session just stored |
| Access.Browser.constructor | frontend/src/pages/Login.jsx:6-8 | nothing stored, the login page shown and no error message at first |
| Access.Browser.HandleLogin | frontend/src/pages/Login.jsx:22-31 | success stores the server's answer and goes to the landing page; failure shows the server's message or "Invalid credentials" and changes neither stored user nor location |
| Access.Browser.Logout | frontend/src/components/Sidebar.jsx:20-23 | the stored user is removed and the location is "/" |
| Access.LoggedOutIsLockedOut | frontend/src/App.jsx:19-21 | with nothing stored every protected page redirects to "/" |
| Access.DesignCardFor | frontend/src/pages/Designs.jsx:61-85 | cost shown iff admin, delete button iff admin, selling price always, placeholder image iff the image is empty |
| Access.DeleteColumn | frontend/src/pages/Orders.jsx:68-69 | the delete column exists iff the stored role is admin |
| Access.StoredDesignCard | frontend/src/pages/Designs.jsx:70 | a stored design never shows the placeholder, and a non-admin never sees the cost |
| CustomersPage.ReplaceDelivery | frontend/src/pages/Customers.jsx:31-37 | same length; orders with other ids unchanged; the matching order changes only in `isDelivered` and `status` |
| CustomersPage.ReplaceMatchesServer | frontend/src/pages/Customers.jsx:31-37 | on a copy of the server's list the local patch gives exactly the server's updated list, and an unknown id leaves it unchanged |
| CustomersPage.CustomersView.constructor | frontend/src/pages/Customers.jsx:4 | the page's list starts empty and the page has not crashed |
| CustomersPage.CustomersView.Load | frontend/src/pages/Customers.jsx:8-14 | the list becomes the fetched orders |
| CustomersPage.CustomersView.ToggleDelivered | frontend/src/pages/Customers.jsx:20-41 | the server is asked for the negated flag; an id the server does not know changes no list, and crashes the page iff the page still lists an order with that id (the updater reads a field of `null`); otherwise the server updates that order and the page patches only it |
| CustomersPage.ToggleKeepsCopyInSync | frontend/src/pages/Customers.jsx:20-41 | a copy equal to the server's list stays equal through a toggle and never crashes the page |

## Left out

- HTTP, Express routing, CORS, body limits, the MongoDB connection, `fetch` and `Promise.all`: the store is an in-memory object and requests are method calls; database and network failures (the 500 replies of the `catch` blocks other than validation and duplicate keys) are not modelled.
- Date parsing and the locale's month names: timestamps are integers and the month label is a function parameter of `Dashboard.MonthlySales`; an unparseable `createdAt` (which yields NaN and ends "Delayed") is not modelled.
- JavaScript numbers: money is an unbounded integer, so float rounding and the chart's bar percentages are left out. The price is required by the schema. A deposit left blank on the order form is sent as `""`, which Mongoose stores as `null` (the default 0 applies only to an absent field); the front end's `o.deposit || 0` fallback reads it as 0, so the model's deposit 0 stands for both a stored 0 and a stored `null`.
- SalesReport.TabulateCodes: the rows are stated in order of first appearance, which is what `Object.values` yields only when no abaya code is an integer-like string; integer-like codes come first in ascending numeric order in the program, and that reordering is not modelled, so SalesReport.BuildReport and SalesReport.SalesPage.Refresh state the rows in first-appearance order too.
- SalesReport.TabulateConserves: the report is a plain JavaScript object keyed by abaya code, and a code that names an inherited member of `Object.prototype` ("constructor", "toString", "__proto__", ...) is not modelled: there `!report[code]` is false, no row is created, the count is written as NaN onto the inherited member, and the order is missing from `Object.values(report)`. The model treats every code as an ordinary key, so SalesReport.TabulateCodes and the conservation of orders and sales hold only for codes that are not such names.
- Dashboard.GroupInPlace: the `count` object of the most-frequent scans has the same quirk: for a customer name or code such as "toString", `count[k] || 0` is the inherited function and `+ 1` concatenates text instead of counting; the model counts every key from 0, so Dashboard.MostFrequent and Dashboard.CountsSumToOrders hold only for keys that are not inherited member names.
- Dashboard.MostFrequent: states only "a key with the largest count"; the scan returns the first such entry, as the stable sort does, but object key order (integer-like keys first) is not modelled; a customer literally named "-" is indistinguishable from the no-orders answer.
- Server.RecordStore.ListOrders: the order among records with equal `createdAt` is not stated; the same holds for Server.RecordStore.ListDesigns.
- Text.ToLower: lower-cases ASCII letters only; Unicode case mapping is not modelled, so the search contracts hold for that lower-casing.
- Schema.NewUser: the username is a string, so a request with no username at all (where Mongoose drops the undefined filter and `findOne` matches any user) is not modelled.
- Schema.NewOrder: values are already typed; Mongoose's casting of strings to numbers or booleans and the truthiness of a non-boolean `isDelivered` are not modelled.
- SalesReport.TabulateProfits: a design whose code is literally "Other / Deleted Design" shares the fallback bucket; the fallback's zero profit is stated only when no design has that code.
- Access.Browser: the stored user is the login answer or nothing; hand-edited local storage holding other JSON is not modelled.
- The form pages `AddOrder.jsx` and `AddDesign.jsx`, image upload, all rendering and styles, and the scripts that talk to a live server (`debug_mongo.js`, `test_toggle.js`, `test_login.js`, `reproduce_issue.js`, used only as evidence).
- Password hashing and server-side role checks: the application has neither.

## Findings

| source | as written | input that shows it | evidently intended | confidence | as-written member | corrected member |
|---|---|---|---|---|---|---|
| frontend/src/pages/Dashboard.jsx:47-48 | `orders.slice(-5).reverse()` takes the end of the list, but the list comes from `GET /api/orders` sorted newest first (backend/server.js:83), so the "Recent Orders" box shows the five oldest orders, oldest first | six orders created on days 6, 5, 4, 3, 2, 1 (the server's order): the box shows days 1, 2, 3, 4, 5 and omits day 6, the newest | the five newest orders, newest first, `orders.slice(0, 5)` | high; not executed | Dashboard.RecentOrdersAreOldest (with Dashboard.RecentOrdersMissNewest) | Dashboard.LatestOrdersNewestFirst (about Dashboard.LatestOrders) |

Dashboard.Compute keeps the page as written (`recent` is Dashboard.RecentOrders), so that the dashboard model stays faithful to the code; Dashboard.LatestOrders is the intended definition, with its property proved.
