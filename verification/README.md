# Product listing, query link, page count, user registry and orders: a Dafny model

This project models the core of an e-commerce web application (a Node/Express
backend with a React frontend):

- **`ApiFeatures`** (backend/utils/apifeatures.js), the product-listing query builder.
  `search` adds a case-insensitive name condition for the keyword. `filter` turns the
  other query parameters into a field filter: control keys are dropped, `field[op]` keys
  are folded into operator objects, `gt/gte/lt/lte` gain a `$`, and operator values go
  through `Number()`. `pagination` sets `limit` and `skip`. The Mongoose query is a
  record of the `find` conditions it was given, in order, plus its `limit` and `skip`.
- **`getProduct`'s link** (frontend/src/actions/productAction.js). This is the producer
  of the same parameter language. The model covers how the server splits the link back
  into parameters, and the filter that those parameters become.
- **The page-count arithmetic** of the product list page
  (frontend/src/components/layout/Product/Products.js).
- **The in-memory user registry** of backend/index.js: signup and login over the `users`
  array, as state transitions.
- **The order handlers** of backend/controllers/orderController.js: `newOrder`,
  `getSingleOrder`, `myOrders`, `updateOrder` with `updateStock`, and `deleteOrder`.
  They work over an in-memory order store and product-stock map.

JavaScript values are modelled explicitly:

- `Number()` of a string follows ECMAScript StringToNumber. It trims white space, reads
  an empty string as 0, accepts decimals with a fraction and an exponent, `Infinity`,
  and `0x`/`0o`/`0b` literals. Anything else is NaN. The result is an exact real,
  ±Infinity or NaN.
- Truthiness and `x || d` are modelled as JavaScript defines them.
- The strict-mode `TypeError` raised when a bracketed key meets a non-empty plain value
  is an error result.
- The regular-expression rewrite over the serialised JSON is modelled as a token
  rewrite over each serialised string. JSON punctuation is never a word character, and
  a control character escaped by `JSON.stringify` hides the word boundary after it.

Modules, one per file: `Results` (Option and Result), `JsNumber`, `OperatorRewrite`,
`ApiFeatures`, `FilterProperties`, `PaginationProperties`, `ProductAction`,
`ProductQuery` (link to filter), `ProductsPage`, `UserRegistry`, `Orders`.

Three behaviours of the code a reader might not expect, which the model keeps:

- the keyword is not trimmed before the emptiness test;
- a non-numeric operator value becomes NaN and stays in the filter, with no error
  marker;
- `page` is not clamped to at least 1. Page 0 and non-numeric pages act as page 1, but a
  negative page gives a negative skip.

## Model

| member | source | states |
|---|---|---|
| `ApiFeatures.Get` | backend/utils/apifeatures.js:7 | reading a query key gives `undefined` exactly when no pair has that key, and otherwise the value the object holds for it |
| `ApiFeatures.Search` | backend/utils/apifeatures.js:6-16 | the `search` stage appends exactly one condition to the query's `find` list and leaves the query object and the window alone |
| `ApiFeatures.SearchConditionMeaning` | backend/utils/apifeatures.js:7-14 | the search condition has at most the key `name`; it has it iff the keyword is present and non-empty (untrimmed), and then it is a regex on the keyword as given with option `"i"` |
| `ApiFeatures.SearchEmptyKeywordIsAbsent` | backend/utils/apifeatures.js:7 | an empty keyword searches exactly like a missing one |
| `ApiFeatures.StripControl` | backend/utils/apifeatures.js:18-22 | the copy keeps exactly the pairs whose key is not `keyword`, `page` or `limit`, and distinct keys stay distinct |
| `ApiFeatures.CopyOf` | backend/utils/apifeatures.js:18 | the spread copy has exactly the query's keys, each as a plain string holding that key's value |
| `ApiFeatures.SplitFieldOperator` | backend/utils/apifeatures.js:24-25 | a key `field[op]` contains `[` and splits back into exactly `field` and `op` |
| `ApiFeatures.SplitKey` | backend/utils/apifeatures.js:25 | the field taken from a bracketed key never itself contains a bracket |
| `ApiFeatures.Filter` | backend/utils/apifeatures.js:17-51 | the `filter` stage fails iff building the condition throws; otherwise it appends that condition and keeps the query object, so `page` stays readable |
| `ApiFeatures.CurrentPage` | backend/utils/apifeatures.js:53 | `Number(page) or 1` is always truthy: never 0 and never NaN |
| `ApiFeatures.Pagination` | backend/utils/apifeatures.js:52-57 | `pagination(n)` sets the limit to n and a skip, and keeps the find conditions and the query object |
| `ApiFeatures.GetAllProducts` | backend/controllers/productcontroller.js:17 | the product listing runs `find()`, search and filter, in that order, and never sets a limit or a skip |
| `FilterProperties.FilterFailsIffCollision` | backend/utils/apifeatures.js:23-30 | `filter` throws iff a bracketed key names a field that a plain key holds as a non-empty string (an empty one is falsy and gives way) |
| `FilterProperties.BracketsFailure` | backend/utils/apifeatures.js:23-30 | the key loop throws iff some bracketed key meets its field holding a non-empty string |
| `FilterProperties.FilterFields` | backend/utils/apifeatures.js:21-37 | the filter's fields are exactly the rewritten plain keys and bracketed-key fields left once the control keys are gone |
| `FilterProperties.BracketsKeys` | backend/utils/apifeatures.js:23-30 | after the loop, the copy's keys are its old keys less the bracketed keys, plus the fields they name |
| `FilterProperties.FilterControlFields` | backend/utils/apifeatures.js:21-22 | `keyword`, `page` and `limit` appear in the filter only when a bracketed key such as `page[gte]` names them; a plain control key never gets there |
| `FilterProperties.FieldsIgnoreControl` | backend/utils/apifeatures.js:21-22 | deleting the control keys removes no bracketed key |
| `FilterProperties.FilterOperatorValue` | backend/utils/apifeatures.js:23-44 | the value of a bracketed key `field[op]` ends up at `filter[field][op]`, both rewritten, passed through `Number()` (NaN kept); several operators on one field accumulate in one object |
| `FilterProperties.BracketsKeepOperator` | backend/utils/apifeatures.js:26-27 | a later key on the same field never overwrites an operator already stored under a different operator name |
| `FilterProperties.FilterPlainValue` | backend/utils/apifeatures.js:39-44 | a plain key stays an equality filter on its (rewritten) string value, never coerced by `Number()` |
| `OperatorRewrite.RewriteOperatorWord` | backend/utils/apifeatures.js:35 | a one-word operator gains a `$` iff it is `gt`, `gte`, `lt` or `lte`; any other word, such as `ne`, passes through unchanged |
| `OperatorRewrite.UnrewriteRewrite` | backend/utils/apifeatures.js:35 | the rewrite only inserts `$` signs in front of operator words, which removing those `$` signs undoes |
| `OperatorRewrite.RewriteInjective` | backend/utils/apifeatures.js:35-37 | two different strings never rewrite to the same string, so re-parsing never merges two keys |
| `OperatorRewrite.RewriteWithoutOperatorLetters` | backend/utils/apifeatures.js:35 | text with no `g` or `l` (decimal numbers among it) is never rewritten |
| `JsNumber.StringToNumberOfInt` | backend/utils/apifeatures.js:42 | `Number(String(n))` is n for every integer n |
| `JsNumber.NatToStringDenotes` | frontend/src/actions/productAction.js:14 | the decimal rendering of a natural number is a non-empty digit string whose value is that number |
| `JsNumber.StringToNumberOfDigits` | backend/utils/apifeatures.js:53 | a decimal digit string converts to the number it denotes |
| `JsNumber.OrDefault` | frontend/src/components/layout/Product/Products.js:44-45 | the default `x or d` is one of its two operands, and it is truthy iff either operand is, so a truthy default such as 1 is never defeated |
| `JsNumber.Add` | backend/controllers/orderController.js:53 | a sum is NaN exactly when an operand is NaN or the operands are opposite infinities; 0 is neutral on either side; finite operands add exactly |
| `JsNumber.AddCommutes` | backend/controllers/orderController.js:53 | JavaScript addition on numbers commutes (used by `Orders.TotalAmountSwap`) |
| `JsNumber.AddAssociates` | backend/controllers/orderController.js:51-54 | JavaScript addition on exact numbers associates (used by `Orders.TotalAmountOfConcat`); IEEE rounding, which breaks this, is left out |
| `PaginationProperties.FirstPageByDefault` | backend/utils/apifeatures.js:53-55 | an absent, zero or non-numeric `page` skips nothing, and the limit is the page size |
| `PaginationProperties.SkipOfPage` | backend/utils/apifeatures.js:53-54 | a page reading as a finite x skips n × (x − 1); an infinite page skips an infinity of that sign for n > 0, and NaN for n = 0 |
| `PaginationProperties.SkipOfIntegerPage` | backend/utils/apifeatures.js:53-54 | page p skips n × (p − 1); page 0 acts as page 1; a negative page is not clamped, so the skip is negative |
| `PaginationProperties.StagesChain` | backend/utils/apifeatures.js:15-18 | after `search().filter()`, pagination computes the same skip as on the fresh builder, and the conditions come in stage order |
| `PaginationProperties.NonNumericPage` | backend/utils/apifeatures.js:53 | `?page=abc` is read as page 1 |
| `ProductAction.DefaultParameters` | frontend/src/actions/productAction.js:11 | with every argument undefined, the link sends keyword `""`, page 1, price 0 to 25000 and rating 0 |
| `ProductAction.LinkTemplate` | frontend/src/actions/productAction.js:14-17 | the link is the template literal without `&category=` when the category is falsy, and the one with it between `price[lte]` and `rating[gte]` otherwise |
| `ProductAction.CategoryParameter` | frontend/src/actions/productAction.js:15-17 | a `category` parameter is sent iff the category is truthy; otherwise the link equals the one built with no category at all |
| `ProductAction.LinkRoundTrip` | frontend/src/actions/productAction.js:14-16 | splitting the link on `?`, `&` and `=` gives back exactly its parameters iff neither the keyword nor a used category contains `&` or `#` |
| `ProductAction.SplitRender` | frontend/src/actions/productAction.js:14 | when no key holds `&`, `=` or `#` and no value holds `&` or `#`, splitting the rendered query on `&` gives exactly one `key=value` piece per parameter, in order |
| `ProductAction.ParseEncoded` | frontend/src/actions/productAction.js:14 | reading each `key=value` piece back at its first `=` recovers exactly the parameters, when keys hold no `=` |
| `ProductAction.ParseLinkValuesSafe` | frontend/src/actions/productAction.js:14 | no value read back from any link contains `&` or `#`, which is why unsafe keywords cannot survive the round trip |
| `ProductAction.QueryStringOfLink` | frontend/src/actions/productAction.js:14 | the query string read from the link is everything after the endpoint's `?` |
| `ProductQuery.LinkFilter` | frontend/src/actions/productAction.js:14-16 | a `getProduct` link with safe values filters to `price: {$gte, $lte}` and `rating: {$gte}` holding the sent numbers, plus a `category` equality iff one was sent, and nothing else (no keyword, no page) |
| `ProductQuery.NumberThroughFilter` | backend/utils/apifeatures.js:35-42 | a number written into the link comes out of the rewrite and `Number()` as that number |
| `ProductQuery.StripLinkParameters` | backend/utils/apifeatures.js:21-22 | dropping the control keys from the link's parameters leaves the price bounds, the category and the rating, in link order |
| `ProductsPage.SafeCount` | frontend/src/components/layout/Product/Products.js:44 | a missing, zero or non-numeric product count reads as 0; any other count is kept; the result is never NaN |
| `ProductsPage.SafePerPage` | frontend/src/components/layout/Product/Products.js:45 | a missing, zero or non-numeric page size reads as 1, so the divisor is never 0 or NaN |
| `ProductsPage.TotalPagesIsLeastCover` | frontend/src/components/layout/Product/Products.js:47 | for a finite count and a positive finite page size, the page count is the least n with n × perPage ≥ count |
| `ProductsPage.CoverIffAtLeast` | frontend/src/components/layout/Product/Products.js:47 | with a positive page size, m pages cover the count iff m ≥ count / perPage |
| `ProductsPage.NoProductsNoPages` | frontend/src/components/layout/Product/Products.js:44-47 | no products gives 0 pages; the control then shows iff the page size is negative |
| `ProductsPage.MissingPageSizeIsOne` | frontend/src/components/layout/Product/Products.js:45-47 | with no usable page size the page count is the count rounded up |
| `ProductsPage.ShownMeansTwoPages` | frontend/src/components/layout/Product/Products.js:86 | with a positive page size, whenever the pagination control is shown there are at least two pages |
| `UserRegistry.FindByName` | backend/index.js:17 | the lookup finds a record iff some record carries that username |
| `UserRegistry.FindByCredentials` | backend/index.js:28 | the lookup finds a record iff one carries exactly that username and password |
| `UserRegistry.Signup` | backend/index.js:12-23 | a missing or empty field gives 400 and no change; a taken username gives 400 and no change; otherwise the pair is appended and 201 is returned |
| `UserRegistry.Login` | backend/index.js:26-33 | login returns 200 "Login successful" iff some record matches both fields and 401 "Invalid credentials" otherwise; it returns no new array |
| `UserRegistry.SignupAppendsOne` | backend/index.js:21-22 | a successful signup adds exactly one record, at the end, and keeps every earlier one |
| `UserRegistry.SignupKeepsNamesDistinct` | backend/index.js:17-21 | signup keeps usernames pairwise distinct |
| `UserRegistry.ReplayKeepsNamesDistinct` | backend/index.js:17-21 | after any sequence of signups from a valid array, usernames stay pairwise distinct |
| `UserRegistry.LoginAfterSignup` | backend/index.js:21-33 | after a successful signup(u, p), login(u, p) succeeds |
| `UserRegistry.SignupKeepsOtherLogins` | backend/index.js:21-28 | a signup never changes the outcome of logging in with any other credentials |
| `Orders.NewOrder` | backend/controllers/orderController.js:7-24 | the new order holds the body fields, the requester as user and the current time as `paidAt`; other orders and the stock are unchanged; 201 |
| `Orders.GetSingleOrder` | backend/controllers/orderController.js:26-37 | an order is returned iff its id is stored; otherwise the answer is not-found (404) |
| `Orders.MyOrders` | backend/controllers/orderController.js:40 | exactly the stored orders whose user is the requester, unchanged |
| `Orders.DeleteOrder` | backend/controllers/orderController.js:96-101 | an unknown id is a 404 that changes nothing; otherwise exactly that order is removed and the stock kept |
| `Orders.UpdateStock` | backend/controllers/orderController.js:89-93 | one product's stock drops by the quantity, with no lower bound; other products stay as they were |
| `Orders.StockAfterSubtracts` | backend/controllers/orderController.js:72-74 | applying an order's items drops each product's stock by that product's total quantity over the items and adds no product |
| `Orders.UpdateOrder` | backend/controllers/orderController.js:64-93 | an unknown id is a 404, and a delivered order is a 404; neither changes anything. Otherwise the status becomes the requested one and `deliveredAt` is stamped iff it is "Delivered". Each product's stock drops by its quantity in the order, and everything else is unchanged |
| `Orders.UntouchedProduct` | backend/controllers/orderController.js:72-74 | a product that no line item names keeps its stock through an accepted update |
| `Orders.DeliveredIsTerminal` | backend/controllers/orderController.js:69-71 | once an order is delivered, no sequence of updates changes it |
| `Orders.DeliveredRejectsLater` | backend/controllers/orderController.js:69-78 | after an update to "Delivered", with `deliveredAt` set to that time, every later update is rejected and changes nothing |
| `Orders.RepeatedUpdatesSubtractAgain` | backend/controllers/orderController.js:72-75 | two accepted updates of one order subtract its items twice |
| `Orders.StockGoesNegative` | backend/controllers/orderController.js:89-93 | one unit in stock, an order for one unit, and two "Shipped" updates leave a stock of −1 |
| `Orders.NewOrderVisibility` | backend/controllers/orderController.js:18-40 | a new order shows up in its owner's orders and in no other user's, and is found by id |
| `Orders.DeleteThenNotFound` | backend/controllers/orderController.js:97-101 | after a deletion the order is not found, a second deletion is a 404, and it is gone from its owner's orders |
| `Orders.TotalAmountCounterexample` | backend/controllers/orderController.js:51-54 | as written, one order priced 10 totals NaN, while the intended total is 10 |
| `Orders.TotalAmountIsSum` | backend/controllers/orderController.js:51-54 | the corrected total is the finite sum of every order's `totalPrice` |
| `Orders.TotalAmountOfConcat` | backend/controllers/orderController.js:51-54 | the corrected running total over two batches of orders is the sum of the two batches' totals |
| `Orders.TotalAmountSwap` | backend/controllers/orderController.js:50-54 | the corrected total does not depend on which of two batches of orders the store lists first |

## Left out

- Which query parser the server uses. Nothing in backend/app.js chooses one, so the
  model assumes a key such as `price[gte]` reaches `ApiFeatures` as one flat key, as
  Express's "simple" parser leaves it. Express 4's default "extended" parser would nest
  it into `{price: {gte: "10"}}` first; then the bracket loop of `filter` never fires,
  and a plain key and a bracketed key on one field are merged by the parser instead of
  raising the strict-mode `TypeError` that `FilterProperties.FilterFailsIffCollision`
  describes.
- Query-string decoding. The server's parser percent-decodes values and reads `+` as a
  space; the model reads the raw text split on `&` and `=`.
- Repeated keys. The parser turns a repeated key into an array, and `Number()` of a
  two-element array is NaN. The model keeps every pair instead: reading a plain key
  (`ApiFeatures.Get`, `ApiFeatures.CopyOf`) gives its first value, while the bracket
  loop processes every pair of a repeated bracketed key, so its last value is the one
  stored.
- Object prototype keys (`__proto__`, `constructor`, ...) and key order for
  integer-like keys. A query object is a list of pairs in insertion order.
- Floating point. `Number()` is exact over the reals: no rounding to doubles, no
  `-0`, and no exponent form in `String(n)` at 1e21 and beyond. Prices and ratings in
  `getProduct` are integers.
- Strings with lone surrogates: Dafny's `char` has none, so no `\uD8xx` escape arises in
  `JSON.stringify`.
- Mongoose: query execution, `$regex` semantics (the keyword is an unescaped regular
  expression), `populate`, schema defaults and validation. `OrderModel` is not part of
  this model, so a new order's initial status is a parameter.
- `console.debug` and `console.log`.
- Persistence, fresh ids and the clock. `Order.create`, `findById`, `save`,
  `deleteOne` and `Date.now` become a map, a caller-supplied fresh id and a time
  parameter.
- Ordering in `updateOrder`. The source starts one unawaited `updateStock` per line
  item. The model applies them in sequence, so it does not cover two line items of one
  product racing each other.
- `updateStock` on a product that is not in the store throws inside an unawaited
  callback. The model leaves that product's stock unchanged. In the source the
  rejection is unhandled, and backend/server.js:29-35 then closes the server and exits
  the process; server shutdown is not modelled.
- Bodies whose fields are not strings: a numeric username, an undefined `status`, and
  JSON values in the order body. Shipping and payment info are opaque strings.
- The reply objects of the order handlers beyond their status codes.
- Fetching, Redux dispatch and React rendering in `getProduct` and `Products.js`.
- `ProductsPage.TotalPagesIsLeastCover`: stated for a positive finite page size only. A
  negative `resultPerPage` passes through the default of 1 and gives a page count of 0 or less.
- `ProductsPage.ShownMeansTwoPages`: stated for a positive finite page size only, for the
  same reason. With a negative page size the control is shown over at most one page.
- Division by zero in `Products.js` is not modelled, because the divisor there is never
  zero.
- `getAllOrders` is modelled only through its total amount (see Findings). Listing all
  orders is a plain `find()`.

## Findings

| source | as written | input that shows it | evidently intended | confidence | as-written member | corrected member |
|---|---|---|---|---|---|---|
| backend/controllers/orderController.js:51-54 | `totalAmount += orders.totalPrice` adds a property of the array, which is undefined, so the total becomes NaN | one stored order with `totalPrice` 10: the total is NaN | `totalAmount += order.totalPrice`, the sum of the orders' prices (10 here) | high; not executed | `Orders.TotalAmountCounterexample` | `Orders.TotalAmountIsSum` |
