# Order and product administration: database behaviour of three handlers

This project models the server-side database logic of a small inventory and
order administration panel. There are three request handlers:

- **products.php** handles two kinds of request. A POST that carries a
  non-empty `deleteItems` list deletes those products in one statement: the
  handler builds one `?` placeholder per id and binds every id as an integer. The
  delete request then ends with an empty response: the outcome message is stored
  but never sent or logged, and `Products.Page.Deleted` carries that unsent
  value. Any other request reads the whole `products` table. The page then shows each row
  with a stock class, icon, tooltip and availability. These are computed from
  `stockLevel` and `restockLevel` alone.
- **update_order.php** runs three statements in order, with no transaction:
  1. it updates the order header by id;
  2. it updates each listed order item, matched by item id and order id;
  3. it updates every user with the posted email, using the customer name split
     at its first space.

  Strict mysqli reporting is on, so any failing statement raises, and the handler
  catches the exception at its top level. The remaining statements are skipped
  and the writes already done stay. The response carries the exception's message.
- **get_order.php** inner-joins the order with its user and its items. It
  regroups the flat rows into one header and an ordered list of items. The
  header comes from the first row and the items come one per row.

The database is four in-memory tables (`Schema.Tables`), held in the
`Schema.Database` class, whose fields the handlers reassign. A failing statement
is an injected outcome:

- products.php and get_order.php take flags saying whether prepare and execute
  succeed;
- update_order.php takes a map from each statement (header, item entry number
  *k*, user) to the message of the exception that statement raises.

Each handler is a method on the database. The update handler is proved equal to
`UpdateOrder.Handle`, a function over table snapshots. The lemmas about
`Handle` state the frame, fault, last-entry-wins and idempotence properties.

Behaviour of the code that the model keeps as written:

- **Item failures abort the request.** update_order.php:15 turns on strict
  reporting, so a failing item or user statement raises. The request then reports
  failure, and later items and the user update do not run. No failure is
  swallowed.
- **Two messages cannot occur.** For the same reason, "Failed to update order."
  and "Failed to prepare update statement for orders."
  (update_order.php:97, update_order.php:100) are never produced. Under strict
  reporting, `prepare` and `execute` raise instead of returning false. The model
  therefore has no path to them.
- **Item prices are truncated.** update_order.php:68 binds an item's price with
  type `i`, so the price is cut to an integer toward zero before it is stored
  (`UpdateOrder.PriceBoundAsInteger`). The quantity is bound as `d`, which does
  not change an integer below 2^53 in magnitude.
- **A one-word name gets a trailing space.** A name without a space is stored
  with an empty last name. get_order.php then displays it followed by a space
  (`GetOrder.SplitThenJoin`).
- **Orders without items or users are "not found".** An order that has no items,
  or whose `user_id` matches no user, yields no joined rows. The reply is then
  "Order not found".

## Model

| member | source | states |
|---|---|---|
| `Text.Copies` | products.php:14-19 | `array_fill`/`str_repeat`: exactly `n` elements, each equal to the given value |
| `Text.IndexOf` | update_order.php:84 | the position of the first space: absent iff the string has no space; otherwise a space stands there and none stands before it |
| `Products.PlaceholdersShape` | products.php:14 | the placeholder list has length `2n-1` (0 for no ids) and alternates `?` and `,`, starting and ending with `?` |
| `Products.PlaceholderCount` | products.php:14 | the placeholder list holds exactly one `?` per id |
| `Text.Implode` | products.php:14 | definition: PHP's `implode`, the parts with the separator between neighbours |
| `Products.Placeholders` | products.php:14 | definition: `implode(',', array_fill(0, n, '?'))`; its shape and count are stated by `PlaceholdersShape` and `PlaceholderCount` |
| `Products.BindTypes` | products.php:19 | definition: `str_repeat('i', n)`, which `Copies` states is `n` letters `i` |
| `Products.DeleteStatement` | products.php:14-19 | the SQL text holds exactly as many `?` as the bind type string has letters, which is one per id; every letter is `i` |
| `Products.Remaining` | products.php:15-20 | after the delete, a row remains iff it was in the table and its ItemID is not listed; remaining rows are unchanged values of the old table |
| `Products.RemainingTwice` | products.php:15 | deleting list `a` and then list `b` gives the same table as deleting `a + b` at once |
| `Products.RemainingSameIds` | products.php:15 | only the set of listed ids matters, not their order or repetition |
| `Products.RemainingIdempotent` | products.php:15 | repeating the same delete gives the same table as doing it once |
| `Products.RemainingIgnoresAbsentIds` | products.php:15 | adding ids that match no product does not change the result |
| `Products.RemainingNothingListed` | products.php:15 | a delete whose ids all match no product leaves the table as it was |
| `Products.DeleteOutcome` | products.php:18-31 | "Selected products have been deleted." iff prepare and execute succeed; "Error deleting products." iff only execute fails; "Failed to prepare statement." iff prepare fails |
| `Products.Classify` | products.php:705-720 | on zero stock: class `low-stock`, exclamation icon and the "set to Out of Stock" tooltip; availability "Available" iff stock > 0, otherwise "Out of Stock", never "Pre-Order"; `low-stock` iff stock is 0 or below the restock level; exclamation icon iff stock < 10; a tooltip iff `low-stock`, and "Low stock" then when stock is non-zero |
| `Products.RowIgnoresStoredAvailability` | products.php:706-738 | the rendered row is the same whatever the stored `availabilityStatus` holds, and it never shows "Pre-Order" |
| `Products.IsDeleteRequest` | products.php:5 | definition: the delete branch runs for a POST with a non-empty `deleteItems` |
| `Products.RenderRow` | products.php:722-746 | definition: a row shows the product's stored ItemID, image, name, SKU, price, category, volume and expiration date, and the stock view `Classify` gives |
| `Products.RenderRows` | products.php:703-747 | the fetch loop renders one row per product, in table order, each from that product |
| `Products.HandleProducts` | products.php:5-46 | a POST with a non-empty list deletes exactly the listed products when prepare and execute succeed, leaves the table unchanged otherwise, and ends with the outcome message as the value of the unsent `$responseMessage` (the response body is empty); any other request changes no table and yields the failure message, the "No products found" page, or one rendered row per product; orders, items and users never change |
| `UpdateOrder.SplitName` | update_order.php:84-86 | the first name holds no space; with a space in the name, first + " " + last is the name, so the last name is everything after the first space; without one, the result is (name, "") |
| `UpdateOrder.SetHeader` | update_order.php:41-52 | only orders whose id is `order_id` change, and only in total_amount, status, shipment_date, promo_code and delivery_address, which take the posted values |
| `UpdateOrder.PriceBoundAsInteger` | update_order.php:60-68 | the price bound with type `i` is truncated toward zero: within 1 of the posted price, on the side of zero |
| `UpdateOrder.Targets` | update_order.php:62-65 | definition: the item statement matches a row by item id AND order id |
| `UpdateOrder.Patch` | update_order.php:62-69 | definition: a matched row takes the entry's quantity and the integer-bound price |
| `UpdateOrder.SetItem` | update_order.php:57-69 | only the row with the entry's id AND the request's order id changes, and only in quantity and price (the price truncated) |
| `UpdateOrder.SetUser` | update_order.php:76-91 | every user whose email equals the posted email gets the new first name, last name and city; no id or email changes; no other user changes |
| `UpdateOrder.Steps` | update_order.php:49-92 | definition: a POST runs the header statement, one statement per item entry in list order, then the user statement; what running them means is stated by `StepsApply` and `RunStopsAtFirstFault` |
| `UpdateOrder.ApplyStep` | update_order.php:41-91 | the effect of one statement that succeeds: header, item entry or user update; products never change |
| `UpdateOrder.ApplyAll` | update_order.php:41-91 | the effect of a list of statements that all succeed, in order; products never change |
| `UpdateOrder.Run` | update_order.php:15 | running the statements in order: no exception iff no statement fails, and then every write is applied; a raised message is one of the injected ones; products never change |
| `UpdateOrder.Handle` | update_order.php:20-107 | a non-POST returns success=false with "Invalid request method." and changes nothing; success=true iff it is a POST and no statement fails, with the success message; otherwise the message is the raised exception's |
| `UpdateOrder.RunStopsAtFirstFault` | update_order.php:15 | when statement `k` is the first to fail, the tables hold exactly the writes of the statements before it, and the request reports that statement's exception |
| `UpdateOrder.ApplyAllConcat` | update_order.php:49-92 | running two lists of statements one after the other is running their concatenation |
| `UpdateOrder.StepsApply` | update_order.php:41-91 | a request whose statements all succeed updates the header, applies every entry in order, then updates the users with the split name |
| `UpdateOrder.ItemStepsApply` | update_order.php:57-72 | the first `n` item statements apply the first `n` entries in order |
| `UpdateOrder.ApplyEntries` | update_order.php:57-72 | the item table after the entries ran in list order with none failing: one row per table row; what each row holds is stated by `LastEntryWins` |
| `UpdateOrder.LastEntry` | update_order.php:57-72 | the last entry with a given id: absent iff no entry has that id; otherwise no later entry has it |
| `UpdateOrder.LastEntryWins` | update_order.php:57-72 | after the loop, each row of the order takes the quantity and (truncated) price of the last entry with its id; rows of other orders, and rows that no entry names, are untouched |
| `UpdateOrder.FailedHeaderChangesNothing` | update_order.php:49-52 | a failing header statement leaves every table unchanged and reports its exception |
| `UpdateOrder.ItemFaultKeepsEarlierWrites` | update_order.php:57-72 | a failing item statement keeps the header write and the earlier entries, skips later entries and the user update, and reports failure |
| `UpdateOrder.UserFaultKeepsOrderWrites` | update_order.php:88-92 | a failing user statement keeps the header and all item writes, leaves users unchanged, and reports failure |
| `UpdateOrder.SetHeaderIdempotent` | update_order.php:41-52 | a second header update with the same payload changes nothing |
| `UpdateOrder.ApplyEntriesIdempotent` | update_order.php:57-72 | a second run of the same entries changes nothing |
| `UpdateOrder.SetUserIdempotent` | update_order.php:76-91 | a second user update with the same values changes nothing |
| `UpdateOrder.HandleIdempotent` | update_order.php:41-91 | with no failing statement, posting the same payload twice gives the same tables and response as posting it once |
| `UpdateOrder.UpdateOrderRequest` | update_order.php:20-112 | the handler (header statement, item loop, name split, user statement, exception flow) leaves the tables and response that `Handle` gives |
| `GetOrder.ItemsJoin` | get_order.php:30 | the combinations with one order and user are exactly the items whose order_id is the order's id; none when no item matches |
| `GetOrder.UsersJoin` | get_order.php:29-30 | the combinations for one order are exactly the users with the order's user_id paired with that order's items |
| `GetOrder.Join` | get_order.php:25-31 | the joined rows are exactly the (order, user, item) triples with `o.id` = orderID, `u.id` = `o.user_id` and `oi.order_id` = `o.id`; none when no triple matches |
| `GetOrder.Select` | get_order.php:25-27 | definition: the SELECT list, the order's header columns, the user's names and email, and the item's columns |
| `GetOrder.Rows` | get_order.php:25-39 | definition: the result rows, one selected row per joined combination, in join order; what they hold is stated by `RowsAreTheOrdersItems` and `GetOrderRequest` |
| `GetOrder.JoinName` | get_order.php:57 | definition: `customer_name` is first name, a space, last name |
| `GetOrder.ItemOf` | get_order.php:64-70 | definition: an item entry holds exactly sku, product_name, quantity, price and total_price of its row |
| `GetOrder.HeaderFrom` | get_order.php:50-60 | definition: the header fields of the reply are those of a given row, with customer_name joined from its names |
| `GetOrder.GetOrderRequest` | get_order.php:21-103 | no parameter gives "Missing orderID parameter"; a prepare failure "Failed to prepare order query"; an execute failure "Failed to fetch order details"; "Order not found" iff there are no rows; otherwise the header comes from the first row, with customer_name first + " " + last, and the items hold one entry per row, in row order |
| `GetOrder.OrderWithoutItemsNotFound` | get_order.php:42 | an order with no items yields no rows, so the reply is "Order not found" |
| `GetOrder.OrderWithoutUserNotFound` | get_order.php:42 | an order whose user_id matches no user yields no rows either |
| `GetOrder.ItemsOf` | get_order.php:30 | an order's item rows: exactly the items with that order_id |
| `GetOrder.ItemsOfCount` | get_order.php:30 | the order's rows hold each item of that order exactly as often as the table does, and no other item |
| `GetOrder.ItemsOfAppend` | get_order.php:30 | a row appended to the table is appended to the order's rows iff it belongs to the order, so the order's rows keep table order |
| `GetOrder.RowsAreTheOrdersItems` | get_order.php:25-31 | with unique order and user ids, an existing order whose user exists yields one row per item of that order, in table order |
| `GetOrder.NameRoundTrip` | get_order.php:57 | splitting the displayed customer_name at its first space (update_order.php:84-86) gives back the stored first and last name when the first name has no space |
| `GetOrder.SplitThenJoin` | get_order.php:57 | displaying a split name gives back the posted name when it holds a space, and the name plus a trailing space when it does not |

## Left out

- Debug logging (`file_put_contents`, `error_log`, `logDebug`, the `message` logger at products.php:999-1005): file I/O with no effect on the returned data.
- The HTML, CSS and client-side script of products.php, including the client-side filter (products.php:1279-1332): presentation driven by DOM events.
- `htmlspecialchars`, `number_format`, `json_encode`/`json_decode`, `header()` and `date()`: encoding and output plumbing. Inputs are taken as already-decoded values and outputs as structured values.
- `intval`/`floatval` on arbitrary strings: request ids and quantities are taken as integers and prices as exact `real` values. A missing `order_id` field and malformed `order_items` JSON are not modelled; an empty item list stands for both an absent and an empty list.
- Quantities are unbounded integers. Binding the quantity as a double (update_order.php:68) rounds quantities above 2^53 in magnitude; that rounding is not modelled.
- Floating point: amounts are exact rationals, so double rounding is not modelled. The one conversion that changes a value, binding an item price as an integer, is modelled.
- Row order of the join: the statement has no ORDER BY. The model fixes the order as the orders table's, then the users table's, then the order items table's.
- Row order of the listing: `SELECT * FROM products` has no ORDER BY either. The model lists the products in table order.
- NULL stock levels: `stockLevel` and `restockLevel` are non-null integers here. So the model does not show that a NULL stock level, which `intval` turns into 0, takes the zero-stock branch (products.php:708).
- Column collation: email equality in the user update is exact, so a case-insensitive collation that would match and rewrite differently cased emails is not modelled.
- Failure of a single statement is taken to write nothing: the statement is atomic, and a failed statement leaves its table unchanged.
- products.php and get_order.php do not set the mysqli report mode. The model follows their explicit checks on return values, which assumes the report mode PHP used by default before 8.1. From PHP 8.1 the default mode throws, so a failed prepare or execute there would end the request with an uncaught exception instead of the "Failed to ..." message; that path is not modelled.
- The connection files (db_connection.php, blueprint.php) and the other endpoints (get_product_details.php, delete_product.php, update_products.php, add_product.php) are not part of this model.
- The update handler's default message "An unexpected error occurred." is returned only when a PHP `Error` escapes the try block, because the catch at update_order.php:105 handles `Exception` only. An example is a `TypeError` from `explode` or `json_decode` given an array field. The writes made before it stay, and `finally` sends the default response. This path is not modelled: the payload fields are decoded values of the expected types.
