/**
 * The server side of the product page: the bulk delete of a posted list of
 * ItemIDs, and the listing of every product with the stock class, icon,
 * tooltip and availability each row shows.
 */
module Products {
  import opened Optional
  import opened Schema
  import opened Text

  // ---------------------------------------------------------------------------
  // Bulk delete
  // ---------------------------------------------------------------------------

  const DeletedMessage: string := "Selected products have been deleted."
  const DeleteFailedMessage: string := "Error deleting products."
  const PrepareFailedMessage: string := "Failed to prepare statement."
  const QueryFailedPrefix: string := "Error in query execution: "

  /** The SQL text in front of the placeholder list. */
  const DeleteSqlHead: string := "DELETE FROM products WHERE ItemID IN ("

  /** The placeholder list `?,?,...,?`, one `?` per id. */
  function Placeholders(n: nat): string
  {
    Implode(",", Copies(n, "?"))
  }

  /** The bind type string: one `i` per id. */
  function BindTypes(n: nat): string
  {
    Copies(n, 'i')
  }

  /** The placeholder list alternates `?` and `,`, starting and ending with `?`. */
  lemma {:induction false} PlaceholdersShape(n: nat)
    ensures |Placeholders(n)| == if n == 0 then 0 else 2 * n - 1
    ensures forall i :: 0 <= i < |Placeholders(n)| ==>
              Placeholders(n)[i] == if i % 2 == 0 then '?' else ','
  {
    if n >= 2 {
      PlaceholdersShape(n - 1);
      assert Copies(n, "?")[1..] == Copies(n - 1, "?");
      assert Placeholders(n) == "?" + "," + Placeholders(n - 1);
    } else if n == 1 {
      assert Copies(1, "?") == ["?"];
    }
  }

  lemma {:induction false} PlaceholderCount(n: nat)
    ensures Occurrences('?', Placeholders(n)) == n
  {
    if n >= 2 {
      PlaceholderCount(n - 1);
      assert Copies(n, "?")[1..] == Copies(n - 1, "?");
      assert Placeholders(n) == "?," + Placeholders(n - 1);
      OccurrencesConcat('?', "?,", Placeholders(n - 1));
    } else if n == 1 {
      assert Copies(1, "?") == ["?"];
    }
  }

  lemma CountBetween(c: char, head: string, middle: string, tail: string)
    requires c !in head && c !in tail
    ensures Occurrences(c, head + middle + tail) == Occurrences(c, middle)
  {
    OccurrencesConcat(c, head, middle);
    OccurrencesConcat(c, head + middle, tail);
  }

  /** The SQL text of a delete of `n` ids holds exactly `n` placeholders. */
  lemma DeleteSqlCount(n: nat)
    ensures Occurrences('?', DeleteSqlHead + Placeholders(n) + ")") == n
  {
    assert '?' !in DeleteSqlHead;
    CountBetween('?', DeleteSqlHead, Placeholders(n), ")");
    PlaceholderCount(n);
  }

  /** A prepared statement: its SQL text and the type string passed to bind_param. */
  datatype Statement = Statement(sql: string, types: string)

  /** The delete statement for a list of ids: every `?` has exactly one bound `i` value. */
  function DeleteStatement(ids: seq<int>): (s: Statement)
    ensures Occurrences('?', s.sql) == |s.types| == |ids|
    ensures forall i :: 0 <= i < |s.types| ==> s.types[i] == 'i'
  {
    DeleteSqlCount(|ids|);
    Statement(DeleteSqlHead + Placeholders(|ids|) + ")", BindTypes(|ids|))
  }

  /** The products table after `DELETE ... WHERE ItemID IN (ids)`: the unlisted rows, in table order. */
  function Remaining(products: seq<Product>, ids: seq<int>): (r: seq<Product>)
    ensures |r| <= |products|
    ensures forall p :: p in r <==> p in products && p.itemId !in ids
  {
    if products == [] then []
    else (if products[0].itemId in ids then [] else [products[0]]) + Remaining(products[1..], ids)
  }

  lemma {:induction false} RemainingConcat(x: seq<Product>, y: seq<Product>, ids: seq<int>)
    ensures Remaining(x + y, ids) == Remaining(x, ids) + Remaining(y, ids)
  {
    if x == [] {
      assert x + y == y;
    } else {
      assert (x + y)[1..] == x[1..] + y;
      RemainingConcat(x[1..], y, ids);
    }
  }

  /** Deleting `a` and then `b` is deleting `a + b` in one statement. */
  lemma {:induction false} RemainingTwice(products: seq<Product>, a: seq<int>, b: seq<int>)
    ensures Remaining(Remaining(products, a), b) == Remaining(products, a + b)
  {
    if products != [] {
      var head := if products[0].itemId in a then [] else [products[0]];
      var rest := Remaining(products[1..], a);
      assert Remaining(products, a) == head + rest;
      RemainingConcat(head, rest, b);
      RemainingTwice(products[1..], a, b);
      assert products[0].itemId in a + b <==> products[0].itemId in a || products[0].itemId in b;
      if head != [] {
        assert head[1..] == [];
      }
    }
  }

  /** Only which ids are listed matters, not their order or repetition. */
  lemma {:induction false} RemainingSameIds(products: seq<Product>, a: seq<int>, b: seq<int>)
    requires forall x :: x in a <==> x in b
    ensures Remaining(products, a) == Remaining(products, b)
  {
    if products != [] {
      RemainingSameIds(products[1..], a, b);
    }
  }

  /** Repeating the same delete leaves the table as a single delete did. */
  lemma RemainingIdempotent(products: seq<Product>, ids: seq<int>)
    ensures Remaining(Remaining(products, ids), ids) == Remaining(products, ids)
  {
    RemainingTwice(products, ids, ids);
    RemainingSameIds(products, ids + ids, ids);
  }

  /** Listed ids that match no product change nothing. */
  lemma {:induction false} RemainingIgnoresAbsentIds(products: seq<Product>, ids: seq<int>, absent: seq<int>)
    requires forall p :: p in products ==> p.itemId !in absent
    ensures Remaining(products, ids + absent) == Remaining(products, ids)
  {
    if products != [] {
      assert products[0] in products;
      RemainingIgnoresAbsentIds(products[1..], ids, absent);
    }
  }

  /** A delete whose ids all match no product leaves the table as it was. */
  lemma {:induction false} RemainingNothingListed(products: seq<Product>, ids: seq<int>)
    requires forall p :: p in products ==> p.itemId !in ids
    ensures Remaining(products, ids) == products
  {
    if products != [] {
      assert products[0] in products;
      RemainingNothingListed(products[1..], ids);
      assert products == [products[0]] + products[1..];
    }
  }

  /** The outcome message of a delete, from whether prepare and execute succeeded. */
  function DeleteOutcome(prepared: bool, executed: bool): (m: string)
    ensures m == DeletedMessage <==> prepared && executed
    ensures m == DeleteFailedMessage <==> prepared && !executed
    ensures m == PrepareFailedMessage <==> !prepared
  {
    if !prepared then PrepareFailedMessage
    else if executed then DeletedMessage
    else DeleteFailedMessage
  }

  // ---------------------------------------------------------------------------
  // Stock classification of one listed row
  // ---------------------------------------------------------------------------

  const LowStock: string := "low-stock"
  const GoodStock: string := "good-stock"
  const AlertIcon: string := "fas fa-exclamation-circle"
  const CheckIcon: string := "fas fa-check-circle"
  const Available: string := "Available"
  const OutOfStock: string := "Out of Stock"
  const PreOrder: string := "Pre-Order"
  const ZeroStockTip: string := "Stock level is 0, set availability status to 'Out of Stock'"
  const LowStockTip: string := "Low stock"

  /** What a row shows about its stock. */
  datatype StockView = StockView(stockClass: string, icon: string, tooltip: string, availability: string)

  /** The stock class, icon, tooltip and displayed availability, from stock and restock level alone. */
  function Classify(stockLevel: int, restockLevel: int): (v: StockView)
    ensures v.availability == (if stockLevel > 0 then Available else OutOfStock)
    ensures v.availability != PreOrder
    ensures v.stockClass == LowStock <==> stockLevel == 0 || stockLevel < restockLevel
    ensures v.stockClass == GoodStock <==> v.stockClass != LowStock
    ensures v.icon == AlertIcon <==> stockLevel < 10
    ensures v.icon == CheckIcon <==> v.icon != AlertIcon
    ensures stockLevel == 0 ==> v.tooltip == ZeroStockTip
    ensures stockLevel != 0 ==> (v.tooltip == LowStockTip <==> v.stockClass == LowStock)
    ensures v.tooltip != "" <==> v.stockClass == LowStock
  {
    if stockLevel == 0 then
      StockView(LowStock, AlertIcon, ZeroStockTip, OutOfStock)
    else
      var stockClass := if stockLevel < restockLevel then LowStock else GoodStock;
      var icon := if stockLevel < 10 then AlertIcon else CheckIcon;
      var availability := if stockLevel > 0 then Available else OutOfStock;
      var tooltip := if stockClass == LowStock then LowStockTip else "";
      StockView(stockClass, icon, tooltip, availability)
  }

  /** One table row: the stored columns the row shows, and its computed stock view. */
  datatype RowView = RowView(
    itemId: int,
    imageUrl: string,
    productName: string,
    sku: string,
    price: Money,
    category: string,
    volume: string,
    expirationDate: Option<string>,
    stock: StockView)

  function RenderRow(p: Product): RowView
  {
    RowView(p.itemId, p.imageUrl, p.productName, p.sku, p.price, p.category,
            p.volume, p.expirationDate, Classify(p.stockLevel, p.restockLevel))
  }

  /** The stored availabilityStatus is never shown: the row is the same whatever it holds. */
  lemma RowIgnoresStoredAvailability(p: Product, stored: string)
    ensures RenderRow(p.(availabilityStatus := stored)) == RenderRow(p)
    ensures RenderRow(p).stock.availability != PreOrder
  {
  }

  // ---------------------------------------------------------------------------
  // The request handler
  // ---------------------------------------------------------------------------

  /** What a request to the product page produces. */
  datatype Page =
    | Deleted(message: string)      // the delete branch: the outcome message, stored but never sent; the response is empty
    | QueryFailed(message: string)  // `die` after the SELECT failed
    | NoProducts                    // the "No products found" row
    | Listing(rows: seq<RowView>)

  predicate IsDeleteRequest(verb: string, deleteItems: seq<int>)
  {
    verb == "POST" && deleteItems != []
  }

  /** The rows of the listing, fetched one product at a time. */
  method RenderRows(products: seq<Product>) returns (rows: seq<RowView>)
    ensures |rows| == |products|
    ensures forall i :: 0 <= i < |products| ==> rows[i] == RenderRow(products[i])
  {
    rows := [];
    var k := 0;
    while k < |products|
      invariant 0 <= k <= |products|
      invariant |rows| == k
      invariant forall i :: 0 <= i < k ==> rows[i] == RenderRow(products[i])
    {
      rows := rows + [RenderRow(products[k])];
      k := k + 1;
    }
  }

  /**
   * The whole page request. `prepared` and `executed` say whether the delete
   * statement's prepare and execute succeed; `queryError` is the connection's
   * error text when the listing query fails.
   */
  method HandleProducts(db: Database, verb: string, deleteItems: seq<int>,
                        prepared: bool, executed: bool, queryError: Option<string>)
    returns (page: Page)
    modifies db
    ensures db.orders == old(db.orders) && db.orderItems == old(db.orderItems) && db.users == old(db.users)
    ensures IsDeleteRequest(verb, deleteItems) ==>
              page == Deleted(DeleteOutcome(prepared, executed)) &&
              db.products == if prepared && executed then Remaining(old(db.products), deleteItems)
                             else old(db.products)
    ensures !IsDeleteRequest(verb, deleteItems) ==> db.products == old(db.products)
    ensures !IsDeleteRequest(verb, deleteItems) && queryError.Some? ==>
              page == QueryFailed(QueryFailedPrefix + queryError.value)
    ensures !IsDeleteRequest(verb, deleteItems) && queryError.None? && db.products == [] ==>
              page == NoProducts
    ensures !IsDeleteRequest(verb, deleteItems) && queryError.None? && db.products != [] ==>
              page.Listing? && |page.rows| == |db.products| &&
              forall i :: 0 <= i < |db.products| ==> page.rows[i] == RenderRow(db.products[i])
  {
    if IsDeleteRequest(verb, deleteItems) {
      // The statement is built and bound; whether prepare and execute succeed is given.
      var statement := DeleteStatement(deleteItems);
      assert Occurrences('?', statement.sql) == |statement.types| == |deleteItems|;
      if prepared {
        if executed {
          db.products := Remaining(db.products, deleteItems);
        }
      }
      page := Deleted(DeleteOutcome(prepared, executed));
      return;
    }
    if queryError.Some? {
      page := QueryFailed(QueryFailedPrefix + queryError.value);
      return;
    }
    var fetched := db.products;
    if fetched == [] {
      page := NoProducts;
    } else {
      var rows := RenderRows(fetched);
      page := Listing(rows);
    }
  }
}
