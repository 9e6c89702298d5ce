/**
 * The order retrieval handler: an inner join of the order with its user and
 * its items, regrouped into one header and an ordered list of items.
 */
module GetOrder {
  import opened Optional
  import opened Schema
  import opened Text
  import UpdateOrder

  const MissingParameterMessage: string := "Missing orderID parameter"
  const PrepareFailedMessage: string := "Failed to prepare order query"
  const FetchFailedMessage: string := "Failed to fetch order details"
  const NotFoundMessage: string := "Order not found"

  // ---------------------------------------------------------------------------
  // The query
  // ---------------------------------------------------------------------------

  /** One (order, user, item) combination the join produces. */
  datatype Match = Match(order: Order, user: User, item: OrderItem)

  /** The condition of `JOIN users u ON o.user_id = u.id JOIN order_items oi ON o.id = oi.order_id WHERE o.id = ?`. */
  predicate Joins(m: Match, orderId: int)
  {
    m.order.id == orderId && m.user.id == m.order.userId && m.item.orderId == m.order.id
  }

  /** No combination of rows satisfies the join condition. */
  predicate NoMatch(t: Tables, orderId: int)
  {
    forall o, u, oi :: o in t.orders && u in t.users && oi in t.orderItems && o.id == orderId && u.id == o.userId
      ==> oi.orderId != o.id
  }

  function ItemsJoin(o: Order, u: User, items: seq<OrderItem>): (r: seq<Match>)
    ensures forall m :: m in r <==> m.order == o && m.user == u && m.item in items && m.item.orderId == o.id
    ensures (forall oi :: oi in items ==> oi.orderId != o.id) ==> r == []
  {
    if items == [] then []
    else (if items[0].orderId == o.id then [Match(o, u, items[0])] else []) + ItemsJoin(o, u, items[1..])
  }

  function UsersJoin(o: Order, users: seq<User>, items: seq<OrderItem>): (r: seq<Match>)
    ensures forall m :: m in r <==>
              m.order == o && m.user in users && m.user.id == o.userId && m.item in items && m.item.orderId == o.id
    ensures (forall u, oi :: u in users && oi in items && u.id == o.userId ==> oi.orderId != o.id) ==> r == []
  {
    if users == [] then []
    else (if users[0].id == o.userId then ItemsJoin(o, users[0], items) else []) + UsersJoin(o, users[1..], items)
  }

  /**
   * The joined combinations, orders-table order first, then users, then items
   * (the statement has no ORDER BY; the model fixes this order).
   */
  function Join(t: Tables, orderId: int): (r: seq<Match>)
    ensures forall m :: m in r <==> m.order in t.orders && m.user in t.users && m.item in t.orderItems && Joins(m, orderId)
    ensures NoMatch(t, orderId) ==> r == []
    decreases |t.orders|
  {
    if t.orders == [] then []
    else
      var o := t.orders[0];
      (if o.id == orderId then UsersJoin(o, t.users, t.orderItems) else []) + Join(t.(orders := t.orders[1..]), orderId)
  }

  /** A result row of the SELECT list. */
  datatype Row = Row(
    id: int,
    orderNumber: string,
    totalAmount: Money,
    status: string,
    shipmentDate: Option<string>,
    deliveryAddress: string,
    customerFirstName: string,
    customerLastName: string,
    customerEmail: string,
    sku: string,
    productName: string,
    quantity: int,
    price: Money,
    totalPrice: Money)

  function Select(m: Match): Row
  {
    Row(m.order.id, m.order.orderNumber, m.order.totalAmount, m.order.status, m.order.shipmentDate,
        m.order.deliveryAddress, m.user.firstName, m.user.lastName, m.user.email,
        m.item.sku, m.item.productName, m.item.quantity, m.item.price, m.item.totalPrice)
  }

  /** The rows the executed query returns. */
  function Rows(t: Tables, orderId: int): (r: seq<Row>)
    ensures |r| == |Join(t, orderId)|
    ensures forall i :: 0 <= i < |r| ==> r[i] == Select(Join(t, orderId)[i])
  {
    var j := Join(t, orderId);
    seq(|j|, i requires 0 <= i < |j| => Select(j[i]))
  }

  // ---------------------------------------------------------------------------
  // The reply
  // ---------------------------------------------------------------------------

  datatype ItemView = ItemView(sku: string, productName: string, quantity: int, price: Money, totalPrice: Money)

  datatype OrderView = OrderView(
    id: int,
    orderNumber: string,
    totalAmount: Money,
    status: string,
    shipmentDate: Option<string>,
    deliveryAddress: string,
    customerName: string,
    customerEmail: string,
    items: seq<ItemView>)

  datatype Reply = Found(order: OrderView) | Failed(error: string)

  /** The displayed customer name. */
  function JoinName(first: string, last: string): string
  {
    first + " " + last
  }

  function ItemOf(row: Row): ItemView
  {
    ItemView(row.sku, row.productName, row.quantity, row.price, row.totalPrice)
  }

  /** The header fields of `v` are those of `row`. */
  predicate HeaderFrom(v: OrderView, row: Row)
  {
    && v.id == row.id
    && v.orderNumber == row.orderNumber
    && v.totalAmount == row.totalAmount
    && v.status == row.status
    && v.shipmentDate == row.shipmentDate
    && v.deliveryAddress == row.deliveryAddress
    && v.customerName == JoinName(row.customerFirstName, row.customerLastName)
    && v.customerEmail == row.customerEmail
  }

  /**
   * The GET handler. `orderId` is the decoded `orderID` parameter, if present;
   * `prepared` and `executed` say whether the query's prepare and execute succeed.
   */
  method GetOrderRequest(db: Database, orderId: Option<int>, prepared: bool, executed: bool) returns (reply: Reply)
    ensures orderId.None? ==> reply == Failed(MissingParameterMessage)
    ensures orderId.Some? && !prepared ==> reply == Failed(PrepareFailedMessage)
    ensures orderId.Some? && prepared && !executed ==> reply == Failed(FetchFailedMessage)
    ensures orderId.Some? && prepared && executed ==>
              (reply == Failed(NotFoundMessage) <==> Rows(db.State(), orderId.value) == [])
    ensures orderId.Some? && prepared && executed && Rows(db.State(), orderId.value) != [] ==>
              var rows := Rows(db.State(), orderId.value);
              && reply.Found?
              && HeaderFrom(reply.order, rows[0])
              && |reply.order.items| == |rows|
              && forall i :: 0 <= i < |rows| ==> reply.order.items[i] == ItemOf(rows[i])
  {
    if orderId.None? {
      return Failed(MissingParameterMessage);
    }
    if !prepared {
      return Failed(PrepareFailedMessage);
    }
    if !executed {
      return Failed(FetchFailedMessage);
    }
    var rows := Rows(db.State(), orderId.value);
    if |rows| == 0 {
      return Failed(NotFoundMessage);
    }
    var header: Option<OrderView> := None;
    var items: seq<ItemView> := [];
    var k := 0;
    while k < |rows|
      invariant 0 <= k <= |rows|
      invariant k == 0 <==> header.None?
      invariant k > 0 ==> HeaderFrom(header.value, rows[0]) && header.value.items == []
      invariant |items| == k
      invariant forall i :: 0 <= i < k ==> items[i] == ItemOf(rows[i])
    {
      var row := rows[k];
      if header.None? {
        header := Some(OrderView(row.id, row.orderNumber, row.totalAmount, row.status, row.shipmentDate,
                                 row.deliveryAddress, JoinName(row.customerFirstName, row.customerLastName),
                                 row.customerEmail, []));
      }
      items := items + [ItemOf(row)];
      k := k + 1;
    }
    reply := Found(header.value.(items := items));
  }

  // ---------------------------------------------------------------------------
  // Properties of the query
  // ---------------------------------------------------------------------------

  /** An order that exists but has no items yields no rows, so the reply is "Order not found". */
  lemma OrderWithoutItemsNotFound(t: Tables, orderId: int)
    requires forall oi :: oi in t.orderItems ==> oi.orderId != orderId
    ensures Rows(t, orderId) == []
  {
  }

  /** An order whose user_id matches no user yields no rows either. */
  lemma OrderWithoutUserNotFound(t: Tables, orderId: int)
    requires forall o, u :: o in t.orders && u in t.users && o.id == orderId ==> u.id != o.userId
    ensures Rows(t, orderId) == []
  {
  }

  /** The item rows of one order, in table order. */
  function ItemsOf(items: seq<OrderItem>, orderId: int): (r: seq<OrderItem>)
    ensures forall oi :: oi in r <==> oi in items && oi.orderId == orderId
  {
    if items == [] then []
    else (if items[0].orderId == orderId then [items[0]] else []) + ItemsOf(items[1..], orderId)
  }

  /** The order's rows hold each of its item rows exactly as often as the table does, and no other row. */
  lemma {:induction false} ItemsOfCount(items: seq<OrderItem>, orderId: int)
    ensures forall oi :: multiset(ItemsOf(items, orderId))[oi] ==
              if oi.orderId == orderId then multiset(items)[oi] else 0
  {
    if items != [] {
      ItemsOfCount(items[1..], orderId);
      var head := if items[0].orderId == orderId then [items[0]] else [];
      assert items == [items[0]] + items[1..];
      assert multiset(items) == multiset{items[0]} + multiset(items[1..]);
      assert multiset(ItemsOf(items, orderId)) == multiset(head) + multiset(ItemsOf(items[1..], orderId));
    }
  }

  /** Appending a row to the table appends it to the order's rows when it belongs to the order: table order is kept. */
  lemma {:induction false} ItemsOfAppend(items: seq<OrderItem>, x: OrderItem, orderId: int)
    ensures ItemsOf(items + [x], orderId) == ItemsOf(items, orderId) + (if x.orderId == orderId then [x] else [])
  {
    if items == [] {
      assert items + [x] == [x];
      assert [x][1..] == [];
    } else {
      var head := if items[0].orderId == orderId then [items[0]] else [];
      var tail := if x.orderId == orderId then [x] else [];
      assert (items + [x])[0] == items[0];
      assert (items + [x])[1..] == items[1..] + [x];
      assert ItemsOf(items + [x], orderId) == head + ItemsOf(items[1..] + [x], orderId);
      ItemsOfAppend(items[1..], x, orderId);
      assert ItemsOf(items, orderId) == head + ItemsOf(items[1..], orderId);
      assert head + (ItemsOf(items[1..], orderId) + tail) == (head + ItemsOf(items[1..], orderId)) + tail;
    }
  }

  lemma {:induction false} ItemsJoinIsItemsOf(o: Order, u: User, items: seq<OrderItem>)
    ensures |ItemsJoin(o, u, items)| == |ItemsOf(items, o.id)|
    ensures forall i :: 0 <= i < |ItemsOf(items, o.id)| ==>
              ItemsJoin(o, u, items)[i] == Match(o, u, ItemsOf(items, o.id)[i])
  {
    if items != [] {
      ItemsJoinIsItemsOf(o, u, items[1..]);
    }
  }

  predicate UniqueOrderIds(orders: seq<Order>)
  {
    forall i, j :: 0 <= i < |orders| && 0 <= j < |orders| && orders[i].id == orders[j].id ==> i == j
  }

  predicate UniqueUserIds(users: seq<User>)
  {
    forall i, j :: 0 <= i < |users| && 0 <= j < |users| && users[i].id == users[j].id ==> i == j
  }

  lemma {:induction false} UsersJoinSingleUser(o: Order, u: User, users: seq<User>, items: seq<OrderItem>)
    requires u in users && u.id == o.userId && UniqueUserIds(users)
    ensures UsersJoin(o, users, items) == ItemsJoin(o, u, items)
  {
    if users[0] == u {
      forall v | v in users[1..] ensures v.id != o.userId {
        var i :| 1 <= i < |users| && users[i] == v;
        assert users[0].id == u.id;
      }
    } else {
      assert users[0].id != o.userId by {
        var i :| 0 <= i < |users| && users[i] == u;
        assert i != 0;
      }
      assert UniqueUserIds(users[1..]) by {
        forall i, j | 0 <= i < |users| - 1 && 0 <= j < |users| - 1 && users[1..][i].id == users[1..][j].id
          ensures i == j
        {
          assert users[i + 1].id == users[j + 1].id;
        }
      }
      UsersJoinSingleUser(o, u, users[1..], items);
    }
  }

  lemma {:induction false} JoinSingleOrder(t: Tables, o: Order, orderId: int)
    requires o in t.orders && o.id == orderId && UniqueOrderIds(t.orders)
    ensures Join(t, orderId) == UsersJoin(o, t.users, t.orderItems)
    decreases |t.orders|
  {
    var rest := t.(orders := t.orders[1..]);
    if t.orders[0] == o {
      forall q | q in rest.orders ensures q.id != orderId {
        var i :| 1 <= i < |t.orders| && t.orders[i] == q;
      }
    } else {
      assert t.orders[0].id != orderId by {
        var i :| 0 <= i < |t.orders| && t.orders[i] == o;
        assert i != 0;
      }
      assert UniqueOrderIds(rest.orders) by {
        forall i, j | 0 <= i < |rest.orders| && 0 <= j < |rest.orders| && rest.orders[i].id == rest.orders[j].id
          ensures i == j
        {
          assert t.orders[i + 1].id == t.orders[j + 1].id;
        }
      }
      JoinSingleOrder(rest, o, orderId);
    }
  }

  /**
   * With unique order and user ids, an existing order whose user exists yields
   * one row per item of that order, in table order; so a successful reply
   * lists exactly the order's items.
   */
  lemma RowsAreTheOrdersItems(t: Tables, o: Order, u: User)
    requires o in t.orders && UniqueOrderIds(t.orders)
    requires u in t.users && u.id == o.userId && UniqueUserIds(t.users)
    ensures |Rows(t, o.id)| == |ItemsOf(t.orderItems, o.id)|
    ensures forall i :: 0 <= i < |Rows(t, o.id)| ==>
              Rows(t, o.id)[i] == Select(Match(o, u, ItemsOf(t.orderItems, o.id)[i]))
  {
    JoinSingleOrder(t, o, o.id);
    UsersJoinSingleUser(o, u, t.users, t.orderItems);
    ItemsJoinIsItemsOf(o, u, t.orderItems);
  }

  // ---------------------------------------------------------------------------
  // Round trip with the update handler's name split
  // ---------------------------------------------------------------------------

  /** Splitting a displayed name gives back the stored names when the first name has no space. */
  lemma NameRoundTrip(first: string, last: string)
    requires ' ' !in first
    ensures UpdateOrder.SplitName(JoinName(first, last)) == (first, last)
  {
    var name := JoinName(first, last);
    assert name[|first|] == ' ';
    var i := IndexOf(name, ' ').value;
    assert forall k :: 0 <= k < |first| ==> name[k] == first[k];
    assert name[..|first|] == first;
    assert name[|first| + 1..] == last;
  }

  /**
   * Displaying a split name gives back the posted name when it holds a space;
   * a name without one comes back with a trailing space.
   */
  lemma SplitThenJoin(name: string)
    ensures ' ' in name ==> JoinName(UpdateOrder.SplitName(name).0, UpdateOrder.SplitName(name).1) == name
    ensures ' ' !in name ==> JoinName(UpdateOrder.SplitName(name).0, UpdateOrder.SplitName(name).1) == name + " "
  {
  }
}
