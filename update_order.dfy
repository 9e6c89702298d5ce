/**
 * The order update handler: it rewrites the order header, then each listed
 * order item, then every user with the posted email. The three steps are
 * separate statements with no transaction, and strict error reporting makes
 * any failing statement raise: the remaining steps are skipped, earlier
 * writes stay, and the exception's message becomes the response.
 */
module UpdateOrder {
  import opened Optional
  import opened Schema
  import opened Text

  const InvalidMethodMessage: string := "Invalid request method."
  const UpdatedMessage: string := "Order and related data updated successfully."
  const UnexpectedMessage: string := "An unexpected error occurred."

  /** One decoded entry of the posted `order_items` list. */
  datatype ItemEntry = ItemEntry(id: int, quantity: int, price: Money)

  /** The decoded form fields of a POST. */
  datatype Payload = Payload(
    orderId: int,
    customerName: string,
    customerEmail: string,
    totalAmount: Money,
    status: string,
    shipmentDate: Option<string>,
    promoCode: Option<string>,
    deliveryAddress: string,
    city: string,
    orderItems: seq<ItemEntry>)

  datatype Response = Response(success: bool, message: string)

  /** The statements of one request, in the order they run. */
  datatype Step = HeaderUpdate | ItemUpdate(index: nat) | UserUpdate

  /** The statements that raise, each with the message of the exception it raises. */
  type Faults = map<Step, string>

  // ---------------------------------------------------------------------------
  // The customer name
  // ---------------------------------------------------------------------------

  /** `explode(' ', name, 2)`: the text before the first space, and everything after it. */
  function SplitName(name: string): (r: (string, string))
    ensures ' ' !in r.0
    ensures ' ' in name ==> r.0 + " " + r.1 == name
    ensures ' ' !in name ==> r == (name, "")
  {
    match IndexOf(name, ' ')
    case None => (name, "")
    case Some(i) =>
      assert name == name[..i] + " " + name[i + 1..];
      (name[..i], name[i + 1..])
  }

  // ---------------------------------------------------------------------------
  // The three statements
  // ---------------------------------------------------------------------------

  /** `UPDATE orders SET total_amount, status, shipment_date, promo_code, delivery_address WHERE id = order_id`. */
  function SetHeader(orders: seq<Order>, p: Payload): (r: seq<Order>)
    ensures |r| == |orders|
    ensures forall i :: 0 <= i < |orders| && orders[i].id != p.orderId ==> r[i] == orders[i]
    ensures forall i :: 0 <= i < |orders| && orders[i].id == p.orderId ==>
              r[i] == orders[i].(totalAmount := r[i].totalAmount, status := r[i].status,
                                 shipmentDate := r[i].shipmentDate, promoCode := r[i].promoCode,
                                 deliveryAddress := r[i].deliveryAddress)
    ensures forall i :: 0 <= i < |orders| && orders[i].id == p.orderId ==>
              r[i].totalAmount == p.totalAmount && r[i].status == p.status &&
              r[i].shipmentDate == p.shipmentDate && r[i].promoCode == p.promoCode &&
              r[i].deliveryAddress == p.deliveryAddress
  {
    seq(|orders|, i requires 0 <= i < |orders| =>
      if orders[i].id == p.orderId then
        orders[i].(totalAmount := p.totalAmount, status := p.status, shipmentDate := p.shipmentDate,
                   promoCode := p.promoCode, deliveryAddress := p.deliveryAddress)
      else orders[i])
  }

  /**
   * The price is bound with type `i`, so PHP converts the float to an integer
   * before it reaches the database: the fraction is cut off, toward zero.
   */
  function PriceBoundAsInteger(price: Money): (r: int)
    ensures price >= 0.0 ==> r as real <= price < r as real + 1.0
    ensures price < 0.0 ==> r as real - 1.0 < price <= r as real
  {
    if price >= 0.0 then price.Floor else -((-price).Floor)
  }

  /** An item row after one entry's update. */
  function Patch(item: OrderItem, e: ItemEntry): OrderItem
  {
    item.(quantity := e.quantity, price := PriceBoundAsInteger(e.price) as real)
  }

  /** The row `UPDATE order_items SET quantity, price WHERE id = e.id AND order_id = orderId` matches. */
  predicate Targets(item: OrderItem, e: ItemEntry, orderId: int)
  {
    item.id == e.id && item.orderId == orderId
  }

  /** The item update for one entry. */
  function SetItem(items: seq<OrderItem>, e: ItemEntry, orderId: int): (r: seq<OrderItem>)
    ensures |r| == |items|
    ensures forall j :: 0 <= j < |items| && !Targets(items[j], e, orderId) ==> r[j] == items[j]
    ensures forall j :: 0 <= j < |items| ==>
              r[j] == items[j].(quantity := r[j].quantity, price := r[j].price)
    ensures forall j :: 0 <= j < |items| && Targets(items[j], e, orderId) ==>
              r[j].quantity == e.quantity && r[j].price == PriceBoundAsInteger(e.price) as real
  {
    seq(|items|, j requires 0 <= j < |items| =>
      if Targets(items[j], e, orderId) then Patch(items[j], e) else items[j])
  }

  /** `UPDATE users SET first_name, last_name, email, city WHERE email = email` (the email is set to itself). */
  function SetUser(users: seq<User>, first: string, last: string, email: string, city: string): (r: seq<User>)
    ensures |r| == |users|
    ensures forall i :: 0 <= i < |users| ==> r[i].id == users[i].id && r[i].email == users[i].email
    ensures forall i :: 0 <= i < |users| && users[i].email != email ==> r[i] == users[i]
    ensures forall i :: 0 <= i < |users| && users[i].email == email ==>
              r[i].firstName == first && r[i].lastName == last && r[i].city == city
  {
    seq(|users|, i requires 0 <= i < |users| =>
      if users[i].email == email then
        users[i].(firstName := first, lastName := last, email := email, city := city)
      else users[i])
  }

  // ---------------------------------------------------------------------------
  // The request as a run of steps
  // ---------------------------------------------------------------------------

  function ItemSteps(n: nat): (r: seq<Step>)
    ensures |r| == n
    ensures forall i :: 0 <= i < n ==> r[i] == ItemUpdate(i)
  {
    seq(n, i requires 0 <= i < n => ItemUpdate(i))
  }

  /** The statements a POST runs: the header, one per item entry, then the user. */
  function Steps(p: Payload): (r: seq<Step>)
    ensures |r| == |p.orderItems| + 2
    ensures r[0] == HeaderUpdate && r[|r| - 1] == UserUpdate
    ensures forall i :: 0 <= i < |p.orderItems| ==> r[i + 1] == ItemUpdate(i)
  {
    [HeaderUpdate] + ItemSteps(|p.orderItems|) + [UserUpdate]
  }

  /** The effect of one statement that succeeds. */
  function ApplyStep(t: Tables, p: Payload, s: Step): (r: Tables)
    ensures r.products == t.products
  {
    match s
    case HeaderUpdate => t.(orders := SetHeader(t.orders, p))
    case ItemUpdate(k) =>
      if k < |p.orderItems| then t.(orderItems := SetItem(t.orderItems, p.orderItems[k], p.orderId)) else t
    case UserUpdate =>
      var (first, last) := SplitName(p.customerName);
      t.(users := SetUser(t.users, first, last, p.customerEmail, p.city))
  }

  /** The effect of a list of statements that all succeed. */
  function ApplyAll(t: Tables, p: Payload, steps: seq<Step>): (r: Tables)
    ensures r.products == t.products
    decreases |steps|
  {
    if steps == [] then t else ApplyAll(ApplyStep(t, p, steps[0]), p, steps[1..])
  }

  predicate NoFault(steps: seq<Step>, faults: Faults)
  {
    forall i :: 0 <= i < |steps| ==> steps[i] !in faults
  }

  /**
   * Runs the statements in order until one raises. The result is the tables at
   * that point and the message of the exception, if one was raised.
   */
  function Run(t: Tables, p: Payload, steps: seq<Step>, faults: Faults): (r: (Tables, Option<string>))
    ensures r.1.None? <==> NoFault(steps, faults)
    ensures r.1.None? ==> r.0 == ApplyAll(t, p, steps)
    ensures r.1.Some? ==> r.1.value in faults.Values
    ensures r.0.products == t.products
    decreases |steps|
  {
    if steps == [] then (t, None)
    else if steps[0] in faults then (t, Some(faults[steps[0]]))
    else
      assert forall i :: 1 <= i < |steps| ==> steps[1..][i - 1] == steps[i];
      Run(ApplyStep(t, p, steps[0]), p, steps[1..], faults)
  }

  /** The tables after a request and its response. */
  function Handle(t: Tables, verb: string, p: Payload, faults: Faults): (r: (Tables, Response))
    ensures verb != "POST" ==> r == (t, Response(false, InvalidMethodMessage))
    ensures r.1.success <==> verb == "POST" && NoFault(Steps(p), faults)
    ensures r.1.success ==> r.1.message == UpdatedMessage
    ensures verb == "POST" && !r.1.success ==> r.1.message in faults.Values
    ensures r.0.products == t.products
  {
    if verb != "POST" then (t, Response(false, InvalidMethodMessage))
    else
      var (t', raised) := Run(t, p, Steps(p), faults);
      match raised
      case None => (t', Response(true, UpdatedMessage))
      case Some(message) => (t', Response(false, message))
  }

  // ---------------------------------------------------------------------------
  // What a run does
  // ---------------------------------------------------------------------------

  lemma {:induction false} ApplyAllConcat(t: Tables, p: Payload, a: seq<Step>, b: seq<Step>)
    ensures ApplyAll(t, p, a + b) == ApplyAll(ApplyAll(t, p, a), p, b)
    decreases |a|
  {
    if a == [] {
      assert a + b == b;
    } else {
      assert (a + b)[1..] == a[1..] + b;
      ApplyAllConcat(ApplyStep(t, p, a[0]), p, a[1..], b);
    }
  }

  /**
   * When `steps[k]` is the first statement that raises, the tables hold the
   * writes of the statements before it and no other, and the request reports
   * that statement's exception.
   */
  lemma {:induction false} RunStopsAtFirstFault(t: Tables, p: Payload, steps: seq<Step>, faults: Faults, k: nat)
    requires k < |steps| && steps[k] in faults
    requires NoFault(steps[..k], faults)
    ensures Run(t, p, steps, faults) == (ApplyAll(t, p, steps[..k]), Some(faults[steps[k]]))
    decreases k
  {
    if k == 0 {
      assert steps[..0] == [];
    } else {
      assert steps[..k][0] == steps[0];
      assert steps[0] !in faults;
      assert steps[1..][..k - 1] == steps[..k][1..];
      RunStopsAtFirstFault(ApplyStep(t, p, steps[0]), p, steps[1..], faults, k - 1);
    }
  }

  /** The item rows after the first `|es|` entries ran: each entry applied in list order. */
  function ApplyEntries(items: seq<OrderItem>, es: seq<ItemEntry>, orderId: int): (r: seq<OrderItem>)
    ensures |r| == |items|
    decreases |es|
  {
    if es == [] then items
    else SetItem(ApplyEntries(items, es[..|es| - 1], orderId), es[|es| - 1], orderId)
  }

  /** The last entry in the list with the given item id, if any. */
  function LastEntry(es: seq<ItemEntry>, id: int): (r: Option<ItemEntry>)
    ensures r.None? <==> forall i :: 0 <= i < |es| ==> es[i].id != id
    ensures r.Some? ==> r.value.id == id
    ensures r.Some? ==>
              exists k :: 0 <= k < |es| && es[k] == r.value && forall j :: k < j < |es| ==> es[j].id != id
    decreases |es|
  {
    if es == [] then None
    else if es[|es| - 1].id == id then Some(es[|es| - 1])
    else
      var r := LastEntry(es[..|es| - 1], id);
      assert forall i :: 0 <= i < |es| - 1 ==> es[..|es| - 1][i] == es[i];
      r
  }

  /**
   * Entries run in list order, so of several entries for the same item the last
   * one's values persist; rows of other orders, and rows no entry names, keep
   * their values.
   */
  lemma {:induction false} LastEntryWins(items: seq<OrderItem>, es: seq<ItemEntry>, orderId: int, j: nat)
    requires j < |items|
    ensures ApplyEntries(items, es, orderId)[j] ==
              if items[j].orderId == orderId && LastEntry(es, items[j].id).Some?
              then Patch(items[j], LastEntry(es, items[j].id).value)
              else items[j]
    decreases |es|
  {
    if es != [] {
      LastEntryWins(items, es[..|es| - 1], orderId, j);
    }
  }

  /** A request with no failing statement runs every entry in order. */
  lemma {:induction false} ItemStepsApply(t: Tables, p: Payload, n: nat)
    requires n <= |p.orderItems|
    ensures ApplyAll(t, p, ItemSteps(n)) == t.(orderItems := ApplyEntries(t.orderItems, p.orderItems[..n], p.orderId))
  {
    if n == 0 {
      assert p.orderItems[..0] == [];
      assert ItemSteps(0) == [];
    } else {
      assert ItemSteps(n) == ItemSteps(n - 1) + [ItemUpdate(n - 1)];
      ApplyAllConcat(t, p, ItemSteps(n - 1), [ItemUpdate(n - 1)]);
      ItemStepsApply(t, p, n - 1);
      assert p.orderItems[..n][..n - 1] == p.orderItems[..n - 1];
      var mid := t.(orderItems := ApplyEntries(t.orderItems, p.orderItems[..n - 1], p.orderId));
      assert [ItemUpdate(n - 1)][1..] == [];
      assert ApplyAll(mid, p, [ItemUpdate(n - 1)]) == ApplyStep(mid, p, ItemUpdate(n - 1));
    }
  }

  /** A request whose statements all succeed: the header, every entry in order, then the users. */
  lemma StepsApply(t: Tables, p: Payload)
    ensures ApplyAll(t, p, Steps(p)) ==
              t.(orders := SetHeader(t.orders, p),
                 orderItems := ApplyEntries(t.orderItems, p.orderItems, p.orderId),
                 users := SetUser(t.users, SplitName(p.customerName).0, SplitName(p.customerName).1,
                                  p.customerEmail, p.city))
  {
    var n := |p.orderItems|;
    var t1 := ApplyStep(t, p, HeaderUpdate);
    assert Steps(p) == [HeaderUpdate] + (ItemSteps(n) + [UserUpdate]);
    ApplyAllConcat(t, p, [HeaderUpdate], ItemSteps(n) + [UserUpdate]);
    assert [HeaderUpdate][1..] == [];
    assert ApplyAll(t, p, [HeaderUpdate]) == t1;
    ApplyAllConcat(t1, p, ItemSteps(n), [UserUpdate]);
    ItemStepsApply(t1, p, n);
    assert p.orderItems[..n] == p.orderItems;
    var t2 := ApplyAll(t1, p, ItemSteps(n));
    assert [UserUpdate][1..] == [];
    assert ApplyAll(t2, p, [UserUpdate]) == ApplyStep(t2, p, UserUpdate);
  }

  // ---------------------------------------------------------------------------
  // Properties of a request
  // ---------------------------------------------------------------------------

  /** A failing header update raises before anything is written. */
  lemma FailedHeaderChangesNothing(t: Tables, p: Payload, faults: Faults)
    requires HeaderUpdate in faults
    ensures Handle(t, "POST", p, faults) == (t, Response(false, faults[HeaderUpdate]))
  {
  }

  /**
   * A failing item update raises: the header and the earlier entries stay
   * written, later entries and the user update never run, and the request
   * reports failure with the exception's message.
   */
  lemma ItemFaultKeepsEarlierWrites(t: Tables, p: Payload, faults: Faults, k: nat)
    requires k < |p.orderItems| && ItemUpdate(k) in faults
    requires HeaderUpdate !in faults
    requires forall i :: 0 <= i < k ==> ItemUpdate(i) !in faults
    ensures Handle(t, "POST", p, faults) ==
              (t.(orders := SetHeader(t.orders, p),
                  orderItems := ApplyEntries(t.orderItems, p.orderItems[..k], p.orderId)),
               Response(false, faults[ItemUpdate(k)]))
  {
    var steps := Steps(p);
    assert steps[..k + 1] == [HeaderUpdate] + ItemSteps(k);
    RunStopsAtFirstFault(t, p, steps, faults, k + 1);
    var t1 := ApplyStep(t, p, HeaderUpdate);
    ApplyAllConcat(t, p, [HeaderUpdate], ItemSteps(k));
    assert [HeaderUpdate][1..] == [];
    assert ApplyAll(t, p, [HeaderUpdate]) == t1;
    ItemStepsApply(t1, p, k);
  }

  /**
   * A failing user update raises after the header and every entry are written;
   * the users stay as they were and the request reports failure.
   */
  lemma UserFaultKeepsOrderWrites(t: Tables, p: Payload, faults: Faults)
    requires UserUpdate in faults
    requires HeaderUpdate !in faults
    requires forall i :: 0 <= i < |p.orderItems| ==> ItemUpdate(i) !in faults
    ensures Handle(t, "POST", p, faults) ==
              (t.(orders := SetHeader(t.orders, p),
                  orderItems := ApplyEntries(t.orderItems, p.orderItems, p.orderId)),
               Response(false, faults[UserUpdate]))
  {
    var n := |p.orderItems|;
    var steps := Steps(p);
    assert steps[..n + 1] == [HeaderUpdate] + ItemSteps(n);
    RunStopsAtFirstFault(t, p, steps, faults, n + 1);
    var t1 := ApplyStep(t, p, HeaderUpdate);
    ApplyAllConcat(t, p, [HeaderUpdate], ItemSteps(n));
    assert [HeaderUpdate][1..] == [];
    assert ApplyAll(t, p, [HeaderUpdate]) == t1;
    ItemStepsApply(t1, p, n);
    assert p.orderItems[..n] == p.orderItems;
  }

  lemma SetHeaderIdempotent(orders: seq<Order>, p: Payload)
    ensures SetHeader(SetHeader(orders, p), p) == SetHeader(orders, p)
  {
  }

  lemma {:induction false} ApplyEntriesIdempotent(items: seq<OrderItem>, es: seq<ItemEntry>, orderId: int)
    ensures ApplyEntries(ApplyEntries(items, es, orderId), es, orderId) == ApplyEntries(items, es, orderId)
  {
    var once := ApplyEntries(items, es, orderId);
    var twice := ApplyEntries(once, es, orderId);
    forall j | 0 <= j < |items|
      ensures twice[j] == once[j]
    {
      LastEntryWins(items, es, orderId, j);
      LastEntryWins(once, es, orderId, j);
    }
  }

  lemma SetUserIdempotent(users: seq<User>, first: string, last: string, email: string, city: string)
    ensures SetUser(SetUser(users, first, last, email, city), first, last, email, city)
            == SetUser(users, first, last, email, city)
  {
  }

  /** With no failing statement, posting the same payload twice leaves the tables as posting it once. */
  lemma HandleIdempotent(t: Tables, verb: string, p: Payload, faults: Faults)
    requires NoFault(Steps(p), faults)
    ensures Handle(Handle(t, verb, p, faults).0, verb, p, faults) == Handle(t, verb, p, faults)
  {
    if verb == "POST" {
      var (first, last) := SplitName(p.customerName);
      StepsApply(t, p);
      var once := ApplyAll(t, p, Steps(p));
      StepsApply(once, p);
      SetHeaderIdempotent(t.orders, p);
      ApplyEntriesIdempotent(t.orderItems, p.orderItems, p.orderId);
      SetUserIdempotent(t.users, first, last, p.customerEmail, p.city);
    }
  }

  // ---------------------------------------------------------------------------
  // The handler
  // ---------------------------------------------------------------------------

  /**
   * The POST handler over the database. `faults` names the statements that
   * raise and the message each raises with.
   */
  method UpdateOrderRequest(db: Database, verb: string, p: Payload, faults: Faults) returns (response: Response)
    modifies db
    ensures db.State() == Handle(old(db.State()), verb, p, faults).0
    ensures response == Handle(old(db.State()), verb, p, faults).1
  {
    response := Response(false, UnexpectedMessage);
    if verb != "POST" {
      response := response.(message := InvalidMethodMessage);
      return;
    }
    ghost var start := db.State();
    ghost var steps := Steps(p);
    if HeaderUpdate in faults {
      response := response.(message := faults[HeaderUpdate]);
      return;
    }
    db.orders := SetHeader(db.orders, p);
    var k := 0;
    while k < |p.orderItems|
      invariant 0 <= k <= |p.orderItems|
      invariant Run(start, p, steps, faults) == Run(db.State(), p, steps[k + 1..], faults)
      invariant response == Response(false, UnexpectedMessage)
    {
      var entry := p.orderItems[k];
      if ItemUpdate(k) in faults {
        response := response.(message := faults[ItemUpdate(k)]);
        return;
      }
      assert steps[k + 1..][1..] == steps[k + 2..];
      db.orderItems := SetItem(db.orderItems, entry, p.orderId);
      k := k + 1;
    }
    var (first, last) := SplitName(p.customerName);
    assert steps[k + 1..] == [UserUpdate];
    if UserUpdate in faults {
      response := response.(message := faults[UserUpdate]);
      return;
    }
    db.users := SetUser(db.users, first, last, p.customerEmail, p.city);
    response := Response(true, UpdatedMessage);
  }
}
