/** Exact decimal rounding as `decimal.Round` does it: to the nearest value,
    a midpoint going to the even neighbour. */
module Money {

  function Abs(x: int): nat { if x < 0 then -x else x }

  lemma ShiftQuotient(q: int, den: int)
    ensures (q + 1) * den == q * den + den
  {
  }

  /** `num / den` rounded to a whole number, half to even. */
  function RoundHalfEven(num: int, den: int): (r: int)
    requires den > 0
    ensures 2 * Abs(num - r * den) <= den
    ensures 2 * Abs(num - r * den) == den ==> r % 2 == 0
  {
    var q, rem := num / den, num % den;
    ShiftQuotient(q, den);
    if 2 * rem < den then q
    else if 2 * rem > den then q + 1
    else if q % 2 == 0 then q
    else q + 1
  }
}

/** Services/Implementations/OrderService.cs: placing an order for pickup or
    dine-in, its confirmation with the reservation code, cancellation, and
    payments against the deposit and the remainder. Amounts are cents. */
module OrderService {
  import opened Base
  import opened Seqs
  import opened Models
  import opened Data
  import opened Text
  import opened Money

  /** OrderItemRequest in CreateOrderRequest.cs */
  datatype OrderItemRequest = OrderItemRequest(menuItemId: Id, quantity: int)

  /** CreateOrderRequest.cs */
  datatype CreateOrderRequest = CreateOrderRequest(
    restaurantId: Id, orderType: OrderType, notes: Option<string>, items: seq<OrderItemRequest>)

  /** PaymentRequest.cs */
  datatype PaymentRequest = PaymentRequest(
    orderId: Id, amount: int, paymentType: PaymentType, paymentMethod: string)

  /** The exceptions the service throws. `NoMatchingMenuItem` is the one
      `Enumerable.First` throws when no loaded menu item has the requested key;
      `DuplicateOrderNumber` is the database's refusal to save a second order
      under an order number already in use (the unique index on OrderNumber). */
  datatype OrderError =
    | RestaurantNotFound | InvalidMenuItems | NoMatchingMenuItem | DuplicateOrderNumber | ReservationCodeMismatch
    | OrderNotFound | DepositAlreadyPaid | RemainingAlreadyPaid

  // ---------------------------------------------------------------------------
  // Order amounts

  /** Hours are 60 minutes. */
  const ReservationMinutes := 60

  /** `Sum(oi => oi.UnitPrice * oi.Quantity)` */
  function Subtotal(lines: seq<OrderItem>): int {
    if |lines| == 0 then 0
    else Subtotal(lines[..|lines| - 1]) + lines[|lines| - 1].unitPrice * lines[|lines| - 1].quantity
  }

  /** `decimal.Round(subtotal * 0.2m, 2)`: a fifth of the subtotal, to the cent. */
  function DepositShare(subtotal: int): int {
    RoundHalfEven(subtotal, 5)
  }

  /** `decimal.Round(subtotal - subtotal * 0.2m, 2)`: four fifths, to the cent. */
  function RemainderShare(subtotal: int): int {
    RoundHalfEven(4 * subtotal, 5)
  }

  /** The deposit is within half a cent of 20% of the subtotal, the remainder
      within half a cent of 80%, and the two rounded amounts add up to the
      subtotal exactly: a fifth of a whole number of cents is never a midpoint,
      so the two roundings never both go the same way. */
  lemma AmountsSplitSubtotal(subtotal: int)
    ensures 2 * Abs(subtotal - 5 * DepositShare(subtotal)) <= 5
    ensures 2 * Abs(4 * subtotal - 5 * RemainderShare(subtotal)) <= 5
    ensures DepositShare(subtotal) + RemainderShare(subtotal) == subtotal
    ensures subtotal >= 0 ==> DepositShare(subtotal) >= 0 && RemainderShare(subtotal) >= 0
  {
    var q, r := subtotal / 5, subtotal % 5;
    assert subtotal == 5 * q + r;
    assert 4 * subtotal == 5 * (4 * q) + 4 * r;
    if r == 0 {
      assert DepositShare(subtotal) == q && RemainderShare(subtotal) == 4 * q;
    } else if r == 1 {
      assert (4 * subtotal) / 5 == 4 * q && (4 * subtotal) % 5 == 4;
      assert DepositShare(subtotal) == q && RemainderShare(subtotal) == 4 * q + 1;
    } else if r == 2 {
      assert (4 * subtotal) / 5 == 4 * q + 1 && (4 * subtotal) % 5 == 3;
      assert DepositShare(subtotal) == q && RemainderShare(subtotal) == 4 * q + 2;
    } else if r == 3 {
      assert (4 * subtotal) / 5 == 4 * q + 2 && (4 * subtotal) % 5 == 2;
      assert DepositShare(subtotal) == q + 1 && RemainderShare(subtotal) == 4 * q + 2;
    } else {
      assert (4 * subtotal) / 5 == 4 * q + 3 && (4 * subtotal) % 5 == 1;
      assert DepositShare(subtotal) == q + 1 && RemainderShare(subtotal) == 4 * q + 3;
    }
  }

  // ---------------------------------------------------------------------------
  // Order number, reservation code, QR payload

  /** `$"ODN-{n}"` */
  function OrderNumberOf(n: nat): string { "ODN-" + NatToString(n) }

  /** `n.ToString()` */
  function ReservationCodeOf(n: nat): string { NatToString(n) }

  /** `$"ORDER-{OrderNumber}-{ReservationCode}"` */
  function QrCodeOf(orderNumber: string, reservationCode: string): string {
    "ORDER-" + orderNumber + "-" + reservationCode
  }

  /** `RandomNumberGenerator.GetInt32(lo, hi)` draws from [lo, hi). */
  predicate OrderNumberDraw(n: nat) { 10000 <= n < 99999 }
  predicate ReservationCodeDraw(n: nat) { 100000 <= n < 999999 }

  /** An order number is "ODN-" and five digits, a reservation code six digits,
      and the QR payload splits back into both, so each of the two numbers can
      be read back from it. */
  lemma CodesFormat(n: nat, c: nat)
    requires OrderNumberDraw(n) && ReservationCodeDraw(c)
    ensures var on, rc := OrderNumberOf(n), ReservationCodeOf(c);
      var qr := QrCodeOf(on, rc);
      && |on| == 9 && on[..4] == "ODN-" && ParseNat(on[4..]) == n
      && |rc| == 6 && ParseNat(rc) == c
      && |qr| == 22 && qr[..6] == "ORDER-" && qr[6..15] == on && qr[15] == '-' && qr[16..] == rc
  {
    assert Pow10(4) == 10000 && Pow10(5) == 100000 && Pow10(6) == 1000000;
    PrintedLength(n, 5);
    PrintedLength(c, 6);
    ParsePrinted(n);
    ParsePrinted(c);
    var on := OrderNumberOf(n);
    assert on[4..] == NatToString(n);
  }

  // ---------------------------------------------------------------------------
  // CreateOrderAsync

  /** `request.Items.Select(i => i.MenuItemId).Contains(id)` */
  predicate Requests(reqs: seq<OrderItemRequest>, id: Id) {
    exists k :: 0 <= k < |reqs| && reqs[k].menuItemId == id
  }

  function IsRequested(reqs: seq<OrderItemRequest>): MenuItem -> bool {
    (mi: MenuItem) => Requests(reqs, mi.id)
  }

  /** The menu items the query loads: every row whose key is requested. */
  function Matched(menuItems: seq<MenuItem>, reqs: seq<OrderItemRequest>): seq<MenuItem> {
    Filter(menuItems, IsRequested(reqs))
  }

  function HasMenuKey(id: Id): MenuItem -> bool {
    (mi: MenuItem) => mi.id == id
  }

  /** `menuItems.First(mi => mi.Id == id)`, None where it would throw. */
  function FindMenuItem(menuItems: seq<MenuItem>, id: Id): (r: Option<nat>)
    ensures r.None? <==> !MenuItemExists(menuItems, id)
    ensures r.Some? ==> r.value < |menuItems| && menuItems[r.value].id == id
  {
    FirstIndex(menuItems, HasMenuKey(id))
  }

  /** The order line for a menu item: its title and base price, no discount. */
  function Line(mi: MenuItem, quantity: int): OrderItem {
    OrderItem(mi.id, mi.title, quantity, mi.basePrice, 0)
  }

  predicate LineFor(loaded: seq<MenuItem>, req: OrderItemRequest, line: OrderItem) {
    FindMenuItem(loaded, req.menuItemId).Some?
    && line == Line(loaded[FindMenuItem(loaded, req.menuItemId).value], req.quantity)
  }

  /** One line per requested item from the first loaded menu item with its key;
      None when some requested key has no loaded menu item. */
  function BuildItems(loaded: seq<MenuItem>, reqs: seq<OrderItemRequest>): (r: Option<seq<OrderItem>>)
    ensures r.None? <==> exists k :: 0 <= k < |reqs| && !MenuItemExists(loaded, reqs[k].menuItemId)
    ensures r.Some? ==> |r.value| == |reqs|
                        && forall k :: 0 <= k < |reqs| ==> LineFor(loaded, reqs[k], r.value[k])
  {
    if |reqs| == 0 then Some([])
    else
      assert forall k :: 1 <= k < |reqs| ==> reqs[k] == reqs[1..][k - 1];
      match FindMenuItem(loaded, reqs[0].menuItemId)
      case None => None
      case Some(j) =>
        match BuildItems(loaded, reqs[1..])
        case None => None
        case Some(rest) => Some([Line(loaded[j], reqs[0].quantity)] + rest)
  }

  /** The order a successful create stores. */
  function NewOrder(id: Id, userId: Id, req: CreateOrderRequest, lines: seq<OrderItem>,
                    orderNo: nat, codeNo: nat, now: Time): Order {
    var on, rc := OrderNumberOf(orderNo), ReservationCodeOf(codeNo);
    Order(id, on, userId, req.restaurantId, Pending, req.orderType, Some(rc),
          Some(now + ReservationMinutes), DepositShare(Subtotal(lines)), RemainderShare(Subtotal(lines)),
          Some(QrCodeOf(on, rc)), req.notes, now, None, None, None, lines)
  }

  /** Some stored order already carries the order number. */
  predicate OrderNumberTaken(orders: seq<Order>, orderNumber: string) {
    exists j :: 0 <= j < |orders| && orders[j].orderNumber == orderNumber
  }

  /** The unique index on OrderNumber: no two orders share one. */
  predicate OrderNumbersUnique(orders: seq<Order>) {
    forall i, j :: 0 <= i < j < |orders| ==> orders[i].orderNumber != orders[j].orderNumber
  }

  /** Places an order: fails when the restaurant is unknown or the number of
      loaded menu items differs from the number of requested items; otherwise
      builds a Pending order with the drawn order number and reservation code
      (`orderNo` and `codeNo`, drawn from the source's ranges), the reservation
      held for an hour, and the deposit and remainder of the lines' subtotal.
      Saving it fails when the drawn order number is already in use. */
  method CreateOrder(db: Store, userId: Id, req: CreateOrderRequest, newId: Id, now: Time,
                     orderNo: nat, codeNo: nat)
    returns (r: Result<Order, OrderError>)
    requires OrderNumberDraw(orderNo) && ReservationCodeDraw(codeNo)
    modifies db`orders
    ensures !RestaurantExists(db.restaurants, req.restaurantId) ==> r == Failure(RestaurantNotFound)
    ensures (RestaurantExists(db.restaurants, req.restaurantId)
             && Count(db.menuItems, IsRequested(req.items)) != |req.items|) ==> r == Failure(InvalidMenuItems)
    ensures r == Failure(NoMatchingMenuItem) ==> BuildItems(Matched(db.menuItems, req.items), req.items).None?
    ensures r == Failure(DuplicateOrderNumber) ==> OrderNumberTaken(old(db.orders), OrderNumberOf(orderNo))
    ensures r.Failure? ==> db.orders == old(db.orders)
    ensures r.Success? <==>
      && RestaurantExists(db.restaurants, req.restaurantId)
      && Count(db.menuItems, IsRequested(req.items)) == |req.items|
      && BuildItems(Matched(db.menuItems, req.items), req.items).Some?
      && !OrderNumberTaken(old(db.orders), OrderNumberOf(orderNo))
    ensures MenuKeysUnique(db.menuItems) ==>
      (r.Success? <==> RestaurantExists(db.restaurants, req.restaurantId)
                       && Count(db.menuItems, IsRequested(req.items)) == |req.items|
                       && !OrderNumberTaken(old(db.orders), OrderNumberOf(orderNo)))
    ensures r.Success? ==>
      && r.value == NewOrder(newId, userId, req, BuildItems(Matched(db.menuItems, req.items), req.items).value,
                             orderNo, codeNo, now)
      && db.orders == old(db.orders) + [r.value]
    ensures OrderNumbersUnique(old(db.orders)) ==> OrderNumbersUnique(db.orders)
  {
    if !RestaurantExists(db.restaurants, req.restaurantId) {
      return Failure(RestaurantNotFound);
    }
    var menuItems := Matched(db.menuItems, req.items);
    if |menuItems| != |req.items| {
      return Failure(InvalidMenuItems);
    }
    if MenuKeysUnique(db.menuItems) {
      AcceptedRequestResolves(db.menuItems, req.items);
    }
    var orderItems := BuildItems(menuItems, req.items);
    if orderItems.None? {
      return Failure(NoMatchingMenuItem);
    }
    var order := NewOrder(newId, userId, req, orderItems.value, orderNo, codeNo, now);
    if OrderNumberTaken(db.orders, order.orderNumber) {
      return Failure(DuplicateOrderNumber);
    }
    FreshNumberKeepsUnique(db.orders, order);
    db.orders := db.orders + [order];
    r := Success(order);
  }

  /** Storing an order under an unused number keeps order numbers unique. */
  lemma FreshNumberKeepsUnique(orders: seq<Order>, o: Order)
    requires !OrderNumberTaken(orders, o.orderNumber)
    ensures OrderNumbersUnique(orders) ==> OrderNumbersUnique(orders + [o])
  {
    var all := orders + [o];
    if OrderNumbersUnique(orders) {
      forall i, j | 0 <= i < j < |all| ensures all[i].orderNumber != all[j].orderNumber {
        assert all[i] == orders[i];
        if j < |orders| {
          assert all[j] == orders[j];
        }
      }
    }
  }

  /** Menu item keys are primary keys. */
  predicate MenuKeysUnique(menuItems: seq<MenuItem>) {
    forall i, j :: 0 <= i < j < |menuItems| ==> menuItems[i].id != menuItems[j].id
  }

  /** With unique keys a key matches one menu item, or none. */
  lemma {:induction false} KeyCount(menuItems: seq<MenuItem>, id: Id)
    requires MenuKeysUnique(menuItems)
    ensures Count(menuItems, HasMenuKey(id)) == if MenuItemExists(menuItems, id) then 1 else 0
  {
    if |menuItems| > 0 {
      var init := menuItems[..|menuItems| - 1];
      assert forall j :: 0 <= j < |init| ==> init[j] == menuItems[j];
      KeyCount(init, id);
      if menuItems[|menuItems| - 1].id == id {
        assert !MenuItemExists(init, id);
        assert MenuItemExists(menuItems, id);
      } else {
        assert MenuItemExists(menuItems, id) ==> MenuItemExists(init, id);
      }
    }
  }

  /** Requested positions whose key is both new among the earlier requests and
      held by a menu item. */
  function FreshResolving(menuItems: seq<MenuItem>, reqs: seq<OrderItemRequest>): (n: nat)
    ensures n <= |reqs|
  {
    if |reqs| == 0 then 0
    else
      var init, x := reqs[..|reqs| - 1], reqs[|reqs| - 1];
      FreshResolving(menuItems, init)
      + (if MenuItemExists(menuItems, x.menuItemId) && !Requests(init, x.menuItemId) then 1 else 0)
  }

  function NewKey(init: seq<OrderItemRequest>, id: Id): MenuItem -> bool {
    (mi: MenuItem) => mi.id == id && !Requests(init, id)
  }

  /** The query loads one menu item per distinct requested key that exists. */
  lemma {:induction false} LoadedCount(menuItems: seq<MenuItem>, reqs: seq<OrderItemRequest>)
    requires MenuKeysUnique(menuItems)
    ensures Count(menuItems, IsRequested(reqs)) == FreshResolving(menuItems, reqs)
  {
    if |reqs| == 0 {
      CountZero(menuItems, IsRequested(reqs));
    } else {
      var init, x := reqs[..|reqs| - 1], reqs[|reqs| - 1];
      LoadedCount(menuItems, init);
      forall j | 0 <= j < |menuItems|
        ensures (IsRequested(reqs)(menuItems[j]) <==>
                  IsRequested(init)(menuItems[j]) || NewKey(init, x.menuItemId)(menuItems[j]))
                && !(IsRequested(init)(menuItems[j]) && NewKey(init, x.menuItemId)(menuItems[j]))
      {
        if Requests(reqs, menuItems[j].id) {
          var k :| 0 <= k < |reqs| && reqs[k].menuItemId == menuItems[j].id;
          if k < |init| {
            assert init[k] == reqs[k];
          }
        }
        if Requests(init, menuItems[j].id) {
          var k :| 0 <= k < |init| && init[k].menuItemId == menuItems[j].id;
          assert reqs[k] == init[k];
        }
      }
      CountSplit(menuItems, IsRequested(reqs), IsRequested(init), NewKey(init, x.menuItemId));
      if Requests(init, x.menuItemId) {
        CountZero(menuItems, NewKey(init, x.menuItemId));
      } else {
        CountSame(menuItems, NewKey(init, x.menuItemId), HasMenuKey(x.menuItemId));
        KeyCount(menuItems, x.menuItemId);
      }
    }
  }

  /** All requested positions count only when every key exists and no key is
      requested twice. */
  lemma {:induction false} FreshResolvingFull(menuItems: seq<MenuItem>, reqs: seq<OrderItemRequest>)
    requires FreshResolving(menuItems, reqs) == |reqs|
    ensures forall k :: 0 <= k < |reqs| ==> MenuItemExists(menuItems, reqs[k].menuItemId)
    ensures forall a, b :: 0 <= a < b < |reqs| ==> reqs[a].menuItemId != reqs[b].menuItemId
  {
    if |reqs| > 0 {
      var init, x := reqs[..|reqs| - 1], reqs[|reqs| - 1];
      FreshResolvingFull(menuItems, init);
      assert forall k :: 0 <= k < |init| ==> reqs[k] == init[k];
      forall a, b | 0 <= a < b < |reqs| ensures reqs[a].menuItemId != reqs[b].menuItemId {
        if b == |init| {
          assert init[a].menuItemId == reqs[a].menuItemId;
        }
      }
    }
  }

  /** When the count check passes over primary keys, every requested item has
      exactly one menu item and no item is requested twice; so `First` always
      finds its menu item and the NoMatchingMenuItem failure cannot occur. */
  lemma AcceptedRequestResolves(menuItems: seq<MenuItem>, reqs: seq<OrderItemRequest>)
    requires MenuKeysUnique(menuItems)
    requires Count(menuItems, IsRequested(reqs)) == |reqs|
    ensures forall a, b :: 0 <= a < b < |reqs| ==> reqs[a].menuItemId != reqs[b].menuItemId
    ensures BuildItems(Matched(menuItems, reqs), reqs).Some?
  {
    LoadedCount(menuItems, reqs);
    FreshResolvingFull(menuItems, reqs);
    var loaded := Matched(menuItems, reqs);
    forall k | 0 <= k < |reqs| ensures MenuItemExists(loaded, reqs[k].menuItemId) {
      var j :| 0 <= j < |menuItems| && menuItems[j].id == reqs[k].menuItemId;
      FilterKeeps(menuItems, IsRequested(reqs), menuItems[j]);
      var i :| 0 <= i < |loaded| && loaded[i] == menuItems[j];
    }
  }

  /** A request naming one menu item on two lines is rejected, however the
      quantities differ: the query loads that menu item once. */
  lemma RepeatedItemRejected(menuItems: seq<MenuItem>, reqs: seq<OrderItemRequest>, a: nat, b: nat)
    requires MenuKeysUnique(menuItems)
    requires a < b < |reqs| && reqs[a].menuItemId == reqs[b].menuItemId
    ensures Count(menuItems, IsRequested(reqs)) < |reqs|
  {
    if Count(menuItems, IsRequested(reqs)) == |reqs| {
      AcceptedRequestResolves(menuItems, reqs);
    }
  }

  // ---------------------------------------------------------------------------
  // Looking up the caller's order

  function IsOrderOf(orderId: Id, userId: Id): Order -> bool {
    (o: Order) => o.id == orderId && o.userId == userId
  }

  /** `FirstOrDefaultAsync(o => o.Id == orderId && o.UserId == userId)` */
  function FindOrder(orders: seq<Order>, orderId: Id, userId: Id): (r: Option<nat>)
    ensures r.None? <==> forall j :: 0 <= j < |orders| ==> !(orders[j].id == orderId && orders[j].userId == userId)
    ensures r.Some? ==> r.value < |orders| && orders[r.value].id == orderId && orders[r.value].userId == userId
  {
    FirstIndex(orders, IsOrderOf(orderId, userId))
  }

  // ---------------------------------------------------------------------------
  // ConfirmOrderAsync

  /** An order confirmed at `now`; its status before is not consulted. */
  function ConfirmedAt(o: Order, now: Time): Order {
    o.(status := OrderStatus.Confirmed, confirmedAt := Some(now))
  }

  /** Confirms the caller's order when the reservation code matches: None for a
      missing or foreign order, a mismatch failure for a wrong code (an order
      without code never matches), else the order Confirmed now. */
  method ConfirmOrder(db: Store, userId: Id, orderId: Id, code: string, now: Time)
    returns (r: Result<Option<Order>, OrderError>)
    modifies db`orders
    ensures FindOrder(old(db.orders), orderId, userId).None? ==> r == Success(None) && db.orders == old(db.orders)
    ensures FindOrder(old(db.orders), orderId, userId).Some? ==>
      var i := FindOrder(old(db.orders), orderId, userId).value;
      if old(db.orders)[i].reservationCode != Some(code)
      then r == Failure(ReservationCodeMismatch) && db.orders == old(db.orders)
      else r == Success(Some(ConfirmedAt(old(db.orders)[i], now)))
           && db.orders == old(db.orders)[i := ConfirmedAt(old(db.orders)[i], now)]
  {
    var found := FindOrder(db.orders, orderId, userId);
    if found.None? {
      return Success(None);
    }
    var order := db.orders[found.value];
    if order.reservationCode != Some(code) {
      return Failure(ReservationCodeMismatch);
    }
    var confirmed := ConfirmedAt(order, now);
    db.orders := db.orders[found.value := confirmed];
    r := Success(Some(confirmed));
  }

  // ---------------------------------------------------------------------------
  // CancelOrderAsync

  /** Completed and Cancelled orders cannot be cancelled. */
  predicate Cancellable(o: Order) {
    o.status != Completed && o.status != Cancelled
  }

  function CancelledAt(o: Order, now: Time): Order {
    o.(status := Cancelled, cancelledAt := Some(now))
  }

  /** Cancels the caller's order unless it is Completed or already Cancelled. */
  method CancelOrder(db: Store, userId: Id, orderId: Id, now: Time) returns (cancelled: bool)
    modifies db`orders
    ensures cancelled <==> FindOrder(old(db.orders), orderId, userId).Some?
                           && Cancellable(old(db.orders)[FindOrder(old(db.orders), orderId, userId).value])
    ensures cancelled ==> var i := FindOrder(old(db.orders), orderId, userId).value;
                          db.orders == old(db.orders)[i := CancelledAt(old(db.orders)[i], now)]
    ensures !cancelled ==> db.orders == old(db.orders)
  {
    var found := FindOrder(db.orders, orderId, userId);
    if found.None? {
      return false;
    }
    var order := db.orders[found.value];
    if order.status == Completed || order.status == Cancelled {
      return false;
    }
    db.orders := db.orders[found.value := CancelledAt(order, now)];
    cancelled := true;
  }

  /** Cancelling twice: the second call finds the order Cancelled and refuses. */
  lemma CancelOnce(orders: seq<Order>, orderId: Id, userId: Id, now: Time)
    requires FindOrder(orders, orderId, userId).Some?
    ensures var i := FindOrder(orders, orderId, userId).value;
      var after := orders[i := CancelledAt(orders[i], now)];
      FindOrder(after, orderId, userId) == Some(i) && !Cancellable(after[i])
  {
    var i := FindOrder(orders, orderId, userId).value;
    var after := orders[i := CancelledAt(orders[i], now)];
    assert forall j :: 0 <= j < i ==> after[j] == orders[j];
    var r := FindOrder(after, orderId, userId);
    assert IsOrderOf(orderId, userId)(after[i]);
    assert r.Some? && r.value <= i;
  }

  /** Confirmation does not look at the status: the right code turns a
      Cancelled or Completed order back into a Confirmed one. */
  lemma ConfirmIgnoresStatus(o: Order, now: Time)
    requires o.status == Cancelled || o.status == Completed
    ensures ConfirmedAt(o, now).status == OrderStatus.Confirmed && Cancellable(ConfirmedAt(o, now))
  {
  }

  // ---------------------------------------------------------------------------
  // ProcessPaymentAsync

  /** Why a payment is refused, if it is: an unpaid part must remain for a
      Deposit or a Remaining payment; a Full payment is never refused. */
  function PaymentRefusal(o: Order, kind: PaymentType): Option<OrderError> {
    if kind == Deposit && o.depositAmount <= 0 then Some(DepositAlreadyPaid)
    else if kind == PaymentType.Remaining && o.remainingAmount <= 0 then Some(RemainingAlreadyPaid)
    else None
  }

  /** The order after a payment: a Deposit payment reduces the deposit, any
      other the remainder, never below zero; with both at zero the order is
      Completed now. */
  function ApplyPayment(o: Order, kind: PaymentType, amount: int, now: Time): Order {
    var paid := if kind == Deposit then o.(depositAmount := Max(0, o.depositAmount - amount))
                else o.(remainingAmount := Max(0, o.remainingAmount - amount));
    if paid.depositAmount == 0 && paid.remainingAmount == 0
    then paid.(status := Completed, completedAt := Some(now))
    else paid
  }

  /** A payment reduces the part it is for by the amount or to zero, leaves the
      other part, completes the order when nothing is left unpaid and otherwise
      keeps its status; no other field changes.
      This is the field-by-field relational form of `ApplyPayment`. */
  lemma PaymentEffect(o: Order, kind: PaymentType, amount: int, now: Time)
    requires amount >= 0
    ensures var p := ApplyPayment(o, kind, amount, now);
      && (kind == Deposit ==> p.depositAmount == Max(0, o.depositAmount - amount)
                              && p.remainingAmount == o.remainingAmount)
      && (kind != Deposit ==> p.remainingAmount == Max(0, o.remainingAmount - amount)
                              && p.depositAmount == o.depositAmount)
      && (p.depositAmount == 0 && p.remainingAmount == 0 ==> p.status == Completed && p.completedAt == Some(now))
      && (p.depositAmount != 0 || p.remainingAmount != 0 ==> p.status == o.status && p.completedAt == o.completedAt)
      && p == o.(depositAmount := p.depositAmount, remainingAmount := p.remainingAmount,
                 status := p.status, completedAt := p.completedAt)
  {
  }

  /** Paying the whole deposit and then the whole remainder completes a fresh
      order, and neither payment is refused. */
  lemma PayInFullCompletes(o: Order, d: int, m: int, now: Time, later: Time)
    requires o.depositAmount > 0 && o.remainingAmount > 0
    requires d >= o.depositAmount && m >= o.remainingAmount
    ensures PaymentRefusal(o, Deposit).None?
    ensures var p := ApplyPayment(o, Deposit, d, now);
      && PaymentRefusal(p, PaymentType.Remaining).None?
      && var q := ApplyPayment(p, PaymentType.Remaining, m, later);
         q.status == Completed && q.depositAmount == 0 && q.remainingAmount == 0
         && q.completedAt == Some(later)
  {
  }

  /** The payment row: Succeeded, processed now. */
  function NewPayment(id: Id, orderId: Id, userId: Id, req: PaymentRequest, now: Time): Payment {
    Payment(id, orderId, userId, req.amount, req.paymentType, Succeeded, Some(now), req.paymentMethod)
  }

  /** Records a payment against the caller's order and applies it: fails for a
      missing or foreign order, or for a part already paid. */
  method ProcessPayment(db: Store, userId: Id, req: PaymentRequest, newId: Id, now: Time)
    returns (r: Result<Payment, OrderError>)
    modifies db`orders, db`payments
    ensures FindOrder(old(db.orders), req.orderId, userId).None? ==>
              r == Failure(OrderNotFound) && db.orders == old(db.orders) && db.payments == old(db.payments)
    ensures FindOrder(old(db.orders), req.orderId, userId).Some? ==>
      var i := FindOrder(old(db.orders), req.orderId, userId).value;
      var o := old(db.orders)[i];
      match PaymentRefusal(o, req.paymentType)
      case Some(e) => r == Failure(e) && db.orders == old(db.orders) && db.payments == old(db.payments)
      case None =>
        && r == Success(NewPayment(newId, o.id, userId, req, now))
        && db.orders == old(db.orders)[i := ApplyPayment(o, req.paymentType, req.amount, now)]
        && db.payments == old(db.payments) + [r.value]
  {
    var found := FindOrder(db.orders, req.orderId, userId);
    if found.None? {
      return Failure(OrderNotFound);
    }
    var order := db.orders[found.value];
    var refusal := PaymentRefusal(order, req.paymentType);
    if refusal.Some? {
      return Failure(refusal.value);
    }
    var payment := NewPayment(newId, order.id, userId, req, now);
    db.orders := db.orders[found.value := ApplyPayment(order, req.paymentType, req.amount, now)];
    db.payments := db.payments + [payment];
    r := Success(payment);
  }
}
