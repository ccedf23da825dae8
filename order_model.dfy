// The order schema (server/models/Order.js): item snapshots, the two status
// enums with their string spellings and defaults, and the validators
// Order.create and order.save() run.
module OrderModel {
  import opened Common

  datatype OrderStatus = Pending | Processing | Completed | Cancelled
  datatype PaymentStatus = PaymentPending | PaymentCompleted | PaymentFailed

  function OrderStatusName(s: OrderStatus): string {
    match s
    case Pending => "pending"
    case Processing => "processing"
    case Completed => "completed"
    case Cancelled => "cancelled"
  }

  /** The `enum` validator of `status`: which strings it accepts. */
  function ParseOrderStatus(s: string): (r: Option<OrderStatus>)
    ensures r.Some? ==> OrderStatusName(r.value) == s
  {
    if s == "pending" then Some(Pending)
    else if s == "processing" then Some(Processing)
    else if s == "completed" then Some(Completed)
    else if s == "cancelled" then Some(Cancelled)
    else None
  }

  /** The enum accepts exactly the four spellings. */
  lemma ParseOrderStatusExact(s: string, st: OrderStatus)
    ensures ParseOrderStatus(s) == Some(st) <==> OrderStatusName(st) == s
  {
    match st
    case Pending =>
    case Processing => assert "processing" != "pending";
    case Completed => assert "completed" != "pending" && "completed" != "processing";
    case Cancelled =>
      assert "cancelled" != "pending" && "cancelled" != "processing" && "cancelled" != "completed";
  }

  function PaymentStatusName(s: PaymentStatus): string {
    match s
    case PaymentPending => "pending"
    case PaymentCompleted => "completed"
    case PaymentFailed => "failed"
  }

  /** The `enum` validator of `paymentStatus`. */
  function ParsePaymentStatus(s: string): (r: Option<PaymentStatus>)
    ensures r.Some? ==> PaymentStatusName(r.value) == s
  {
    if s == "pending" then Some(PaymentPending)
    else if s == "completed" then Some(PaymentCompleted)
    else if s == "failed" then Some(PaymentFailed)
    else None
  }

  /** The enum accepts exactly the three spellings. */
  lemma ParsePaymentStatusExact(s: string, st: PaymentStatus)
    ensures ParsePaymentStatus(s) == Some(st) <==> PaymentStatusName(st) == s
  {
    match st
    case PaymentPending =>
    case PaymentCompleted => assert "completed" != "pending";
    case PaymentFailed => assert "failed" != "pending" && "failed" != "completed";
  }

  datatype Address = Address(
    street: Option<string>,
    city: Option<string>,
    state: Option<string>,
    zipCode: Option<string>,
    country: Option<string>)

  /** One line of an order, as the client submitted it. */
  datatype OrderItem = OrderItem(
    bookId: BookId,
    title: Option<string>,
    author: Option<string>,
    price: real,
    quantity: int)

  datatype Order = Order(
    id: OrderId,
    userId: UserId,
    items: seq<OrderItem>,
    totalAmount: real,
    status: OrderStatus,
    paymentId: string,
    paymentStatus: PaymentStatus,
    shippingAddress: Option<Address>)

  /** What the schema promises of every stored order. (userId and totalAmount
      are required too; here they are always present by their types.) */
  predicate ValidOrder(o: Order) {
    && o.paymentId != []
    && forall k :: 0 <= k < |o.items| ==> o.items[k].quantity >= 1
  }

  /** The messages the item validators produce, in item order: one,
      naming the item's index, per item whose quantity is below 1. */
  function ItemErrors(items: seq<OrderItem>): (errs: seq<string>)
    ensures errs == [] <==> forall k :: 0 <= k < |items| ==> items[k].quantity >= 1
    ensures |errs| <= |items|
  {
    if items == [] then []
    else
      var k := |items| - 1;
      assert forall j :: 0 <= j < k ==> items[..k][j] == items[j];
      ItemErrors(items[..k]) + (if items[k].quantity >= 1 then [] else [QuantityError(k)])
  }

  /** Every message names the index of a item below quantity 1, and every
      such item has its message. */
  lemma ItemErrorsNameItems(items: seq<OrderItem>)
    ensures forall m :: m in ItemErrors(items) <==>
              exists k :: 0 <= k < |items| && items[k].quantity < 1 && m == QuantityError(k)
  {
    ItemErrorsSound(items);
    ItemErrorsComplete(items);
  }

  lemma {:induction false} ItemErrorsSound(items: seq<OrderItem>)
    ensures forall m :: m in ItemErrors(items) ==>
              exists k :: 0 <= k < |items| && items[k].quantity < 1 && m == QuantityError(k)
  {
    if items != [] {
      var k := |items| - 1;
      var front := items[..k];
      ItemErrorsSound(front);
      assert ItemErrors(items) == ItemErrors(front) + (if items[k].quantity >= 1 then [] else [QuantityError(k)]);
      forall m | m in ItemErrors(front)
        ensures exists j :: 0 <= j < |items| && items[j].quantity < 1 && m == QuantityError(j)
      {
        var j :| 0 <= j < |front| && front[j].quantity < 1 && m == QuantityError(j);
        assert items[j] == front[j];
      }
    }
  }

  lemma {:induction false} ItemErrorsComplete(items: seq<OrderItem>)
    ensures forall k :: 0 <= k < |items| && items[k].quantity < 1 ==> QuantityError(k) in ItemErrors(items)
  {
    if items != [] {
      var k := |items| - 1;
      var front := items[..k];
      ItemErrorsComplete(front);
      assert ItemErrors(items) == ItemErrors(front) + (if items[k].quantity >= 1 then [] else [QuantityError(k)]);
      assert forall j :: 0 <= j < k ==> front[j] == items[j];
    }
  }

  /** Order.create: `status` and `paymentStatus` default to pending when not
      given, then the document is validated. */
  function CreateOrder(id: OrderId, userId: UserId, items: seq<OrderItem>, totalAmount: real,
                       status: Option<OrderStatus>, paymentId: string,
                       paymentStatus: Option<PaymentStatus>,
                       shippingAddress: Option<Address>): (r: Outcome<Order>)
    ensures r.Ok? <==> paymentId != [] && forall k :: 0 <= k < |items| ==> items[k].quantity >= 1
    ensures r.Ok? ==> ValidOrder(r.value)
    ensures r.Ok? ==> r.value.status == (if status.None? then Pending else status.value)
    ensures r.Ok? ==> r.value.paymentStatus ==
                      (if paymentStatus.None? then PaymentPending else paymentStatus.value)
    ensures r.Ok? ==> r.value.items == items && r.value.totalAmount == totalAmount
                      && r.value.userId == userId && r.value.id == id
                      && r.value.paymentId == paymentId && r.value.shippingAddress == shippingAddress
    ensures r.Err? ==> r.code == 500
  {
    var errs := (if paymentId == [] then ["paymentId: Path `paymentId` is required."] else [])
                + ItemErrors(items);
    if errs != [] then Err(500, "Order validation failed: " + Join(errs, ", "))
    else Ok(Order(id, userId, items, totalAmount,
                  if status.None? then Pending else status.value,
                  paymentId,
                  if paymentStatus.None? then PaymentPending else paymentStatus.value,
                  shippingAddress))
  }

  // ---------------------------------------------------------------------
  // The order collection.

  predicate UniqueOrderIds(orders: seq<Order>) {
    forall i, j :: 0 <= i < j < |orders| ==> orders[i].id != orders[j].id
  }

  predicate HasOrderId(orders: seq<Order>, id: OrderId) {
    exists i :: 0 <= i < |orders| && orders[i].id == id
  }

  /** Order.findOne({ _id: orderId, userId }): the position of the first
      order carrying the id AND owned by the caller. */
  function OwnedOrderIndex(orders: seq<Order>, id: OrderId, userId: UserId): (r: Option<nat>)
    ensures r.Some? ==> r.value < |orders| && orders[r.value].id == id && orders[r.value].userId == userId
    ensures r.None? <==> !exists i :: 0 <= i < |orders| && orders[i].id == id && orders[i].userId == userId
  {
    if orders == [] then None
    else if orders[0].id == id && orders[0].userId == userId then Some(0)
    else
      var r := OwnedOrderIndex(orders[1..], id, userId);
      assert forall i :: 1 <= i < |orders| ==> orders[i] == orders[1..][i - 1];
      if r.None? then None else Some(r.value + 1)
  }

  /** Order.findOne({ paymentId }): the first order with that payment id. */
  function PaymentOrderIndex(orders: seq<Order>, paymentId: string): (r: Option<nat>)
    ensures r.Some? ==> r.value < |orders| && orders[r.value].paymentId == paymentId
    ensures r.Some? ==> forall i :: 0 <= i < r.value ==> orders[i].paymentId != paymentId
    ensures r.None? <==> !exists i :: 0 <= i < |orders| && orders[i].paymentId == paymentId
  {
    if orders == [] then None
    else if orders[0].paymentId == paymentId then Some(0)
    else
      var r := PaymentOrderIndex(orders[1..], paymentId);
      assert forall i :: 1 <= i < |orders| ==> orders[i] == orders[1..][i - 1];
      if r.None? then None else Some(r.value + 1)
  }
}
