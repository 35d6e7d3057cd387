/** What the written rows say about each purchase, read off the statement stream alone. */
module OrderMeaning {
  import opened Common
  import opened OrderLifecycle
  import opened OrderTables
  import opened OrderExport

  /** The rows that refer to the same order or payment, in the order they were written. */
  function Naming(rows: seq<Row>, k: int): seq<Row> {
    if rows == [] then []
    else
      var last := rows[|rows| - 1];
      Naming(rows[..|rows| - 1], k) + if Reference(last) == k then [last] else []
  }

  lemma {:induction false} NamingSplit(a: seq<Row>, b: seq<Row>, k: int)
    ensures Naming(a + b, k) == Naming(a, k) + Naming(b, k)
  {
    if b == [] {
      assert a + b == a;
    } else {
      NamingSplit(a, b[..|b| - 1], k);
      assert (a + b)[..|a + b| - 1] == a + b[..|b| - 1];
    }
  }

  lemma {:induction false} NamingOwn(rows: seq<Row>, order: int, k: int)
    requires forall i :: 0 <= i < |rows| ==> Reference(rows[i]) == order
    ensures Naming(rows, k) == if k == order then rows else []
  {
    if rows != [] {
      NamingOwn(rows[..|rows| - 1], order, k);
      assert rows == rows[..|rows| - 1] + [rows[|rows| - 1]];
    }
  }

  /** Tables whose rows refer to an order, or to a payment, which carries its order's number. */
  predicate OfAnOrder(t: Table) {
    t in {Items, StatusHistory, Redemptions, Shipments, Movements, Refunds}
  }

  /** The rows emitted for the k-th order. */
  function Own(done: seq<Order>, t: Table, k: int): seq<Row>
    requires 1 <= k <= |done|
  {
    Emit(done[k - 1], k, CountersOf(done[..k - 1]), t)
  }

  lemma OwnStays(done: seq<Order>, n: nat, t: Table, k: int)
    requires 1 <= k <= n <= |done|
    ensures Own(done[..n], t, k) == Own(done, t, k)
  {
    assert done[..n][..k - 1] == done[..k - 1];
  }

  lemma OwnIsAppended(done: seq<Order>, t: Table)
    requires done != []
    ensures Rows(done, t) == Rows(done[..|done| - 1], t) + Own(done, t, |done|)
  {
    var n := |done| - 1;
    EmissionIsAppended(done[..n], done[n], t);
    assert done[..n] + [done[n]] == done;
  }

  lemma OwnRefers(done: seq<Order>, t: Table, k: int)
    requires OfAnOrder(t) && 1 <= k <= |done|
    ensures forall i :: 0 <= i < |Own(done, t, k)| ==> Reference(Own(done, t, k)[i]) == k
  {
    forall i | 0 <= i < |Own(done, t, k)|
      ensures Reference(Own(done, t, k)[i]) == k
    {
      EmitRefers(done[k - 1], k, CountersOf(done[..k - 1]), t, i);
    }
  }

  lemma NamingGrows(done: seq<Order>, t: Table, k: int)
    requires OfAnOrder(t) && done != []
    ensures var n := |done| - 1;
            Naming(Rows(done, t), k) == Naming(Rows(done[..n], t), k) + if k == n + 1 then Own(done, t, n + 1) else []
  {
    var n := |done| - 1;
    OwnIsAppended(done, t);
    OwnRefers(done, t, n + 1);
    NamingSplit(Rows(done[..n], t), Own(done, t, n + 1), k);
    NamingOwn(Own(done, t, n + 1), n + 1, k);
  }

  lemma {:induction false} NobodyNamesLater(done: seq<Order>, t: Table, k: int)
    requires OfAnOrder(t) && k > |done|
    ensures Naming(Rows(done, t), k) == []
  {
    if done != [] {
      NobodyNamesLater(done[..|done| - 1], t, k);
      NamingGrows(done, t, k);
    }
  }

  /** No row of another order is mixed in, and none is lost. */
  lemma {:induction false} RowsOfOneOrder(done: seq<Order>, t: Table, k: int)
    requires OfAnOrder(t) && 1 <= k <= |done|
    ensures Naming(Rows(done, t), k) == Own(done, t, k)
  {
    var n := |done| - 1;
    NamingGrows(done, t, k);
    if k <= n {
      RowsOfOneOrder(done[..n], t, k);
      OwnStays(done, n, t, k);
    } else {
      NobodyNamesLater(done[..n], t, k);
    }
  }

  // ----- the rows of one order, field by field -----

  /** One item a line, with its price, quantity and their product. */
  predicate ItemsSay(rows: seq<Row>, p: Order) {
    |rows| == |p.lines| &&
    forall i :: 0 <= i < |rows| ==>
      rows[i].ItemRow? && rows[i].variant == p.lines[i].variant && rows[i].price == p.lines[i].price &&
      rows[i].quantity == p.lines[i].quantity && rows[i].lineTotal == p.lines[i].price * p.lines[i].quantity
  }

  /** A coupon is redeemed with the order and released again when the order is cancelled. */
  predicate RedemptionsSay(rows: seq<Row>, p: Order) {
    (p.coupon.None? ==> rows == []) &&
    (p.coupon.Some? ==>
       |rows| == 1 && rows[0].RedemptionRow? && rows[0].couponId == p.coupon.value.id && rows[0].redeemedAt == p.time &&
       (rows[0].released <==> p.outcome.status == Cancelled) && rows[0].releasedAt == p.outcome.cancelledAt)
  }

  /** A cancelled order's money goes back in full, when it is cancelled. */
  predicate RefundsSay(rows: seq<Row>, p: Order, total: int) {
    (p.outcome.cancelledAt.None? ==> rows == []) &&
    (p.outcome.cancelledAt.Some? ==>
       |rows| == 1 && rows[0].RefundRow? && rows[0].amount == total && rows[0].at == p.outcome.cancelledAt.value)
  }

  /** A parcel goes out for delivered and refused orders; cash is asked for and collected as agreed. */
  predicate ShipmentsSay(rows: seq<Row>, p: Order, total: int) {
    var failed := p.outcome.status == FailedDelivery;
    (p.outcome.status !in {Completed, FailedDelivery} ==> rows == []) &&
    (p.outcome.status in {Completed, FailedDelivery} ==>
       |rows| == 1 && rows[0].ShipmentRow? && rows[0].shipment.failed == failed &&
       rows[0].shipment.codTarget == (if p.outcome.cod then total else 0) &&
       rows[0].shipment.codCollected == (if p.outcome.cod && !failed then total else 0))
  }

  /** Goods of confirmed and completed orders leave when the order is placed; those of a refused one come back
      when it failed; nothing moves for the others. */
  predicate MovementsSay(rows: seq<Row>, p: Order) {
    (p.outcome.status in {Paid, Cancelled} ==> rows == []) &&
    (p.outcome.status !in {Paid, Cancelled} ==>
       |rows| == |p.lines| &&
       forall i :: 0 <= i < |rows| ==>
         rows[i].MovementRow? && rows[i].variant == p.lines[i].variant &&
         if p.outcome.status == FailedDelivery then rows[i].delta == p.lines[i].quantity && rows[i].at == p.outcome.updatedAt
         else rows[i].delta == 0 - p.lines[i].quantity && rows[i].at == p.time)
  }

  lemma EmissionSays(p: Order, order: int, c: Counters)
    ensures ItemsSay(Emit(p, order, c, Items), p)
    ensures RedemptionsSay(Emit(p, order, c, Redemptions), p)
    ensures RefundsSay(Emit(p, order, c, Refunds), p, Total(p))
    ensures ShipmentsSay(Emit(p, order, c, Shipments), p, Total(p))
    ensures MovementsSay(Emit(p, order, c, Movements), p)
  {
  }

  /** The order and the payment row of an order. */
  predicate HeadSays(order: Row, payment: Row, k: int, p: Order) {
    order.OrderRow? && payment.PaymentRow? && order.id == k && payment.order == k &&
    order.customer == p.customer && order.status == p.outcome.status && order.createdAt == p.time &&
    order.outcome == p.outcome && order.discount == p.discount && order.subtotal == Subtotal(p.lines) &&
    order.shipping == (if order.subtotal >= 500_000 then 0 else 30_000) &&
    order.total == order.subtotal - p.discount + order.shipping &&
    order.coupon == (if p.coupon.Some? then Some(p.coupon.value.id) else None) &&
    payment.amount == order.total && payment.at == p.time
  }

  /** Everything a finished stream says about its k-th order is what that order was. */
  lemma StreamTellsTheOrder(stream: seq<Statement>, orders: seq<Order>, k: int)
    requires HoldsExactly(stream, orders) && 1 <= k <= |orders|
    ensures |RowsOf(stream, Orders)| == |RowsOf(stream, Payments)| == |orders|
    ensures var p, head := orders[k - 1], RowsOf(stream, Orders)[k - 1];
            HeadSays(head, RowsOf(stream, Payments)[k - 1], k, p) &&
            ItemsSay(Naming(RowsOf(stream, Items), k), p) &&
            RedemptionsSay(Naming(RowsOf(stream, Redemptions), k), p) &&
            RefundsSay(Naming(RowsOf(stream, Refunds), k), p, head.total) &&
            ShipmentsSay(Naming(RowsOf(stream, Shipments), k), p, head.total) &&
            MovementsSay(Naming(RowsOf(stream, Movements), k), p)
  {
    OnePaymentEach(orders, k - 1);
    var p, c := orders[k - 1], CountersOf(orders[..k - 1]);
    EmissionSays(p, k, c);
    RowsOfOneOrder(orders, Items, k);
    RowsOfOneOrder(orders, Redemptions, k);
    RowsOfOneOrder(orders, Refunds, k);
    RowsOfOneOrder(orders, Shipments, k);
    RowsOfOneOrder(orders, Movements, k);
  }

  // ----- numbers and references -----

  /** The rows of every table that numbers its own rows carry 1, 2, 3, ... */
  lemma RowNumbers(stream: seq<Statement>, orders: seq<Order>, t: Table, i: nat)
    requires HoldsExactly(stream, orders) && i < |RowsOf(stream, t)|
    requires t in {Orders, Items, Payments, StatusHistory, Shipments, ShipmentAttempts, Movements}
    ensures !RowsOf(stream, t)[i].InventoryRow? && RowsOf(stream, t)[i].id == i + 1
  {
    RowsAreNumbered(orders, t);
    RowsAreNotStock(orders, t);
    assert Id(Rows(orders, t)[i]) == i + 1;
  }

  lemma {:induction false} RowsAreNotStock(done: seq<Order>, t: Table)
    ensures forall i :: 0 <= i < |Rows(done, t)| ==> !Rows(done, t)[i].InventoryRow?
  {
    if done != [] {
      var n := |done| - 1;
      RowsAreNotStock(done[..n], t);
      NoStockAppended(done[..n], done[n], t);
      assert done[..n] + [done[n]] == done;
    }
  }

  lemma NoStockAppended(before: seq<Order>, p: Order, t: Table)
    requires forall i :: 0 <= i < |Rows(before, t)| ==> !Rows(before, t)[i].InventoryRow?
    ensures forall i :: 0 <= i < |Rows(before + [p], t)| ==> !Rows(before + [p], t)[i].InventoryRow?
  {
    EmissionIsAppended(before, p, t);
    EmittedAreNotStock(p, |before| + 1, CountersOf(before), t);
  }

  lemma EmittedAreNotStock(p: Order, order: int, c: Counters, t: Table)
    ensures forall i :: 0 <= i < |Emit(p, order, c, t)| ==> !Emit(p, order, c, t)[i].InventoryRow?
  {
  }

  /** The row a row refers to is inserted by an earlier statement. */
  lemma {:induction false} ParentsComeFirst(stream: seq<Statement>, n: nat, i: nat)
    requires ParentsFirst(stream) && n < |stream| && stream[n].Insert? && i < |stream[n].rows|
    ensures var row, t := stream[n].rows[i], stream[n].table;
            var orders := |RowsOf(stream[..n], Orders)|;
            (t == Items && row.ItemRow? ==> 1 <= row.order <= orders) &&
            (t == Payments && row.PaymentRow? ==> 1 <= row.order <= orders) &&
            (t == StatusHistory && row.HistoryRow? ==> 1 <= row.order <= orders) &&
            (t == Redemptions && row.RedemptionRow? ==> 1 <= row.order <= orders) &&
            (t == Shipments && row.ShipmentRow? ==> 1 <= row.order <= orders) &&
            (t == Movements && row.MovementRow? ==> 1 <= row.order <= orders) &&
            (t == Refunds && row.RefundRow? ==> 1 <= row.payment <= |RowsOf(stream[..n], Payments)|) &&
            (t == ShipmentAttempts && row.AttemptRow? ==> 1 <= row.shipmentId <= |RowsOf(stream[..n], Shipments)|)
  {
    var last := |stream| - 1;
    if n < last {
      assert stream[..last][..n] == stream[..n];
      ParentsComeFirst(stream[..last], n, i);
    } else {
      assert Parent(stream[n].table).Some? ==> 1 <= Reference(stream[n].rows[i]);
    }
  }
}
