/** The rows a generated dataset holds about its orders, as a function of the purchases it was built from, and
    what these rows add up to. Identifiers count from the first free one of each table. */
module OrderTables {
  import opened Common
  import opened OrderLifecycle

  // ----- coupons and money -----

  datatype Kind = Everyday | Welcome | Campaign | Midnight

  datatype Coupon = Coupon(id: int, kind: Kind, percentage: bool, value: int, minimum: int, startsAt: int, endsAt: int)

  /** What the configuration guarantees of every coupon. */
  predicate ValidCoupon(c: Coupon) {
    c.value >= 1 && (c.percentage ==> c.value <= 100)
  }

  /** `_coupon_discount`. */
  function Discount(c: Coupon, subtotal: nat): (discount: int)
    requires ValidCoupon(c)
    ensures 0 <= discount <= subtotal
    ensures !c.percentage ==> discount == if c.value < subtotal then c.value else subtotal
    ensures c.percentage ==> 0 <= subtotal * c.value - 100 * discount < 100
  {
    if c.percentage then
      PercentageIsPart(subtotal, c.value);
      subtotal * c.value / 100
    else Min(c.value, subtotal)
  }

  lemma PercentageIsPart(amount: nat, percentage: nat)
    requires percentage <= 100
    ensures 0 <= amount * percentage / 100 <= amount
  {
    assert amount * percentage <= amount * 100;
  }

  predicate Eligible(c: Coupon, time: int, subtotal: int) {
    c.startsAt <= time < c.endsAt && subtotal >= c.minimum
  }

  function OfKind(coupons: seq<Coupon>, kind: Kind, time: int, subtotal: int): (r: seq<Coupon>)
    ensures forall i :: 0 <= i < |r| ==> r[i] in coupons && r[i].kind == kind && Eligible(r[i], time, subtotal)
    ensures r == [] ==> forall c :: c in coupons && c.kind == kind ==> !Eligible(c, time, subtotal)
  {
    if coupons == [] then []
    else
      var rest := OfKind(coupons[1..], kind, time, subtotal);
      if coupons[0].kind == kind && Eligible(coupons[0], time, subtotal) then [coupons[0]] + rest else rest
  }

  predicate Offers(coupons: seq<Coupon>, kind: Kind, time: int, subtotal: int) {
    exists i :: 0 <= i < |coupons| && coupons[i].kind == kind && Eligible(coupons[i], time, subtotal)
  }

  /** `_select_coupon`: a midnight coupon in the first two hours of the local day, otherwise a campaign coupon,
      otherwise a welcome coupon for a first order, otherwise an everyday one; `hit` and `choice` are draws. */
  function SelectCoupon(coupons: seq<Coupon>, time: int, localHour: int, subtotal: int, first: bool, hit: bool,
                        choice: nat): (r: Option<Coupon>)
    ensures r.Some? ==> hit && r.value in coupons && Eligible(r.value, time, subtotal)
    ensures r.Some? && r.value.kind == Midnight ==> 0 <= localHour <= 1
    ensures r.Some? && r.value.kind != Midnight ==> !(0 <= localHour <= 1 && Offers(coupons, Midnight, time, subtotal))
    ensures r.Some? && r.value.kind in {Welcome, Everyday} ==> !Offers(coupons, Campaign, time, subtotal)
    ensures r.Some? && r.value.kind == Welcome ==> first
    ensures r.Some? && r.value.kind == Everyday ==> !(first && Offers(coupons, Welcome, time, subtotal))
    ensures r.None? && hit ==>
              !Offers(coupons, Campaign, time, subtotal) && !Offers(coupons, Everyday, time, subtotal) &&
              !(0 <= localHour <= 1 && Offers(coupons, Midnight, time, subtotal)) &&
              !(first && Offers(coupons, Welcome, time, subtotal))
  {
    var midnight := OfKind(coupons, Midnight, time, subtotal);
    var campaign := OfKind(coupons, Campaign, time, subtotal);
    var welcome := OfKind(coupons, Welcome, time, subtotal);
    var candidates :=
      if midnight != [] && 0 <= localHour <= 1 then midnight
      else if campaign != [] then campaign
      else if first && welcome != [] then welcome
      else OfKind(coupons, Everyday, time, subtotal);
    if candidates == [] || !hit then None else Some(candidates[choice % |candidates|])
  }

  // ----- what one order is made of -----

  datatype Line = Line(variant: int, price: nat, quantity: nat)

  datatype Purchase = Purchase(customer: nat, position: nat, drawnTime: int, localHour: int, lines: seq<Line>,
                               couponHit: bool, couponChoice: nat, draws: Draws)

  /** The end of the exported history and the coupons of the run. */
  datatype Setting = Setting(end: int, coupons: seq<Coupon>)

  predicate ValidSetting(s: Setting) {
    forall i :: 0 <= i < |s.coupons| ==> ValidCoupon(s.coupons[i])
  }

  function Subtotal(lines: seq<Line>): nat {
    if lines == [] then 0
    else Subtotal(lines[..|lines| - 1]) + lines[|lines| - 1].price * lines[|lines| - 1].quantity
  }

  function Quantity(lines: seq<Line>, variant: int): nat {
    if lines == [] then 0
    else
      var last := lines[|lines| - 1];
      Quantity(lines[..|lines| - 1], variant) + if last.variant == variant then last.quantity else 0
  }

  /** An order as the loop hands it to the tables. */
  datatype Order = Order(customer: nat, time: int, lines: seq<Line>, coupon: Option<Coupon>, discount: int,
                         outcome: Outcome)

  function Shipping(subtotal: int): int {
    if subtotal >= 500_000 then 0 else 30_000
  }

  function Total(p: Order): int {
    Subtotal(p.lines) - p.discount + Shipping(Subtotal(p.lines))
  }

  /** Everything one turn of the loop decides: time, coupon, discount and fate. */
  function OrderOf(s: Setting, p: Purchase): (r: Order)
    requires ValidSetting(s)
    ensures r.customer == p.customer && r.lines == p.lines && r.time == if p.drawnTime < s.end then p.drawnTime else s.end
    ensures r.outcome == Fate(Placement(r.time, p.customer, p.position), s.end, p.draws)
    ensures r.coupon.Some? ==>
              var c := r.coupon.value;
              p.couponHit && c in s.coupons && c.startsAt <= r.time < c.endsAt && c.minimum <= Subtotal(p.lines) &&
              (c.kind == Welcome ==> p.position == 0) && (c.kind == Midnight ==> 0 <= p.localHour <= 1)
    ensures r.coupon == None && p.couponHit ==>
              forall c :: c in s.coupons && c.startsAt <= r.time < c.endsAt && c.minimum <= Subtotal(p.lines) ==>
                (c.kind == Welcome && p.position != 0) || (c.kind == Midnight && !(0 <= p.localHour <= 1))
    ensures 0 <= r.discount <= Subtotal(r.lines) && (r.coupon == None ==> r.discount == 0)
    ensures r.coupon.Some? && !r.coupon.value.percentage ==>
              r.discount == if r.coupon.value.value < Subtotal(p.lines) then r.coupon.value.value else Subtotal(p.lines)
    ensures r.coupon.Some? && r.coupon.value.percentage ==>
              0 <= Subtotal(p.lines) * r.coupon.value.value - 100 * r.discount < 100
  {
    var time := Min(p.drawnTime, s.end);
    var coupon := SelectCoupon(s.coupons, time, p.localHour, Subtotal(p.lines), p.position == 0, p.couponHit,
                               p.couponChoice);
    Order(p.customer, time, p.lines, coupon, if coupon.Some? then Discount(coupon.value, Subtotal(p.lines)) else 0,
          Fate(Placement(time, p.customer, p.position), s.end, p.draws))
  }

  /** What holds of every order the loop hands over. */
  predicate Sound(p: Order) {
    0 <= p.discount <= Subtotal(p.lines) && (p.coupon == None ==> p.discount == 0) &&
    (p.outcome.cancelledAt.Some? <==> p.outcome.status == Cancelled)
  }

  /** Its history leads to its status, in time, without passing the end. */
  predicate Told(p: Order, end: int) {
    var h := History(p.outcome, p.time);
    Chain(h) && TimePasses(h) && Within(h, p.time, end) && h[|h| - 1].to == p.outcome.status
  }

  lemma OrderIsSound(s: Setting, p: Purchase)
    requires ValidSetting(s) && InRange(p.draws)
    ensures Sound(OrderOf(s, p)) && Told(OrderOf(s, p), s.end)
  {
    HistoryTellsTheStatus(Placement(Min(p.drawnTime, s.end), p.customer, p.position), s.end, p.draws);
  }

  // ----- rows -----

  datatype Table = Orders | Items | Payments | StatusHistory | Redemptions | Refunds | Shipments | ShipmentAttempts
                 | Movements | Inventory

  datatype Row =
    | OrderRow(id: int, customer: nat, status: Status, subtotal: int, shipping: int, discount: int, total: int,
               coupon: Option<int>, createdAt: int, outcome: Outcome)
    | ItemRow(id: int, order: int, variant: int, price: int, quantity: int, lineTotal: int)
    | PaymentRow(id: int, order: int, amount: int, at: int)
    | HistoryRow(id: int, order: int, step: Transition)
    | RedemptionRow(id: int, order: int, couponId: int, released: bool, redeemedAt: int, releasedAt: Option<int>)
    | RefundRow(id: int, payment: int, amount: int, at: int)
    | ShipmentRow(id: int, order: int, shipment: Shipment)
    | AttemptRow(id: int, shipmentId: int, attempt: Attempt)
    | MovementRow(id: int, order: int, variant: int, delta: int, at: int)
    | InventoryRow(variant: int, opening: int, onHand: int)

  /** Rows already emitted into the tables that number their rows themselves. */
  datatype Counters = Counters(items: nat, history: nat, shipments: nat, attempts: nat, movements: nat)

  /** One list of rows for each table the order loop fills. */
  datatype Buffers = Buffers(orders: seq<Row>, items: seq<Row>, payments: seq<Row>, history: seq<Row>,
                             redemptions: seq<Row>, refunds: seq<Row>, shipments: seq<Row>, attempts: seq<Row>,
                             movements: seq<Row>)

  function Of(b: Buffers, t: Table): seq<Row> {
    match t
    case Orders => b.orders
    case Items => b.items
    case Payments => b.payments
    case StatusHistory => b.history
    case Redemptions => b.redemptions
    case Refunds => b.refunds
    case Shipments => b.shipments
    case ShipmentAttempts => b.attempts
    case Movements => b.movements
    case Inventory => []
  }

  /** The rows of one order. */
  function Emission(p: Order, order: int, c: Counters): Buffers
  {
    var o := p.outcome;
    var time := p.time;
    var shipment := ShipmentOf(o, time, Total(p));
    Buffers([OrderAt(p, order)],
            ItemRows(p.lines, order, c.items),
            [PaymentAt(p, order)],
            HistoryRows(History(o, time), order, c.history),
            RedemptionRows(order, o, p.coupon, time),
            RefundRows(order, o, Total(p)),
            if Ships(o) then [ShipmentRow(c.shipments + 1, order, shipment)] else [],
            if Ships(o) then AttemptRows(Attempts(shipment), c.shipments + 1, c.attempts) else [],
            if Moves(o) then MovementRows(p.lines, order, c.movements, o, time) else [])
  }

  function Emit(p: Order, order: int, c: Counters, t: Table): seq<Row>
  {
    Of(Emission(p, order, c), t)
  }

  predicate Moves(o: Outcome) {
    o.status == Completed || o.status == Confirmed || o.status == FailedDelivery
  }

  function ItemRows(lines: seq<Line>, order: int, already: int): seq<Row> {
    seq(|lines|, i requires 0 <= i < |lines| => ItemOf(lines[i], order, already + i + 1))
  }

  function HistoryRows(h: seq<Transition>, order: int, already: nat): seq<Row> {
    seq(|h|, i requires 0 <= i < |h| => HistoryRow(already + i + 1, order, h[i]))
  }

  function AttemptRows(a: seq<Attempt>, shipment: int, already: nat): seq<Row> {
    seq(|a|, i requires 0 <= i < |a| => AttemptRow(already + i + 1, shipment, a[i]))
  }

  function MovementRows(lines: seq<Line>, order: int, already: nat, o: Outcome, time: int): seq<Row> {
    seq(|lines|, i requires 0 <= i < |lines| => MovementOf(lines[i], order, already + i + 1, o, time))
  }

  function OrderRowOf(order: int, customer: nat, o: Outcome, coupon: Option<Coupon>, subtotal: int, discount: int,
                   time: int): Row
  {
    OrderRow(order, customer, o.status, subtotal, Shipping(subtotal), discount, subtotal - discount + Shipping(subtotal),
             if coupon.Some? then Some(coupon.value.id) else None, time, o)
  }

  function OrderAt(p: Order, order: int): Row
  {
    OrderRowOf(order, p.customer, p.outcome, p.coupon, Subtotal(p.lines), p.discount, p.time)
  }

  function PaymentAt(p: Order, order: int): Row
  {
    PaymentRow(order, order, Total(p), p.time)
  }

  function RedemptionRows(order: int, o: Outcome, coupon: Option<Coupon>, time: int): seq<Row> {
    if coupon.None? then []
    else [RedemptionRow(order, order, coupon.value.id, o.status == Cancelled, time, o.cancelledAt)]
  }

  function RefundRows(order: int, o: Outcome, total: int): seq<Row> {
    if o.cancelledAt.Some? then [RefundRow(order, order, total, o.cancelledAt.value)] else []
  }

  function ItemOf(line: Line, order: int, id: int): Row {
    ItemRow(id, order, line.variant, line.price, line.quantity, line.price * line.quantity)
  }

  /** Goods leave the warehouse with the order and come back when the delivery fails. */
  function MovementOf(line: Line, order: int, id: int, o: Outcome, time: int): Row {
    if o.status == FailedDelivery then MovementRow(id, order, line.variant, line.quantity, o.updatedAt)
    else MovementRow(id, order, line.variant, 0 - line.quantity, time)
  }

  function Join(a: Buffers, b: Buffers): Buffers {
    Buffers(a.orders + b.orders, a.items + b.items, a.payments + b.payments, a.history + b.history,
            a.redemptions + b.redemptions, a.refunds + b.refunds, a.shipments + b.shipments,
            a.attempts + b.attempts, a.movements + b.movements)
  }

  const EMPTY := Buffers([], [], [], [], [], [], [], [], [])

  /** All rows of all tables after these orders. */
  function After(done: seq<Order>): Buffers {
    if done == [] then EMPTY
    else
      var n := |done| - 1;
      var before := After(done[..n]);
      Join(before, Emission(done[n], n + 1, Counters(|before.items|, |before.history|, |before.shipments|,
                                                     |before.attempts|, |before.movements|)))
  }

  function CountersOf(done: seq<Order>): Counters {
    Counters(|After(done).items|, |After(done).history|, |After(done).shipments|, |After(done).attempts|,
             |After(done).movements|)
  }

  function Rows(done: seq<Order>, t: Table): seq<Row> {
    Of(After(done), t)
  }

  lemma RowsGrow(done: seq<Order>, p: Order)
    ensures After(done + [p]) == Join(After(done), Emission(p, |done| + 1, CountersOf(done)))
  {
    var all := done + [p];
    var n := |all| - 1;
    assert all[..n] == done && all[n] == p && n == |done|;
  }

  lemma EmissionIsAppended(before: seq<Order>, p: Order, t: Table)
    ensures Rows(before + [p], t) == Rows(before, t) + Emit(p, |before| + 1, CountersOf(before), t)
  {
    RowsGrow(before, p);
    OfJoin(After(before), Emission(p, |before| + 1, CountersOf(before)), t);
  }

  lemma OfJoin(a: Buffers, b: Buffers, t: Table)
    ensures Of(Join(a, b), t) == Of(a, t) + Of(b, t)
  {
  }

  // ----- what the rows say about each order -----

  lemma {:induction false} OrdersAndPayments(done: seq<Order>)
    ensures |Rows(done, Orders)| == |Rows(done, Payments)| == |done|
  {
    if done != [] {
      OrdersAndPayments(done[..|done| - 1]);
    }
  }

  /** The orders are numbered in the order of the purchases, and so are their payments. */
  lemma {:induction false} OnePaymentEach(done: seq<Order>, i: nat)
    requires i < |done|
    ensures |Rows(done, Orders)| == |Rows(done, Payments)| == |done|
    ensures Rows(done, Orders)[i] == OrderAt(done[i], i + 1)
    ensures Rows(done, Payments)[i] == PaymentAt(done[i], i + 1)
  {
    var n := |done| - 1;
    OrdersAndPayments(done);
    OrdersAndPayments(done[..n]);
    LastOrder(done);
    if i < n {
      OnePaymentEach(done[..n], i);
    }
  }

  lemma LastOrder(done: seq<Order>)
    requires done != []
    ensures var n := |done| - 1;
            Rows(done, Orders) == Rows(done[..n], Orders) + [OrderAt(done[n], n + 1)] &&
            Rows(done, Payments) == Rows(done[..n], Payments) + [PaymentAt(done[n], n + 1)]
  {
  }

  /** The money of an order row: payment equals total, the discount stays within the subtotal. */
  predicate Balanced(order: Row, payment: Row) {
    order.OrderRow? && payment.PaymentRow? &&
    payment.order == order.id && payment.amount == order.total && payment.at == order.createdAt &&
    0 <= order.discount <= order.subtotal &&
    order.total == order.subtotal - order.discount + order.shipping &&
    order.shipping == (if order.subtotal >= 500_000 then 0 else 30_000) &&
    (order.coupon == None ==> order.discount == 0)
  }

  lemma MoneyBalances(done: seq<Order>, i: nat)
    requires i < |done| && Sound(done[i])
    ensures |Rows(done, Orders)| == |Rows(done, Payments)| == |done|
    ensures Balanced(Rows(done, Orders)[i], Rows(done, Payments)[i]) && Rows(done, Orders)[i].id == i + 1
  {
    OnePaymentEach(done, i);
  }

  /** Line totals of the items that name an order. */
  function LineTotals(items: seq<Row>, order: int): int {
    if items == [] then 0
    else
      var last := items[|items| - 1];
      LineTotals(items[..|items| - 1], order) +
      if last.ItemRow? && last.order == order then last.lineTotal else 0
  }

  lemma {:induction false} LineTotalsSplit(a: seq<Row>, b: seq<Row>, order: int)
    ensures LineTotals(a + b, order) == LineTotals(a, order) + LineTotals(b, order)
  {
    if b == [] {
      assert a + b == a;
    } else {
      LineTotalsSplit(a, b[..|b| - 1], order);
      assert (a + b)[..|a + b| - 1] == a + b[..|b| - 1];
    }
  }

  lemma {:induction false} OwnItems(lines: seq<Line>, order: int, already: int, other: int)
    ensures LineTotals(ItemRows(lines, order, already), other) == if order == other then Subtotal(lines) else 0
  {
    if lines != [] {
      var n := |lines| - 1;
      OwnItems(lines[..n], order, already, other);
      assert ItemRows(lines, order, already)[..n] == ItemRows(lines[..n], order, already);
    }
  }

  /** The subtotal of every order is the sum of the line totals that name it, and no line names an order that
      does not exist. */
  lemma {:induction false} SubtotalsAddUp(done: seq<Order>, order: int)
    ensures LineTotals(Rows(done, Items), order) ==
              if 1 <= order <= |done| then Subtotal(done[order - 1].lines) else 0
  {
    if done != [] {
      var n := |done| - 1;
      var c := CountersOf(done[..n]);
      SubtotalsAddUp(done[..n], order);
      LineTotalsSplit(Rows(done[..n], Items), Emit(done[n], n + 1, c, Items), order);
      assert Emit(done[n], n + 1, c, Items) == ItemRows(done[n].lines, n + 1, c.items);
      OwnItems(done[n].lines, n + 1, c.items, order);
    }
  }

  lemma OrdersEqualTheirItems(done: seq<Order>, i: nat)
    requires i < |done|
    ensures |Rows(done, Orders)| == |done| && Rows(done, Orders)[i].OrderRow?
    ensures LineTotals(Rows(done, Items), Rows(done, Orders)[i].id) == Rows(done, Orders)[i].subtotal
  {
    OnePaymentEach(done, i);
    SubtotalsAddUp(done, i + 1);
  }

  // ----- refunds and redemptions -----

  /** The refunds of one payment. */
  function RefundsOf(refunds: seq<Row>, payment: int): seq<Row> {
    if refunds == [] then []
    else
      var last := refunds[|refunds| - 1];
      RefundsOf(refunds[..|refunds| - 1], payment) + if last.RefundRow? && last.payment == payment then [last] else []
  }

  /** A payment is refunded once and in full if its order was cancelled, and not at all otherwise. */
  lemma {:induction false} RefundsMatchCancellations(done: seq<Order>, payment: int)
    requires forall i :: 0 <= i < |done| ==> Sound(done[i])
    ensures var refunds := RefundsOf(Rows(done, Refunds), payment);
            if 1 <= payment <= |done| && done[payment - 1].outcome.status == Cancelled then
              |refunds| == 1 && refunds[0].RefundRow? && refunds[0].amount == Total(done[payment - 1])
            else refunds == []
  {
    if done != [] {
      var n := |done| - 1;
      RefundsMatchCancellations(done[..n], payment);
      OneMoreRefund(Rows(done[..n], Refunds), n + 1, done[n].outcome, Total(done[n]), payment);
    }
  }

  lemma OneMoreRefund(rows: seq<Row>, order: int, o: Outcome, total: int, payment: int)
    ensures RefundsOf(rows + RefundRows(order, o, total), payment) ==
              RefundsOf(rows, payment) + if payment == order then RefundRows(order, o, total) else []
  {
    var more := RefundRows(order, o, total);
    if more == [] {
      assert rows + more == rows;
    } else {
      assert (rows + more)[..|rows|] == rows;
    }
  }

  /** Coupons still redeemed after the run, which is the count the importer stores. */
  function Redeemed(redemptions: seq<Row>, coupon: int): nat {
    if redemptions == [] then 0
    else
      var last := redemptions[|redemptions| - 1];
      Redeemed(redemptions[..|redemptions| - 1], coupon) +
      if last.RedemptionRow? && last.couponId == coupon && !last.released then 1 else 0
  }

  /** Orders that carry the coupon and were not cancelled. */
  function Using(orders: seq<Row>, coupon: int): nat {
    if orders == [] then 0
    else
      var last := orders[|orders| - 1];
      Using(orders[..|orders| - 1], coupon) +
      if last.OrderRow? && last.coupon == Some(coupon) && last.status != Cancelled then 1 else 0
  }

  lemma OneMoreRedemption(rows: seq<Row>, row: Row, coupon: int)
    ensures Redeemed(rows + [row], coupon) ==
              Redeemed(rows, coupon) + if row.RedemptionRow? && row.couponId == coupon && !row.released then 1 else 0
  {
    assert (rows + [row])[..|rows|] == rows;
  }

  lemma OneMoreOrder(rows: seq<Row>, row: Row, coupon: int)
    ensures Using(rows + [row], coupon) ==
              Using(rows, coupon) +
              if row.OrderRow? && row.coupon == Some(coupon) && row.status != Cancelled then 1 else 0
  {
    assert (rows + [row])[..|rows|] == rows;
  }

  lemma {:induction false} CouponsAreCounted(done: seq<Order>, coupon: int)
    ensures Redeemed(Rows(done, Redemptions), coupon) == Using(Rows(done, Orders), coupon)
  {
    if done != [] {
      var n := |done| - 1;
      CouponsAreCounted(done[..n], coupon);
      var p := done[n];
      var order := OrderAt(p, n + 1);
      OneMoreOrder(Rows(done[..n], Orders), order, coupon);
      RedeemedWithOrder(Rows(done[..n], Redemptions), n + 1, p.outcome, p.coupon, p.time, coupon);
    }
  }

  lemma RedeemedWithOrder(rows: seq<Row>, order: int, o: Outcome, used: Option<Coupon>, time: int, coupon: int)
    ensures Redeemed(rows + RedemptionRows(order, o, used, time), coupon) ==
              Redeemed(rows, coupon) +
              if used.Some? && used.value.id == coupon && o.status != Cancelled then 1 else 0
  {
    if used.None? {
      assert rows + RedemptionRows(order, o, used, time) == rows;
    } else {
      OneMoreRedemption(rows, RedemptionRows(order, o, used, time)[0], coupon);
    }
  }

  // ----- stock -----

  /** What the exporter's running totals hold: quantities of the orders that were not cancelled. */
  function Sold(done: seq<Order>, variant: int): nat {
    if done == [] then 0
    else
      var n := |done| - 1;
      Sold(done[..n], variant) +
      if done[n].outcome.status != Cancelled then Quantity(done[n].lines, variant) else 0
  }

  /** The same, read off the written rows alone. */
  function SoldRows(items: seq<Row>, orders: seq<Row>, variant: int): int {
    if items == [] then 0
    else
      var last := items[|items| - 1];
      SoldRows(items[..|items| - 1], orders, variant) +
      if last.ItemRow? && last.variant == variant && Alive(orders, last.order) then last.quantity else 0
  }

  predicate Alive(orders: seq<Row>, order: int) {
    1 <= order <= |orders| && orders[order - 1].OrderRow? && orders[order - 1].status != Cancelled
  }

  lemma {:induction false} SoldRowsSplit(a: seq<Row>, b: seq<Row>, orders: seq<Row>, variant: int)
    ensures SoldRows(a + b, orders, variant) == SoldRows(a, orders, variant) + SoldRows(b, orders, variant)
  {
    if b == [] {
      assert a + b == a;
    } else {
      SoldRowsSplit(a, b[..|b| - 1], orders, variant);
      assert (a + b)[..|a + b| - 1] == a + b[..|b| - 1];
    }
  }

  lemma {:induction false} SoldRowsOfOrder(lines: seq<Line>, order: int, already: int, orders: seq<Row>, variant: int)
    ensures SoldRows(ItemRows(lines, order, already), orders, variant) ==
              if Alive(orders, order) then Quantity(lines, variant) else 0
  {
    if lines != [] {
      var n := |lines| - 1;
      SoldRowsOfOrder(lines[..n], order, already, orders, variant);
      assert ItemRows(lines, order, already)[..n] == ItemRows(lines[..n], order, already);
    }
  }

  lemma {:induction false} SoldRowsSoFar(done: seq<Order>, n: nat, variant: int)
    requires n <= |done|
    ensures SoldRows(Rows(done[..n], Items), Rows(done, Orders), variant) == Sold(done[..n], variant)
  {
    if n > 0 {
      SoldRowsSoFar(done, n - 1, variant);
      assert done[..n][..n - 1] == done[..n - 1];
      var c := CountersOf(done[..n - 1]);
      var p := done[n - 1];
      assert Emit(p, n, c, Items) == ItemRows(p.lines, n, c.items);
      SoldRowsSplit(Rows(done[..n - 1], Items), Emit(p, n, c, Items), Rows(done, Orders), variant);
      SoldRowsOfOrder(p.lines, n, c.items, Rows(done, Orders), variant);
      OnePaymentEach(done, n - 1);
    }
  }

  /** The running total of a variant is the quantity in the item rows of all orders not cancelled. */
  lemma SoldIsInTheRows(done: seq<Order>, variant: int)
    ensures Sold(done, variant) == SoldRows(Rows(done, Items), Rows(done, Orders), variant)
  {
    SoldRowsSoFar(done, |done|, variant);
    assert done[..|done|] == done;
  }

  // ----- refused deliveries -----

  function Booms(done: seq<Order>, customer: nat): nat {
    if done == [] then 0
    else
      var n := |done| - 1;
      Booms(done[..n], customer) +
      if done[n].outcome.status == FailedDelivery && done[n].customer == customer then 1 else 0
  }

  /** The order rows of a customer that ended in a failed delivery. */
  function FailedOrders(orders: seq<Row>, customer: nat): nat {
    if orders == [] then 0
    else
      var last := orders[|orders| - 1];
      FailedOrders(orders[..|orders| - 1], customer) +
      if last.OrderRow? && last.customer == customer && last.status == FailedDelivery then 1 else 0
  }

  lemma OneMoreFailure(rows: seq<Row>, row: Row, customer: nat)
    ensures FailedOrders(rows + [row], customer) ==
              FailedOrders(rows, customer) +
              if row.OrderRow? && row.customer == customer && row.status == FailedDelivery then 1 else 0
  {
    assert (rows + [row])[..|rows|] == rows;
  }

  lemma {:induction false} BoomsAreFailedOrders(done: seq<Order>, customer: nat)
    ensures Booms(done, customer) == FailedOrders(Rows(done, Orders), customer)
  {
    if done != [] {
      var n := |done| - 1;
      BoomsAreFailedOrders(done[..n], customer);
      OneMoreFailure(Rows(done[..n], Orders), OrderAt(done[n], n + 1), customer);
    }
  }

  // ----- histories and attempts, order by order -----

  /** The status steps recorded for an order. */
  function StepsOf(rows: seq<Row>, order: int): seq<Transition> {
    if rows == [] then []
    else
      var last := rows[|rows| - 1];
      StepsOf(rows[..|rows| - 1], order) + if last.HistoryRow? && last.order == order then [last.step] else []
  }

  lemma {:induction false} StepsSplit(a: seq<Row>, b: seq<Row>, order: int)
    ensures StepsOf(a + b, order) == StepsOf(a, order) + StepsOf(b, order)
  {
    if b == [] {
      assert a + b == a;
    } else {
      StepsSplit(a, b[..|b| - 1], order);
      assert (a + b)[..|a + b| - 1] == a + b[..|b| - 1];
    }
  }

  lemma {:induction false} OwnSteps(h: seq<Transition>, order: int, already: nat, other: int)
    ensures StepsOf(HistoryRows(h, order, already), other) == if order == other then h else []
  {
    if h != [] {
      var n := |h| - 1;
      OwnSteps(h[..n], order, already, other);
      assert HistoryRows(h, order, already)[..n] == HistoryRows(h[..n], order, already);
      assert h == h[..n] + [h[n]];
    }
  }

  /** The recorded steps of every order are its own history, unmixed with any other's. */
  lemma {:induction false} HistoriesAreKept(done: seq<Order>, order: int)
    ensures StepsOf(Rows(done, StatusHistory), order) ==
              if 1 <= order <= |done| then History(done[order - 1].outcome, done[order - 1].time) else []
  {
    if done != [] {
      var n := |done| - 1;
      HistoriesAreKept(done[..n], order);
      HistoryGrows(done);
      StepsGrow(Rows(done[..n], StatusHistory), History(done[n].outcome, done[n].time), n + 1, order);
    }
  }

  lemma HistoryGrows(done: seq<Order>)
    requires done != []
    ensures var n := |done| - 1;
            var before := Rows(done[..n], StatusHistory);
            Rows(done, StatusHistory) ==
              before + HistoryRows(History(done[n].outcome, done[n].time), n + 1, |before|)
  {
  }

  lemma StepsGrow(rows: seq<Row>, h: seq<Transition>, order: int, other: int)
    ensures StepsOf(rows + HistoryRows(h, order, |rows|), other) == StepsOf(rows, other) + if order == other then h else []
  {
    StepsSplit(rows, HistoryRows(h, order, |rows|), other);
    OwnSteps(h, order, |rows|, other);
  }

  /** So the written history of every order leads from nothing to the status in its row. */
  lemma WrittenHistoryIsAChain(done: seq<Order>, i: nat, end: int)
    requires i < |done| && Told(done[i], end)
    ensures |Rows(done, Orders)| == |done| && Rows(done, Orders)[i].OrderRow?
    ensures var order := Rows(done, Orders)[i];
            var h := StepsOf(Rows(done, StatusHistory), order.id);
            Chain(h) && TimePasses(h) && Within(h, order.createdAt, end) && h[|h| - 1].to == order.status
  {
    OnePaymentEach(done, i);
    HistoriesAreKept(done, i + 1);
  }

  /** The delivery attempts recorded for a shipment. */
  function AttemptsOf(rows: seq<Row>, shipment: int): seq<Attempt> {
    if rows == [] then []
    else
      var last := rows[|rows| - 1];
      AttemptsOf(rows[..|rows| - 1], shipment) +
      if last.AttemptRow? && last.shipmentId == shipment then [last.attempt] else []
  }

  lemma {:induction false} AttemptsSplit(a: seq<Row>, b: seq<Row>, shipment: int)
    ensures AttemptsOf(a + b, shipment) == AttemptsOf(a, shipment) + AttemptsOf(b, shipment)
  {
    if b == [] {
      assert a + b == a;
    } else {
      AttemptsSplit(a, b[..|b| - 1], shipment);
      assert (a + b)[..|a + b| - 1] == a + b[..|b| - 1];
    }
  }

  lemma {:induction false} OwnAttempts(a: seq<Attempt>, shipment: int, already: nat, other: int)
    ensures AttemptsOf(AttemptRows(a, shipment, already), other) == if shipment == other then a else []
  {
    if a != [] {
      var n := |a| - 1;
      OwnAttempts(a[..n], shipment, already, other);
      assert AttemptRows(a, shipment, already)[..n] == AttemptRows(a[..n], shipment, already);
      assert a == a[..n] + [a[n]];
    }
  }

  /** Shipment `k` carries the attempts `a`. */
  predicate Carries(shipments: seq<Row>, k: int, a: seq<Attempt>) {
    if 1 <= k <= |shipments| then
      shipments[k - 1].ShipmentRow? && a == Attempts(shipments[k - 1].shipment) &&
      |a| == shipments[k - 1].shipment.attemptCount
    else a == []
  }

  /** Every written shipment has exactly as many attempt rows as its own count says. */
  lemma {:induction false} AttemptCountsAreKept(done: seq<Order>, k: int)
    ensures Carries(Rows(done, Shipments), k, AttemptsOf(Rows(done, ShipmentAttempts), k))
  {
    if done != [] {
      var n := |done| - 1;
      AttemptCountsAreKept(done[..n], k);
      AttemptCountsGrow(done[..n], done[n], k);
      assert done[..n] + [done[n]] == done;
    }
  }

  lemma AttemptCountsGrow(before: seq<Order>, p: Order, k: int)
    requires Carries(Rows(before, Shipments), k, AttemptsOf(Rows(before, ShipmentAttempts), k))
    ensures Carries(Rows(before + [p], Shipments), k, AttemptsOf(Rows(before + [p], ShipmentAttempts), k))
  {
    ShipmentsGrow(before, p);
    AttemptsOfOneMore(Rows(before, Shipments), Rows(before, ShipmentAttempts), |before| + 1, p.outcome,
                      ShipmentOf(p.outcome, p.time, Total(p)), k);
  }

  lemma ShipmentsGrow(before: seq<Order>, p: Order)
    ensures var shipments, attempts := Rows(before, Shipments), Rows(before, ShipmentAttempts);
            var sh := ShipmentOf(p.outcome, p.time, Total(p));
            Rows(before + [p], Shipments) ==
              shipments + (if Ships(p.outcome) then [ShipmentRow(|shipments| + 1, |before| + 1, sh)] else []) &&
            Rows(before + [p], ShipmentAttempts) ==
              attempts + (if Ships(p.outcome) then AttemptRows(Attempts(sh), |shipments| + 1, |attempts|) else [])
  {
    EmissionIsAppended(before, p, Shipments);
    EmissionIsAppended(before, p, ShipmentAttempts);
    EmittedShipments(p, |before| + 1, CountersOf(before));
  }

  lemma EmittedShipments(p: Order, order: int, c: Counters)
    ensures var sh := ShipmentOf(p.outcome, p.time, Total(p));
            Emit(p, order, c, Shipments) == (if Ships(p.outcome) then [ShipmentRow(c.shipments + 1, order, sh)] else []) &&
            Emit(p, order, c, ShipmentAttempts) ==
              if Ships(p.outcome) then AttemptRows(Attempts(sh), c.shipments + 1, c.attempts) else []
  {
  }

  lemma AttemptsOfOneMore(shipments: seq<Row>, attempts: seq<Row>, order: int, o: Outcome, sh: Shipment, k: int)
    requires Carries(shipments, k, AttemptsOf(attempts, k)) && sh.attemptCount == if sh.failed then 3 else 1
    ensures var moreShipments := if Ships(o) then [ShipmentRow(|shipments| + 1, order, sh)] else [];
            var moreAttempts := if Ships(o) then AttemptRows(Attempts(sh), |shipments| + 1, |attempts|) else [];
            Carries(shipments + moreShipments, k, AttemptsOf(attempts + moreAttempts, k))
  {
    if Ships(o) {
      AttemptsSplit(attempts, AttemptRows(Attempts(sh), |shipments| + 1, |attempts|), k);
      OwnAttempts(Attempts(sh), |shipments| + 1, |attempts|, k);
    } else {
      assert shipments + [] == shipments && attempts + [] == attempts;
    }
  }

  // ----- references -----

  /** The table whose rows a table refers to; its own rows are numbered one after the other. */
  function Parent(t: Table): Option<Table> {
    match t
    case Items | Payments | StatusHistory | Redemptions | Shipments | Movements => Some(Orders)
    case Refunds => Some(Payments)
    case ShipmentAttempts => Some(Shipments)
    case Orders | Inventory => None
  }

  function Reference(r: Row): int {
    match r
    case ItemRow(_, order, _, _, _, _) => order
    case PaymentRow(_, order, _, _) => order
    case HistoryRow(_, order, _) => order
    case RedemptionRow(_, order, _, _, _, _) => order
    case ShipmentRow(_, order, _) => order
    case MovementRow(_, order, _, _, _) => order
    case RefundRow(_, payment, _, _) => payment
    case AttemptRow(_, shipment, _) => shipment
    case OrderRow(_, _, _, _, _, _, _, _, _, _) => 0
    case InventoryRow(_, _, _) => 0
  }

  function Id(r: Row): int {
    if r.InventoryRow? then r.variant else r.id
  }

  /** Tables whose identifiers run 1, 2, 3, ... without a gap. */
  predicate Numbered(t: Table) {
    t !in {Redemptions, Refunds, Inventory}
  }

  function Already(order: int, c: Counters, t: Table): int {
    match t
    case Orders | Payments | Redemptions | Refunds => order - 1
    case Items => c.items
    case StatusHistory => c.history
    case Shipments => c.shipments
    case ShipmentAttempts => c.attempts
    case Movements => c.movements
    case Inventory => 0
  }

  lemma EmitIsNumbered(p: Order, order: int, c: Counters, t: Table, i: nat)
    requires Numbered(t) && i < |Emit(p, order, c, t)|
    ensures Id(Emit(p, order, c, t)[i]) == Already(order, c, t) + i + 1
  {
  }

  lemma AlreadyIsSoFar(done: seq<Order>, t: Table)
    requires Numbered(t)
    ensures Already(|done| + 1, CountersOf(done), t) == |Rows(done, t)|
  {
    OrdersAndPayments(done);
  }

  predicate InSequence(rows: seq<Row>, from: int) {
    forall i :: 0 <= i < |rows| ==> Id(rows[i]) == from + i + 1
  }

  lemma SequenceGrows(a: seq<Row>, b: seq<Row>)
    requires InSequence(a, 0) && InSequence(b, |a|)
    ensures InSequence(a + b, 0)
  {
  }

  lemma {:induction false} RowsAreNumbered(done: seq<Order>, t: Table)
    requires Numbered(t)
    ensures InSequence(Rows(done, t), 0)
  {
    if done != [] {
      var n := |done| - 1;
      var c := CountersOf(done[..n]);
      RowsAreNumbered(done[..n], t);
      AlreadyIsSoFar(done[..n], t);
      var more := Emit(done[n], n + 1, c, t);
      forall i | 0 <= i < |more|
        ensures Id(more[i]) == |Rows(done[..n], t)| + i + 1
      {
        EmitIsNumbered(done[n], n + 1, c, t, i);
      }
      SequenceGrows(Rows(done[..n], t), more);
    }
  }

  /** Every row of a table with a parent refers to a row of it. */
  predicate Referring(rows: seq<Row>, parents: nat) {
    forall i :: 0 <= i < |rows| ==> 1 <= Reference(rows[i]) <= parents
  }

  lemma EmitRefers(p: Order, order: int, c: Counters, t: Table, i: nat)
    requires Parent(t).Some? && i < |Emit(p, order, c, t)|
    ensures Reference(Emit(p, order, c, t)[i]) == if t == ShipmentAttempts then c.shipments + 1 else order
    ensures t == ShipmentAttempts ==> |Emit(p, order, c, Shipments)| == 1
  {
    match t
    case ShipmentAttempts => assert Ships(p.outcome);
    case _ =>
  }

  lemma {:induction false} ReferencesExist(done: seq<Order>, t: Table)
    requires Parent(t).Some?
    ensures Referring(Rows(done, t), |Rows(done, Parent(t).value)|)
  {
    if done != [] {
      var n := |done| - 1;
      var c := CountersOf(done[..n]);
      ReferencesExist(done[..n], t);
      OrdersAndPayments(done);
      OrdersAndPayments(done[..n]);
      var more := Emit(done[n], n + 1, c, t);
      forall i | 0 <= i < |more|
        ensures 1 <= Reference(more[i]) <= |Rows(done, Parent(t).value)|
      {
        EmitRefers(done[n], n + 1, c, t, i);
      }
      ReferringGrows(Rows(done[..n], t), more, |Rows(done[..n], Parent(t).value)|,
                     |Rows(done, Parent(t).value)|);
    }
  }

  lemma ReferringGrows(a: seq<Row>, b: seq<Row>, before: nat, after: nat)
    requires Referring(a, before) && before <= after && Referring(b, after)
    ensures Referring(a + b, after)
  {
  }
}
