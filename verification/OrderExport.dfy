/** The exporter's order loop: rows collect in buffers, the buffers are flushed into the SQL stream every so many
    orders, and running totals of stock and refused deliveries are written at the end. */
module OrderExport {
  import opened Common
  import opened OrderLifecycle
  import opened OrderTables

  const INSERT_BATCH_SIZE := 1000

  datatype Statement =
    | Insert(table: Table, rows: seq<Row>)
    | UpdateCustomer(customer: nat, boomCount: nat, blocked: bool)

  /** Everything a stream inserts into a table, in order. */
  function RowsOf(stream: seq<Statement>, t: Table): seq<Row> {
    if stream == [] then []
    else
      var last := stream[|stream| - 1];
      RowsOf(stream[..|stream| - 1], t) + if last.Insert? && last.table == t then last.rows else []
  }

  /** Every row is inserted after the row it refers to, as checked foreign keys demand. */
  predicate ParentsFirst(stream: seq<Statement>) {
    stream == [] ||
    var before, last := stream[..|stream| - 1], stream[|stream| - 1];
    ParentsFirst(before) &&
    (last.Insert? && Parent(last.table).Some? ==>
       Referring(last.rows, |RowsOf(before, Parent(last.table).value)|))
  }

  function Updates(stream: seq<Statement>, customer: nat): seq<Statement> {
    if stream == [] then []
    else
      var last := stream[|stream| - 1];
      Updates(stream[..|stream| - 1], customer) + if last.UpdateCustomer? && last.customer == customer then [last] else []
  }

  /** `_write_insert`: nothing is written for no rows. */
  function WriteInsert(stream: seq<Statement>, t: Table, rows: seq<Row>): seq<Statement> {
    if rows == [] then stream else stream + [Insert(t, rows)]
  }

  lemma Written(stream: seq<Statement>, t: Table, rows: seq<Row>)
    ensures forall u: Table :: RowsOf(WriteInsert(stream, t, rows), u) == RowsOf(stream, u) + if u == t then rows else []
    ensures forall c: nat :: Updates(WriteInsert(stream, t, rows), c) == Updates(stream, c)
    ensures ParentsFirst(stream) && (Parent(t).Some? ==> Referring(rows, |RowsOf(stream, Parent(t).value)|)) ==>
              ParentsFirst(WriteInsert(stream, t, rows))
  {
    if rows != [] {
      assert (stream + [Insert(t, rows)])[..|stream|] == stream;
    }
  }

  // ----- buffers -----

  const TABLES := [Orders, Items, Payments, StatusHistory, Redemptions, Refunds, Shipments, ShipmentAttempts, Movements]

  function Place(t: Table): (i: nat)
    ensures t != Inventory ==> i < |TABLES| && TABLES[i] == t
    ensures t == Inventory ==> i == |TABLES|
  {
    match t
    case Orders => 0
    case Items => 1
    case Payments => 2
    case StatusHistory => 3
    case Redemptions => 4
    case Refunds => 5
    case Shipments => 6
    case ShipmentAttempts => 7
    case Movements => 8
    case Inventory => 9
  }

  lemma JoinOf(a: Buffers, b: Buffers, t: Table)
    ensures Of(Join(a, b), t) == Of(a, t) + Of(b, t)
  {
  }

  /** Every buffered row refers to a row already written or buffered with it. */
  ghost predicate Referenced(stream: seq<Statement>, pending: Buffers) {
    forall t: Table :: Parent(t).Some? ==>
      Referring(Of(pending, t), |RowsOf(stream, Parent(t).value)| + |Of(pending, Parent(t).value)|)
  }

  /** The first `i` buffers have been written. */
  ghost predicate Flushed(before: seq<Statement>, pending: Buffers, i: nat, after: seq<Statement>) {
    ParentsFirst(after) && (forall c: nat :: Updates(after, c) == Updates(before, c)) &&
    forall t: Table :: RowsOf(after, t) == RowsOf(before, t) + if Place(t) < i then Of(pending, t) else []
  }

  lemma FlushNext(before: seq<Statement>, pending: Buffers, i: nat, after: seq<Statement>)
    requires i < |TABLES| && Referenced(before, pending) && Flushed(before, pending, i, after)
    ensures Flushed(before, pending, i + 1, WriteInsert(after, TABLES[i], Of(pending, TABLES[i])))
  {
    var t := TABLES[i];
    assert Place(t) == i;
    Written(after, t, Of(pending, t));
    if Parent(t).Some? {
      assert Place(Parent(t).value) < i;
    }
    forall u: Table
      ensures RowsOf(WriteInsert(after, t, Of(pending, t)), u) ==
                RowsOf(before, u) + if Place(u) < i + 1 then Of(pending, u) else []
    {
      if u == t {
        assert RowsOf(before, u) + [] == RowsOf(before, u);
      } else {
        assert Place(u) != i;
        assert RowsOf(after, u) + [] == RowsOf(after, u);
      }
    }
  }

  /** `flush_orders`: every buffer goes into the stream, parents first. */
  method WriteBuffers(before: seq<Statement>, pending: Buffers) returns (stream: seq<Statement>)
    requires ParentsFirst(before) && Referenced(before, pending)
    ensures ParentsFirst(stream) && forall c: nat :: Updates(stream, c) == Updates(before, c)
    ensures forall t: Table :: RowsOf(stream, t) == RowsOf(before, t) + Of(pending, t)
  {
    stream := before;
    forall t: Table
      ensures RowsOf(before, t) + [] == RowsOf(before, t)
    {
    }
    for i := 0 to |TABLES|
      invariant Flushed(before, pending, i, stream)
    {
      FlushNext(before, pending, i, stream);
      stream := WriteInsert(stream, TABLES[i], Of(pending, TABLES[i]));
    }
    forall t: Table
      ensures RowsOf(stream, t) == RowsOf(before, t) + Of(pending, t)
    {
      assert t == Inventory ==> Of(pending, t) == [];
    }
  }

  /** `_write_batched` for a table without references: one insert for every batch. */
  method WriteBatched(before: seq<Statement>, t: Table, rows: seq<Row>) returns (stream: seq<Statement>)
    requires ParentsFirst(before) && Parent(t) == None
    ensures ParentsFirst(stream) && forall c: nat :: Updates(stream, c) == Updates(before, c)
    ensures forall u: Table :: RowsOf(stream, u) == RowsOf(before, u) + if u == t then rows else []
  {
    stream := before;
    var start := 0;
    forall u: Table
      ensures RowsOf(before, u) + [] == RowsOf(before, u)
    {
    }
    while start < |rows|
      invariant 0 <= start <= |rows| && ParentsFirst(stream)
      invariant forall c: nat :: Updates(stream, c) == Updates(before, c)
      invariant forall u: Table :: RowsOf(stream, u) == RowsOf(before, u) + if u == t then rows[..start] else []
    {
      var end := Min(start + INSERT_BATCH_SIZE, |rows|);
      BatchWritten(stream, t, rows, start, end, RowsOf(before, t));
      stream := WriteInsert(stream, t, rows[start..end]);
      start := end;
    }
    assert rows[..|rows|] == rows;
  }

  lemma BatchWritten(stream: seq<Statement>, t: Table, rows: seq<Row>, start: nat, end: nat, given: seq<Row>)
    requires start <= end <= |rows| && ParentsFirst(stream) && Parent(t) == None
    requires RowsOf(stream, t) == given + rows[..start]
    ensures var after := WriteInsert(stream, t, rows[start..end]);
            ParentsFirst(after) && RowsOf(after, t) == given + rows[..end] &&
            (forall c: nat :: Updates(after, c) == Updates(stream, c)) &&
            forall u: Table :: u != t ==> RowsOf(after, u) == RowsOf(stream, u)
  {
    Written(stream, t, rows[start..end]);
    assert rows[..end] == rows[..start] + rows[start..end];
    Associate(given, rows[..start], rows[start..end]);
    forall u: Table | u != t
      ensures RowsOf(stream, u) + [] == RowsOf(stream, u)
    {
    }
  }

  // ----- the state of the loop -----

  /** What has been written and what is still buffered make up the rows of all purchases so far. */
  ghost predicate Complete(done: seq<Order>, stream: seq<Statement>, pending: Buffers)
  {
    forall t: Table :: RowsOf(stream, t) + Of(pending, t) == Rows(done, t)
  }

  lemma CompleteIsReferenced(done: seq<Order>, stream: seq<Statement>, pending: Buffers)
    requires Complete(done, stream, pending)
    ensures Referenced(stream, pending)
  {
    forall t: Table | Parent(t).Some?
      ensures Referring(Of(pending, t), |RowsOf(stream, Parent(t).value)| + |Of(pending, Parent(t).value)|)
    {
      var u := Parent(t).value;
      ReferencesExist(done, t);
      assert |Rows(done, u)| == |RowsOf(stream, u) + Of(pending, u)|;
      SuffixRefers(RowsOf(stream, t), Of(pending, t), |Rows(done, u)|);
    }
  }

  lemma CompleteGrows(done: seq<Order>, p: Order, stream: seq<Statement>, pending: Buffers,
                      e: Buffers)
    requires Complete(done, stream, pending)
    requires e == Emission(p, |done| + 1, CountersOf(done))
    ensures Complete(done + [p], stream, Join(pending, e))
    ensures CountersOf(done + [p]) == Advanced(CountersOf(done), e)
  {
    RowsGrow(done, p);
    JoinKeepsComplete(stream, pending, e, After(done));
  }

  lemma JoinKeepsComplete(stream: seq<Statement>, pending: Buffers, e: Buffers, all: Buffers)
    requires forall t: Table :: RowsOf(stream, t) + Of(pending, t) == Of(all, t)
    ensures forall t: Table :: RowsOf(stream, t) + Of(Join(pending, e), t) == Of(Join(all, e), t)
  {
    forall t: Table
      ensures RowsOf(stream, t) + Of(Join(pending, e), t) == Of(Join(all, e), t)
    {
      JoinOf(pending, e, t);
      JoinOf(all, e, t);
      Associate(RowsOf(stream, t), Of(pending, t), Of(e, t));
    }
  }

  lemma Associate(a: seq<Row>, b: seq<Row>, c: seq<Row>)
    ensures a + (b + c) == a + b + c
  {
  }

  function Advanced(c: Counters, e: Buffers): Counters {
    Counters(c.items + |e.items|, c.history + |e.history|, c.shipments + |e.shipments|, c.attempts + |e.attempts|,
             c.movements + |e.movements|)
  }

  /** The running totals after these purchases. */
  ghost predicate Totalled(done: seq<Order>, sold: map<int, nat>, booms: seq<nat>) {
    (forall v :: v in sold ==> sold[v] == Sold(done, v)) &&
    (forall c :: 0 <= c < |booms| ==> booms[c] == Booms(done, c))
  }

  lemma TotalsGrow(done: seq<Order>, p: Order, v: int)
    ensures Sold(done + [p], v) ==
              Sold(done, v) + if p.outcome.status != Cancelled then Quantity(p.lines, v) else 0
    ensures v >= 0 ==>
              Booms(done + [p], v) ==
                Booms(done, v) + if p.outcome.status == FailedDelivery && p.customer == v then 1 else 0
  {
    assert (done + [p])[..|done|] == done;
  }

  function NothingSold(variants: seq<int>): (m: map<int, nat>)
    ensures forall v :: v in m <==> v in variants
    ensures forall v :: v in m ==> m[v] == 0
  {
    if variants == [] then map[] else NothingSold(variants[1..])[variants[0] := 0]
  }

  // ----- the loops over the lines of one order -----

  method SumLines(lines: seq<Line>) returns (subtotal: nat)
    ensures subtotal == Subtotal(lines)
  {
    subtotal := 0;
    for i := 0 to |lines|
      invariant subtotal == Subtotal(lines[..i])
    {
      assert lines[..i + 1][..i] == lines[..i];
      var lineTotal := lines[i].price * lines[i].quantity;
      subtotal := subtotal + lineTotal;
    }
    assert lines[..|lines|] == lines;
  }

  method BuildItems(lines: seq<Line>, order: int, already: nat) returns (rows: seq<Row>)
    ensures rows == ItemRows(lines, order, already)
  {
    rows := [];
    var itemIndex := already;
    for i := 0 to |lines|
      invariant itemIndex == already + i
      invariant rows == ItemRows(lines[..i], order, already)
    {
      itemIndex := itemIndex + 1;
      rows := rows + [ItemOf(lines[i], order, itemIndex)];
    }
    assert lines[..|lines|] == lines;
  }

  method Sell(sold: map<int, nat>, lines: seq<Line>) returns (after: map<int, nat>)
    requires forall i :: 0 <= i < |lines| ==> lines[i].variant in sold
    ensures after.Keys == sold.Keys
    ensures forall v :: v in sold ==> after[v] == sold[v] + Quantity(lines, v)
  {
    after := sold;
    for i := 0 to |lines|
      invariant after.Keys == sold.Keys
      invariant forall v :: v in sold ==> after[v] == sold[v] + Quantity(lines[..i], v)
    {
      assert lines[..i + 1][..i] == lines[..i];
      after := after[lines[i].variant := after[lines[i].variant] + lines[i].quantity];
    }
    assert lines[..|lines|] == lines;
  }

  method BuildMovements(lines: seq<Line>, order: int, already: nat, o: Outcome, time: int) returns (rows: seq<Row>)
    ensures rows == if Moves(o) then MovementRows(lines, order, already, o, time) else []
  {
    rows := [];
    if Moves(o) {
      for i := 0 to |lines|
        invariant rows == MovementRows(lines[..i], order, already, o, time)
      {
        rows := rows + [MovementOf(lines[i], order, already + i + 1, o, time)];
      }
      assert lines[..|lines|] == lines;
    }
  }

  /** A step recorded only under its condition. */
  method Record(rows: seq<Row>, order: int, already: nat, given: bool, step: Transition) returns (more: seq<Row>)
    ensures more == rows + if given then [HistoryRow(already + |rows| + 1, order, step)] else []
  {
    more := rows;
    if given {
      more := more + [HistoryRow(already + |rows| + 1, order, step)];
    }
  }

  method BuildHistory(o: Outcome, time: int, order: int, already: nat) returns (rows: seq<Row>)
    ensures rows == HistoryRows(History(o, time), order, already)
  {
    rows := [HistoryRow(already + 1, order, Transition(None, Paid, time))];
    rows := Record(rows, order, already, o.confirmedAt.Some?, Transition(Some(Paid), Confirmed, Or(o.confirmedAt, 0)));
    rows := Record(rows, order, already, o.completedAt.Some?,
                   Transition(Some(Confirmed), Completed, Or(o.completedAt, 0)));
    rows := Record(rows, order, already, o.cancelledAt.Some?, Transition(Some(Paid), Cancelled, Or(o.cancelledAt, 0)));
    rows := Record(rows, order, already, o.status == FailedDelivery,
                   Transition(Some(Confirmed), FailedDelivery, o.updatedAt));
  }

  method BuildAttempts(s: Shipment, shipment: int, already: nat) returns (rows: seq<Row>)
    ensures rows == AttemptRows(Attempts(s), shipment, already)
  {
    var attempts := DeliveryAttempts(s);
    rows := [];
    for i := 0 to |attempts|
      invariant rows == AttemptRows(attempts[..i], shipment, already)
    {
      rows := rows + [AttemptRow(already + i + 1, shipment, attempts[i])];
    }
    assert attempts[..|attempts|] == attempts;
  }

  /** The first half of the order loop's body decides, the second half writes rows. */
  method DecideOrder(s: Setting, p: Purchase) returns (r: Order)
    requires ValidSetting(s)
    ensures r == OrderOf(s, p)
  {
    var time := Min(p.drawnTime, s.end);
    var subtotal := SumLines(p.lines);
    var coupon := SelectCoupon(s.coupons, time, p.localHour, subtotal, p.position == 0, p.couponHit, p.couponChoice);
    var discount := 0;
    if coupon.Some? {
      discount := Discount(coupon.value, subtotal);
    }
    var outcome := Decide(Placement(time, p.customer, p.position), s.end, p.draws);
    r := Order(p.customer, time, p.lines, coupon, discount, outcome);
  }

  method BuildRows(p: Order, order: nat, c: Counters) returns (e: Buffers)
    ensures e == Emission(p, order, c)
  {
    var o := p.outcome;
    var items := BuildItems(p.lines, order, c.items);
    var history := BuildHistory(o, p.time, order, c.history);
    var shipments: seq<Row>, attempts: seq<Row> := [], [];
    if o.status == Completed || o.status == FailedDelivery {
      var shipment := ShipmentOf(o, p.time, Total(p));
      shipments := [ShipmentRow(c.shipments + 1, order, shipment)];
      attempts := BuildAttempts(shipment, c.shipments + 1, c.attempts);
    }
    var movements := BuildMovements(p.lines, order, c.movements, o, p.time);
    e := Buffers([OrderAt(p, order)], items, [PaymentAt(p, order)], history,
                 RedemptionRows(order, o, p.coupon, p.time), RefundRows(order, o, Total(p)), shipments, attempts,
                 movements);
  }

  /** The running totals move on with one order. */
  method MoveTotals(ghost done: seq<Order>, p: Order, sold: map<int, nat>, booms: seq<nat>)
    returns (sold': map<int, nat>, booms': seq<nat>)
    requires Totalled(done, sold, booms) && p.customer < |booms|
    requires forall i :: 0 <= i < |p.lines| ==> p.lines[i].variant in sold
    ensures Totalled(done + [p], sold', booms') && sold'.Keys == sold.Keys && |booms'| == |booms|
  {
    sold', booms' := sold, booms;
    if p.outcome.status == FailedDelivery {
      booms' := booms[p.customer := booms[p.customer] + 1];
    }
    if p.outcome.status != Cancelled {
      sold' := Sell(sold, p.lines);
    }
    forall v | v in sold'
      ensures sold'[v] == Sold(done + [p], v)
    {
      TotalsGrow(done, p, v);
    }
    forall c | 0 <= c < |booms'|
      ensures booms'[c] == Booms(done + [p], c)
    {
      TotalsGrow(done, p, c);
    }
  }

  /** The invariant of the order loop. */
  ghost predicate Consistent(done: seq<Order>, stream: seq<Statement>, pending: Buffers,
                             counters: Counters, orderIndex: nat, sold: map<int, nat>, booms: seq<nat>)
  {
    Complete(done, stream, pending) && ParentsFirst(stream) && (forall c: nat :: Updates(stream, c) == []) &&
    orderIndex == |done| && counters == CountersOf(done) && Totalled(done, sold, booms)
  }

  lemma OrderKeepsConsistent(done: seq<Order>, p: Order, e: Buffers, stream: seq<Statement>,
                             pending: Buffers, counters: Counters, orderIndex: nat, sold: map<int, nat>, booms: seq<nat>,
                             sold': map<int, nat>, booms': seq<nat>)
    requires Consistent(done, stream, pending, counters, orderIndex, sold, booms)
    requires e == Emission(p, orderIndex + 1, counters) && Totalled(done + [p], sold', booms')
    ensures Consistent(done + [p], stream, Join(pending, e), Advanced(counters, e), orderIndex + 1, sold', booms')
  {
    CompleteGrows(done, p, stream, pending, e);
  }

  lemma FlushKeepsConsistent(done: seq<Order>, stream: seq<Statement>, pending: Buffers,
                             counters: Counters, orderIndex: nat, sold: map<int, nat>, booms: seq<nat>,
                             after: seq<Statement>)
    requires Consistent(done, stream, pending, counters, orderIndex, sold, booms)
    requires ParentsFirst(after) && forall c: nat :: Updates(after, c) == Updates(stream, c)
    requires forall t: Table :: RowsOf(after, t) == RowsOf(stream, t) + Of(pending, t)
    ensures Consistent(done, after, EMPTY, counters, orderIndex, sold, booms)
  {
    forall t: Table
      ensures RowsOf(after, t) + Of(EMPTY, t) == Rows(done, t)
    {
      assert RowsOf(after, t) + [] == RowsOf(after, t);
    }
  }

  // ----- the exporter -----

  class Exporter {
    const setting: Setting
    var stream: seq<Statement>
    var pending: Buffers
    var counters: Counters
    var orderIndex: nat
    var sold: map<int, nat>
    var booms: seq<nat>

    /** The orders dealt with so far. */
    ghost var done: seq<Order>

    ghost predicate Valid()
      reads this
    {
      ValidSetting(setting) && Consistent(done, stream, pending, counters, orderIndex, sold, booms)
    }

    constructor (setting: Setting, variants: seq<int>, customers: nat)
      requires ValidSetting(setting)
      ensures Valid() && done == [] && this.setting == setting
      ensures sold == NothingSold(variants) && |booms| == customers + 2
    {
      this.setting := setting;
      stream, pending, done := [], EMPTY, [];
      counters, orderIndex := Counters(0, 0, 0, 0, 0), 0;
      sold := NothingSold(variants);
      booms := seq(customers + 2, _ => 0);
    }

    method Flush()
      requires Valid()
      modifies this`stream, this`pending
      ensures Valid() && pending == EMPTY
    {
      CompleteIsReferenced(done, stream, pending);
      var flushed := WriteBuffers(stream, pending);
      FlushKeepsConsistent(done, stream, pending, counters, orderIndex, sold, booms, flushed);
      stream, pending := flushed, EMPTY;
    }

    /** The order's rows join the buffers; counters and running totals move with them. */
    method AppendOrder(order: Order)
      requires Valid() && order.customer < |booms|
      requires forall i :: 0 <= i < |order.lines| ==> order.lines[i].variant in sold
      modifies this
      ensures Valid() && done == old(done) + [order] && stream == old(stream)
      ensures sold.Keys == old(sold.Keys) && |booms| == |old(booms)|
    {
      var emitted := BuildRows(order, orderIndex + 1, counters);
      var sold', booms' := MoveTotals(done, order, sold, booms);
      OrderKeepsConsistent(done, order, emitted, stream, pending, counters, orderIndex, sold, booms, sold', booms');
      Record(order, emitted, sold', booms');
    }

    method Record(order: Order, emitted: Buffers, sold': map<int, nat>, booms': seq<nat>)
      requires ValidSetting(setting)
      requires Consistent(done + [order], stream, Join(pending, emitted), Advanced(counters, emitted), orderIndex + 1,
                          sold', booms')
      modifies this
      ensures Valid() && done == old(done) + [order] && stream == old(stream) && sold == sold' && booms == booms'
    {
      pending, counters, orderIndex := Join(pending, emitted), Advanced(counters, emitted), orderIndex + 1;
      sold, booms, done := sold', booms', done + [order];
    }

    /** One turn of the order loop. */
    method ExportOrder(p: Purchase)
      requires Valid() && p.customer < |booms| && forall i :: 0 <= i < |p.lines| ==> p.lines[i].variant in sold
      modifies this
      ensures Valid() && done == old(done) + [OrderOf(setting, p)]
      ensures sold.Keys == old(sold.Keys) && |booms| == |old(booms)|
    {
      var order := DecideOrder(setting, p);
      AppendOrder(order);
      if |pending.orders| >= INSERT_BATCH_SIZE {
        Flush();
      }
    }

    /** The order loop and the last flush. */
    method ExportOrders(purchases: seq<Purchase>)
      requires Valid() && done == []
      requires forall k :: 0 <= k < |purchases| ==> purchases[k].customer < |booms|
      requires forall k, i :: 0 <= k < |purchases| && 0 <= i < |purchases[k].lines| ==>
                 purchases[k].lines[i].variant in sold
      modifies this
      ensures Valid() && pending == EMPTY && done == OrdersOf(setting, purchases)
      ensures sold.Keys == old(sold.Keys) && |booms| == |old(booms)|
    {
      for k := 0 to |purchases|
        invariant Valid() && done == OrdersOf(setting, purchases[..k])
        invariant sold.Keys == old(sold.Keys) && |booms| == |old(booms)|
      {
        OrdersOfNext(setting, purchases, k);
        ExportOrder(purchases[k]);
      }
      assert purchases[..|purchases|] == purchases;
      Flush();
    }

    /** The inventory section: every variant opens with what it sold and a buffer on top. */
    method WriteInventory(variants: seq<int>, buffers: seq<nat>)
      requires ParentsFirst(stream) && |buffers| == |variants| && forall i :: 0 <= i < |variants| ==> variants[i] in sold
      modifies this`stream
      ensures ParentsFirst(stream) && forall c: nat :: Updates(stream, c) == old(Updates(stream, c))
      ensures forall t: Table ::
                RowsOf(stream, t) == old(RowsOf(stream, t)) +
                  if t == Inventory then StockRows(variants, sold, buffers) else []
    {
      var rows := [];
      for i := 0 to |variants|
        invariant rows == StockRows(variants[..i], sold, buffers[..i])
      {
        assert variants[..i + 1][..i] == variants[..i] && buffers[..i + 1][..i] == buffers[..i];
        var opening := sold[variants[i]] + buffers[i];
        rows := rows + [InventoryRow(variants[i], opening, opening - sold[variants[i]])];
      }
      assert variants[..|variants|] == variants && buffers[..|buffers|] == buffers;
      stream := WriteBatched(stream, Inventory, rows);
    }

    /** Customers who refused a delivery are told so once, and blocked from the third time on. */
    method WriteBooms(customers: nat)
      requires ParentsFirst(stream) && customers <= |booms|
      requires forall c: nat :: Updates(stream, c) == []
      modifies this`stream
      ensures ParentsFirst(stream) && forall t: Table :: RowsOf(stream, t) == old(RowsOf(stream, t))
      ensures forall c: nat :: Updates(stream, c) == if c < customers then UpdateFor(c, booms[c]) else []
    {
      for c := 0 to customers
        invariant ParentsFirst(stream) && forall t: Table :: RowsOf(stream, t) == old(RowsOf(stream, t))
        invariant forall d: nat :: Updates(stream, d) == if d < c then UpdateFor(d, booms[d]) else []
      {
        if booms[c] > 0 {
          UpdateAppended(stream, c, booms[c]);
          stream := stream + [UpdateCustomer(c, booms[c], booms[c] >= 3)];
        }
      }
    }

    /** What is written once the orders are done. */
    method WriteTotals(variants: seq<int>, buffers: seq<nat>, customers: nat)
      requires ParentsFirst(stream) && |buffers| == |variants| && forall i :: 0 <= i < |variants| ==> variants[i] in sold
      requires customers <= |booms| && forall c: nat :: Updates(stream, c) == []
      modifies this`stream
      ensures ParentsFirst(stream)
      ensures forall t: Table ::
                RowsOf(stream, t) == old(RowsOf(stream, t)) +
                  if t == Inventory then StockRows(variants, sold, buffers) else []
      ensures forall c: nat :: Updates(stream, c) == if c < customers then UpdateFor(c, booms[c]) else []
    {
      WriteInventory(variants, buffers);
      WriteBooms(customers);
    }
  }

  lemma UpdateAppended(stream: seq<Statement>, customer: nat, booms: nat)
    requires ParentsFirst(stream)
    ensures var update := UpdateCustomer(customer, booms, booms >= 3);
            ParentsFirst(stream + [update]) && (forall t: Table :: RowsOf(stream + [update], t) == RowsOf(stream, t)) &&
            forall c: nat :: Updates(stream + [update], c) == Updates(stream, c) + if c == customer then [update] else []
  {
    var update := UpdateCustomer(customer, booms, booms >= 3);
    assert (stream + [update])[..|stream|] == stream;
  }

  function UpdateFor(customer: nat, booms: nat): seq<Statement> {
    if booms > 0 then [UpdateCustomer(customer, booms, booms >= 3)] else []
  }

  function StockRows(variants: seq<int>, sold: map<int, nat>, buffers: seq<nat>): (rows: seq<Row>)
    requires |buffers| == |variants| && forall i :: 0 <= i < |variants| ==> variants[i] in sold
    ensures |rows| == |variants|
    ensures forall i :: 0 <= i < |rows| ==>
              rows[i] == InventoryRow(variants[i], sold[variants[i]] + buffers[i], buffers[i])
  {
    if variants == [] then []
    else
      var n := |variants| - 1;
      StockRows(variants[..n], sold, buffers[..n]) +
      [InventoryRow(variants[n], sold[variants[n]] + buffers[n], buffers[n])]
  }

  lemma OrdersOfNext(s: Setting, purchases: seq<Purchase>, k: nat)
    requires ValidSetting(s) && k < |purchases|
    ensures OrdersOf(s, purchases[..k + 1]) == OrdersOf(s, purchases[..k]) + [OrderOf(s, purchases[k])]
  {
    assert purchases[..k + 1][..k] == purchases[..k];
  }

  // ----- a whole export -----

  function OrdersOf(s: Setting, purchases: seq<Purchase>): (r: seq<Order>)
    requires ValidSetting(s)
    ensures |r| == |purchases| && forall i :: 0 <= i < |r| ==> r[i] == OrderOf(s, purchases[i])
  {
    if purchases == [] then []
    else OrdersOf(s, purchases[..|purchases| - 1]) + [OrderOf(s, purchases[|purchases| - 1])]
  }

  /** The tables of a stream hold exactly the rows of these orders: none is lost, repeated or reordered by the
      batches it was flushed in. */
  ghost predicate HoldsExactly(stream: seq<Statement>, orders: seq<Order>) {
    forall t: Table :: t != Inventory ==> RowsOf(stream, t) == Rows(orders, t)
  }

  /** Stock is conserved: what is on hand is the opening stock less what the written orders sold. */
  ghost predicate StockIsConserved(stream: seq<Statement>, variants: seq<int>) {
    var inventory := RowsOf(stream, Inventory);
    |inventory| == |variants| &&
    forall i :: 0 <= i < |variants| ==> Conserved(inventory[i], variants[i], stream)
  }

  predicate Conserved(row: Row, variant: int, stream: seq<Statement>) {
    row.InventoryRow? && row.variant == variant && 0 <= row.onHand <= row.opening &&
    row.onHand == row.opening - SoldRows(RowsOf(stream, Items), RowsOf(stream, Orders), variant)
  }

  /** Each customer's counter is the number of written orders that failed at the door. */
  ghost predicate BoomsAreRecorded(stream: seq<Statement>, customers: nat) {
    forall c: nat ::
      var failed := FailedOrders(RowsOf(stream, Orders), c);
      Updates(stream, c) == if c < customers && failed > 0 then [UpdateCustomer(c, failed, failed >= 3)] else []
  }

  /** Every written order balances, is refunded exactly when it was cancelled, and its history tells its status. */
  ghost predicate OrdersAreRight(stream: seq<Statement>, count: nat, end: int) {
    var orders, payments := RowsOf(stream, Orders), RowsOf(stream, Payments);
    |orders| == |payments| == count &&
    forall i :: 0 <= i < count ==> OrderIsRight(stream, orders[i], payments[i], end)
  }

  predicate OrderIsRight(stream: seq<Statement>, order: Row, payment: Row, end: int) {
    Balanced(order, payment) &&
    LineTotals(RowsOf(stream, Items), order.id) == order.subtotal &&
    Repaid(RefundsOf(RowsOf(stream, Refunds), payment.id), order) &&
    HistoryFits(StepsOf(RowsOf(stream, StatusHistory), order.id), order, end)
  }

  predicate Repaid(refunds: seq<Row>, order: Row)
    requires order.OrderRow?
  {
    if order.status == Cancelled then |refunds| == 1 && refunds[0].RefundRow? && refunds[0].amount == order.total
    else refunds == []
  }

  predicate HistoryFits(h: seq<Transition>, order: Row, end: int)
    requires order.OrderRow?
  {
    Chain(h) && TimePasses(h) && Within(h, order.createdAt, end) && h[|h| - 1].to == order.status
  }

  /** The order section of `export_sql`, from the first order to the boom counters. */
  method Export(s: Setting, variants: seq<int>, customers: nat, purchases: seq<Purchase>, buffers: seq<nat>)
    returns (stream: seq<Statement>)
    requires ValidSetting(s) && |buffers| == |variants|
    requires forall k :: 0 <= k < |purchases| ==> purchases[k].customer < customers && InRange(purchases[k].draws)
    requires forall k, i :: 0 <= k < |purchases| && 0 <= i < |purchases[k].lines| ==>
               purchases[k].lines[i].variant in variants
    ensures HoldsExactly(stream, OrdersOf(s, purchases))
    ensures ParentsFirst(stream)
    ensures OrdersAreRight(stream, |purchases|, s.end)
    ensures StockIsConserved(stream, variants)
    ensures BoomsAreRecorded(stream, customers)
  {
    var exporter := new Exporter(s, variants, customers);
    exporter.ExportOrders(purchases);
    ghost var flushed := exporter.stream;
    exporter.WriteTotals(variants, buffers, customers);
    stream := exporter.stream;
    ExportIsComplete(s, purchases, variants, customers, buffers, flushed, stream, exporter.sold, exporter.booms);
  }

  lemma ExportIsComplete(s: Setting, purchases: seq<Purchase>, variants: seq<int>, customers: nat, buffers: seq<nat>,
                         flushed: seq<Statement>, stream: seq<Statement>, sold: map<int, nat>, booms: seq<nat>)
    requires ValidSetting(s) && forall k :: 0 <= k < |purchases| ==> InRange(purchases[k].draws)
    requires Complete(OrdersOf(s, purchases), flushed, EMPTY) && Totalled(OrdersOf(s, purchases), sold, booms)
    requires |buffers| == |variants| && (forall i :: 0 <= i < |variants| ==> variants[i] in sold) && customers <= |booms|
    requires forall t: Table ::
               RowsOf(stream, t) == RowsOf(flushed, t) + if t == Inventory then StockRows(variants, sold, buffers) else []
    requires forall c: nat :: Updates(stream, c) == if c < customers then UpdateFor(c, booms[c]) else []
    ensures HoldsExactly(stream, OrdersOf(s, purchases)) && OrdersAreRight(stream, |purchases|, s.end)
    ensures StockIsConserved(stream, variants) && BoomsAreRecorded(stream, customers)
  {
    FlushedHolds(OrdersOf(s, purchases), flushed);
    ExportEnds(OrdersOf(s, purchases), variants, customers, buffers, flushed, stream, sold, booms);
    ExportIsRight(s, purchases, stream);
  }

  lemma FlushedHolds(orders: seq<Order>, stream: seq<Statement>)
    requires Complete(orders, stream, EMPTY)
    ensures forall t: Table :: RowsOf(stream, t) == Rows(orders, t)
  {
    forall t: Table
      ensures RowsOf(stream, t) == Rows(orders, t)
    {
      assert RowsOf(stream, t) + Of(EMPTY, t) == RowsOf(stream, t);
    }
  }

  lemma ExportEnds(orders: seq<Order>, variants: seq<int>, customers: nat, buffers: seq<nat>,
                   flushed: seq<Statement>, stream: seq<Statement>, sold: map<int, nat>, booms: seq<nat>)
    requires forall t: Table :: RowsOf(flushed, t) == Rows(orders, t)
    requires |buffers| == |variants| && (forall i :: 0 <= i < |variants| ==> variants[i] in sold) && customers <= |booms|
    requires Totalled(orders, sold, booms)
    requires forall t: Table ::
               RowsOf(stream, t) == RowsOf(flushed, t) + if t == Inventory then StockRows(variants, sold, buffers) else []
    requires forall c: nat :: Updates(stream, c) == if c < customers then UpdateFor(c, booms[c]) else []
    ensures HoldsExactly(stream, orders) && StockIsConserved(stream, variants) && BoomsAreRecorded(stream, customers)
  {
    forall t: Table | t != Inventory
      ensures RowsOf(stream, t) == Rows(orders, t)
    {
      assert RowsOf(flushed, t) + [] == RowsOf(flushed, t);
    }
    assert RowsOf(stream, Inventory) == StockRows(variants, sold, buffers);
    StockEnds(orders, variants, buffers, stream, sold);
    BoomsEnd(orders, customers, stream, booms);
  }

  lemma StockEnds(orders: seq<Order>, variants: seq<int>, buffers: seq<nat>, stream: seq<Statement>, sold: map<int, nat>)
    requires HoldsExactly(stream, orders) && |buffers| == |variants|
    requires forall i :: 0 <= i < |variants| ==> variants[i] in sold && sold[variants[i]] == Sold(orders, variants[i])
    requires RowsOf(stream, Inventory) == StockRows(variants, sold, buffers)
    ensures StockIsConserved(stream, variants)
  {
    forall i | 0 <= i < |variants|
      ensures Conserved(RowsOf(stream, Inventory)[i], variants[i], stream)
    {
      SoldIsInTheRows(orders, variants[i]);
    }
  }

  lemma BoomsEnd(orders: seq<Order>, customers: nat, stream: seq<Statement>, booms: seq<nat>)
    requires HoldsExactly(stream, orders) && customers <= |booms|
    requires forall c :: 0 <= c < |booms| ==> booms[c] == Booms(orders, c)
    requires forall c: nat :: Updates(stream, c) == if c < customers then UpdateFor(c, booms[c]) else []
    ensures BoomsAreRecorded(stream, customers)
  {
    forall c: nat | c < customers
      ensures booms[c] == FailedOrders(RowsOf(stream, Orders), c)
    {
      BoomsAreFailedOrders(orders, c);
    }
  }

  lemma ExportIsRight(s: Setting, purchases: seq<Purchase>, stream: seq<Statement>)
    requires ValidSetting(s) && forall k :: 0 <= k < |purchases| ==> InRange(purchases[k].draws)
    requires HoldsExactly(stream, OrdersOf(s, purchases))
    ensures OrdersAreRight(stream, |purchases|, s.end)
  {
    var orders := OrdersOf(s, purchases);
    forall i | 0 <= i < |orders|
      ensures Sound(orders[i]) && Told(orders[i], s.end)
    {
      OrderIsSound(s, purchases[i]);
    }
    OrdersAndPayments(orders);
    forall i | 0 <= i < |orders|
      ensures OrderIsRight(stream, RowsOf(stream, Orders)[i], RowsOf(stream, Payments)[i], s.end)
    {
      WrittenOrderIsRight(orders, stream, i, s.end);
    }
  }

  lemma WrittenOrderIsRight(orders: seq<Order>, stream: seq<Statement>, i: nat, end: int)
    requires i < |orders| && Told(orders[i], end) && forall k :: 0 <= k < |orders| ==> Sound(orders[k])
    requires HoldsExactly(stream, orders)
    ensures i < |RowsOf(stream, Orders)| && i < |RowsOf(stream, Payments)|
    ensures OrderIsRight(stream, RowsOf(stream, Orders)[i], RowsOf(stream, Payments)[i], end)
  {
    MoneyBalances(orders, i);
    OnePaymentEach(orders, i);
    OrdersEqualTheirItems(orders, i);
    RefundsMatchCancellations(orders, i + 1);
    WrittenHistoryIsAChain(orders, i, end);
  }

  lemma SuffixRefers(a: seq<Row>, b: seq<Row>, parents: nat)
    requires Referring(a + b, parents)
    ensures Referring(b, parents)
  {
    assert forall i :: 0 <= i < |b| ==> (a + b)[|a| + i] == b[i];
  }
}
