/** Daily web-event marts: grouped counts over the fact table, rolled up again one date at a time. */
module Marts {
  import opened Common

  /** A fact row without its measurements; a missing column is None. Dates are days, hours 0 to 23. */
  datatype Event = Event(date: int, hour: int, route: string, verb: string, status: Option<int>,
                         action: Option<string>, product: Option<string>, actor: Option<string>)

  /** The fact table by event identifier. */
  type Facts = map<string, Event>

  /** A mart groups the events that have a key, each group lies within one date and becomes one row. */
  datatype Mart<!K(==), !R> = Mart(keyOf: Event -> Option<K>, dateOf: K -> int, row: Facts -> R)

  ghost predicate Partitioned<K, R>(m: Mart<K, R>) {
    forall e: Event :: m.keyOf(e).Some? ==> m.dateOf(m.keyOf(e).value) == e.date
  }

  function Group<K(==), R>(m: Mart<K, R>, facts: Facts, k: K): Facts {
    map id | id in facts && m.keyOf(facts[id]) == Some(k) :: facts[id]
  }

  function Keys<K, R>(m: Mart<K, R>, facts: Facts): set<K> {
    set id | id in facts && m.keyOf(facts[id]).Some? :: m.keyOf(facts[id]).value
  }

  /** `groupBy` and `agg`. */
  function Build<K, R>(m: Mart<K, R>, facts: Facts): map<K, R> {
    map k | k in Keys(m, facts) :: m.row(Group(m, facts, k))
  }

  function On(facts: Facts, date: int): Facts {
    map id | id in facts && facts[id].date == date :: facts[id]
  }

  function Dates<K, R>(m: Mart<K, R>, rows: map<K, R>): set<int> {
    set k | k in rows :: m.dateOf(k)
  }

  /** `overwritePartitions`: dates among the new rows are replaced, all others stay. */
  function Overwrite<K, R>(m: Mart<K, R>, table: map<K, R>, rows: map<K, R>): map<K, R> {
    (map k | k in table && m.dateOf(k) !in Dates(m, rows) :: table[k]) + rows
  }

  function Slice<K, R>(m: Mart<K, R>, table: map<K, R>, date: int): map<K, R> {
    map k | k in table && m.dateOf(k) == date :: table[k]
  }

  /** On this date the mart is what a rebuild from all facts would give. */
  predicate Agrees<K, R(==)>(m: Mart<K, R>, table: map<K, R>, facts: Facts, date: int) {
    Slice(m, table, date) == Slice(m, Build(m, facts), date)
  }

  // ----- one run -----

  lemma KeysOn<K, R>(m: Mart<K, R>, facts: Facts, date: int)
    requires Partitioned(m)
    ensures forall k :: k in Keys(m, On(facts, date)) <==> k in Keys(m, facts) && m.dateOf(k) == date
  {
    forall k | k in Keys(m, facts) && m.dateOf(k) == date
      ensures k in Keys(m, On(facts, date))
    {
      var id :| id in facts && m.keyOf(facts[id]) == Some(k);
      assert id in On(facts, date) && m.keyOf(On(facts, date)[id]) == Some(k);
    }
  }

  /** Rolling up the facts of a date gives that date's part of the full rollup. */
  lemma BuildOn<K, R>(m: Mart<K, R>, facts: Facts, date: int)
    requires Partitioned(m)
    ensures Build(m, On(facts, date)) == Slice(m, Build(m, facts), date)
  {
    KeysOn(m, facts, date);
    var part, slice := Build(m, On(facts, date)), Slice(m, Build(m, facts), date);
    forall k | k in part || k in slice
      ensures k in part && k in slice && part[k] == slice[k]
    {
      GroupOn(m, facts, date, k);
    }
  }

  lemma GroupOn<K, R>(m: Mart<K, R>, facts: Facts, date: int, k: K)
    requires Partitioned(m) && m.dateOf(k) == date
    ensures Group(m, On(facts, date), k) == Group(m, facts, k)
  {
  }

  /** A run for one date makes it right exactly unless the facts left nothing to write over old rows; other dates
      are not touched. */
  lemma RunMakesDateRightIff<K, R>(m: Mart<K, R>, table: map<K, R>, facts: Facts, date: int)
    requires Partitioned(m)
    ensures var after := Overwrite(m, table, Build(m, On(facts, date)));
            (Agrees(m, after, facts, date) <==>
               date in Dates(m, Build(m, facts)) || date !in Dates(m, table)) &&
            forall d :: d != date ==> Slice(m, after, d) == Slice(m, table, d)
  {
    if date in Dates(m, Build(m, facts)) {
      DateWithGroups(m, table, facts, date);
    } else {
      DateWithoutGroups(m, table, facts, date);
    }
    OtherDatesStay(m, table, facts, date);
  }

  lemma DateWithGroups<K, R>(m: Mart<K, R>, table: map<K, R>, facts: Facts, date: int)
    requires Partitioned(m) && date in Dates(m, Build(m, facts))
    ensures Agrees(m, Overwrite(m, table, Build(m, On(facts, date))), facts, date)
  {
    BuildOn(m, facts, date);
    var rows := Build(m, On(facts, date));
    var k :| k in Build(m, facts) && m.dateOf(k) == date;
    ReplacedSlice(m, table, rows, date, k);
  }

  lemma ReplacedSlice<K, R>(m: Mart<K, R>, table: map<K, R>, rows: map<K, R>, date: int, k: K)
    requires k in rows && forall l :: l in rows ==> m.dateOf(l) == date
    ensures Slice(m, Overwrite(m, table, rows), date) == rows
  {
    assert m.dateOf(k) in Dates(m, rows);
  }

  lemma DateWithoutGroups<K, R>(m: Mart<K, R>, table: map<K, R>, facts: Facts, date: int)
    requires Partitioned(m) && date !in Dates(m, Build(m, facts))
    ensures Agrees(m, Overwrite(m, table, Build(m, On(facts, date))), facts, date) <==> date !in Dates(m, table)
  {
    BuildOn(m, facts, date);
    NoRowsOn(m, Build(m, facts), date);
    var rows := Build(m, On(facts, date));
    assert rows == map[] && Overwrite(m, table, rows) == table;
    if date in Dates(m, table) {
      var k :| k in table && m.dateOf(k) == date;
      assert k in Slice(m, table, date);
    } else {
      NoRowsOn(m, table, date);
    }
  }

  lemma OtherDatesStay<K, R>(m: Mart<K, R>, table: map<K, R>, facts: Facts, date: int)
    requires Partitioned(m)
    ensures var after := Overwrite(m, table, Build(m, On(facts, date)));
            forall d :: d != date ==> Slice(m, after, d) == Slice(m, table, d)
  {
    KeysOn(m, facts, date);
    var rows := Build(m, On(facts, date));
    assert forall k :: k in rows ==> m.dateOf(k) == date;
    forall d | d != date
      ensures Slice(m, Overwrite(m, table, rows), d) == Slice(m, table, d)
    {
      OtherSliceStays(m, table, rows, date, d);
    }
  }

  lemma OtherSliceStays<K, R>(m: Mart<K, R>, table: map<K, R>, rows: map<K, R>, date: int, d: int)
    requires (forall k :: k in rows ==> m.dateOf(k) == date) && d != date
    ensures Slice(m, Overwrite(m, table, rows), d) == Slice(m, table, d)
  {
    assert d !in Dates(m, rows);
  }

  lemma NoRowsOn<K, R>(m: Mart<K, R>, table: map<K, R>, date: int)
    requires date !in Dates(m, table)
    ensures Slice(m, table, date) == map[]
  {
    forall k | k in table
      ensures m.dateOf(k) != date
    {
      assert m.dateOf(k) in Dates(m, table);
    }
  }

  /** A run over all facts is right on every date that has any, and leaves the others. */
  lemma FullRunIsRight<K, R>(m: Mart<K, R>, table: map<K, R>, facts: Facts, date: int)
    requires Partitioned(m)
    ensures var after := Overwrite(m, table, Build(m, facts));
            (Agrees(m, after, facts, date) <==> date in Dates(m, Build(m, facts)) || date !in Dates(m, table))
  {
    var rows := Build(m, facts);
    var after := Overwrite(m, table, rows);
    if date in Dates(m, rows) {
      assert Slice(m, after, date) == Slice(m, rows, date);
    } else {
      NoRowsOn(m, rows, date);
      assert Slice(m, after, date) == Slice(m, table, date);
      if date in Dates(m, table) {
        var k :| k in table && m.dateOf(k) == date;
        assert k in Slice(m, table, date);
      } else {
        NoRowsOn(m, table, date);
      }
    }
  }

  // ----- any history of changes and runs -----

  datatype Step = Upsert(id: string, event: Event) | Remove(id: string) | Run(date: Option<int>)

  datatype State<!K(==), !R> = State(facts: Facts, table: map<K, R>)

  function Target(facts: Facts, date: Option<int>): Facts {
    if date.Some? then On(facts, date.value) else facts
  }

  function Next<K, R>(m: Mart<K, R>, s: State<K, R>, step: Step): State<K, R> {
    match step
    case Upsert(id, e) => State(s.facts[id := e], s.table)
    case Remove(id) => State(s.facts - {id}, s.table)
    case Run(date) => State(s.facts, Overwrite(m, s.table, Build(m, Target(s.facts, date))))
  }

  /** Dates whose facts changed since the last run that covered them. */
  function Stale(facts: Facts, stale: set<int>, step: Step): set<int> {
    match step
    case Upsert(id, e) => stale + {e.date} + if id in facts then {facts[id].date} else {}
    case Remove(id) => stale + if id in facts then {facts[id].date} else {}
    case Run(date) => if date.Some? then stale - {date.value} else {}
  }

  /** A step never takes the last event with a key away from a date. */
  predicate KeepsDates<K, R>(m: Mart<K, R>, facts: Facts, step: Step) {
    match step
    case Upsert(id, e) => Dates(m, Build(m, facts)) <= Dates(m, Build(m, facts[id := e]))
    case Remove(id) => Dates(m, Build(m, facts)) <= Dates(m, Build(m, facts - {id}))
    case Run(_) => true
  }

  /** Fresh dates agree with a rebuild, and the mart knows no date the facts do not. */
  ghost predicate Fresh<K, R>(m: Mart<K, R>, s: State<K, R>, stale: set<int>) {
    (forall d: int :: d !in stale ==> Agrees(m, s.table, s.facts, d)) &&
    Dates(m, s.table) <= Dates(m, Build(m, s.facts))
  }

  lemma UnchangedOn<K, R>(m: Mart<K, R>, a: Facts, b: Facts, date: int)
    requires Partitioned(m) && On(a, date) == On(b, date)
    ensures Slice(m, Build(m, a), date) == Slice(m, Build(m, b), date)
  {
    BuildOn(m, a, date);
    BuildOn(m, b, date);
  }

  lemma ChangeKeepsFresh<K, R>(m: Mart<K, R>, s: State<K, R>, stale: set<int>, step: Step)
    requires Partitioned(m) && Fresh(m, s, stale) && KeepsDates(m, s.facts, step) && !step.Run?
    ensures Fresh(m, Next(m, s, step), Stale(s.facts, stale, step))
  {
    var after := Next(m, s, step).facts;
    forall d: int | d !in Stale(s.facts, stale, step)
      ensures Agrees(m, s.table, after, d)
    {
      assert On(s.facts, d) == On(after, d);
      UnchangedOn(m, s.facts, after, d);
    }
  }

  lemma OverwrittenDates<K, R>(m: Mart<K, R>, table: map<K, R>, rows: map<K, R>, bound: set<int>)
    requires Dates(m, table) <= bound && Dates(m, rows) <= bound
    ensures Dates(m, Overwrite(m, table, rows)) <= bound
  {
    var after := Overwrite(m, table, rows);
    forall k | k in after
      ensures m.dateOf(k) in bound
    {
      if k in rows {
        assert m.dateOf(k) in Dates(m, rows);
      } else {
        assert m.dateOf(k) in Dates(m, table);
      }
    }
  }

  lemma TargetDates<K, R>(m: Mart<K, R>, facts: Facts, date: Option<int>)
    requires Partitioned(m)
    ensures Dates(m, Build(m, Target(facts, date))) <= Dates(m, Build(m, facts))
  {
    if date.Some? {
      KeysOn(m, facts, date.value);
      forall k | k in Build(m, On(facts, date.value))
        ensures m.dateOf(k) in Dates(m, Build(m, facts))
      {
        assert k in Build(m, facts);
      }
    }
  }

  lemma RunKeepsFresh<K, R>(m: Mart<K, R>, s: State<K, R>, stale: set<int>, date: Option<int>)
    requires Partitioned(m) && Fresh(m, s, stale)
    ensures Fresh(m, Next(m, s, Run(date)), Stale(s.facts, stale, Run(date)))
  {
    TargetDates(m, s.facts, date);
    OverwrittenDates(m, s.table, Build(m, Target(s.facts, date)), Dates(m, Build(m, s.facts)));
    var after := Next(m, s, Run(date)).table;
    forall d: int | d !in Stale(s.facts, stale, Run(date))
      ensures Agrees(m, after, s.facts, d)
    {
      if date.Some? {
        RunMakesDateRightIff(m, s.table, s.facts, date.value);
      } else {
        FullRunIsRight(m, s.table, s.facts, d);
      }
    }
  }

  function Final<K, R>(m: Mart<K, R>, s: State<K, R>, steps: seq<Step>): State<K, R> {
    if steps == [] then s else Next(m, Final(m, s, steps[..|steps| - 1]), steps[|steps| - 1])
  }

  function StaleAfter<K, R>(m: Mart<K, R>, s: State<K, R>, steps: seq<Step>): set<int> {
    if steps == [] then {}
    else
      var n := |steps| - 1;
      Stale(Final(m, s, steps[..n]).facts, StaleAfter(m, s, steps[..n]), steps[n])
  }

  predicate AllKeepDates<K, R>(m: Mart<K, R>, s: State<K, R>, steps: seq<Step>) {
    steps == [] ||
    var n := |steps| - 1;
    AllKeepDates(m, s, steps[..n]) && KeepsDates(m, Final(m, s, steps[..n]).facts, steps[n])
  }

  /** From empty tables, after any changes that never empty a date and any runs, the mart is right on every date
      run since it last changed. */
  lemma {:induction false} FreshDatesAgree<K, R>(m: Mart<K, R>, steps: seq<Step>)
    requires Partitioned(m) && AllKeepDates(m, State(map[], map[]), steps)
    ensures Fresh(m, Final(m, State(map[], map[]), steps), StaleAfter(m, State(map[], map[]), steps))
  {
    var start: State<K, R> := State(map[], map[]);
    if steps != [] {
      var n := |steps| - 1;
      FreshDatesAgree(m, steps[..n]);
      var s, stale := Final(m, start, steps[..n]), StaleAfter(m, start, steps[..n]);
      if steps[n].Run? {
        RunKeepsFresh(m, s, stale, steps[n].date);
      } else {
        ChangeKeepsFresh(m, s, stale, steps[n]);
      }
    }
  }

  lemma SlicesDetermine<K, R>(m: Mart<K, R>, a: map<K, R>, b: map<K, R>)
    requires forall d: int :: Slice(m, a, d) == Slice(m, b, d)
    ensures a == b
  {
    forall k | k in a || k in b
      ensures k in a && k in b && a[k] == b[k]
    {
      assert Slice(m, a, m.dateOf(k)) == Slice(m, b, m.dateOf(k));
      assert k in Slice(m, a, m.dateOf(k)) <==> k in a;
      assert k in Slice(m, b, m.dateOf(k)) <==> k in b;
    }
  }

  /** Incremental equals full: once every changed date has been run, the mart is one rollup of all facts. */
  lemma IncrementalEqualsRebuild<K, R>(m: Mart<K, R>, steps: seq<Step>)
    requires Partitioned(m) && AllKeepDates(m, State(map[], map[]), steps)
    requires StaleAfter(m, State<K, R>.State(map[], map[]), steps) == {}
    ensures var end := Final(m, State(map[], map[]), steps);
            end.table == Build(m, end.facts)
  {
    FreshDatesAgree(m, steps);
    AllFreshIsRebuild(m, Final(m, State(map[], map[]), steps));
  }

  lemma AllFreshIsRebuild<K, R>(m: Mart<K, R>, s: State<K, R>)
    requires Fresh(m, s, {})
    ensures s.table == Build(m, s.facts)
  {
    forall d: int
      ensures Slice(m, s.table, d) == Slice(m, Build(m, s.facts), d)
    {
      assert Agrees(m, s.table, s.facts, d);
    }
    SlicesDetermine(m, s.table, Build(m, s.facts));
  }

  // ----- the three marts -----

  datatype HourKey = HourKey(date: int, hour: int, route: string, verb: string)
  datatype HourRow = HourRow(total: nat, success: nat, clientErrors: nat, serverErrors: nat)

  datatype ProductKey = ProductKey(date: int, product: string)
  datatype ProductRow = ProductRow(views: nat, cartAdds: nat, cartRemoves: nat, wishlistAdds: nat, quotes: nat,
                                   visitors: nat)

  datatype FunnelKey = FunnelKey(date: int)
  datatype FunnelRow = FunnelRow(views: nat, cartAdditions: nat, checkouts: nat, orders: nat, visitors: nat)

  predicate Success(e: Event) {
    e.status.Some? && e.status.value < 400
  }

  predicate ClientError(e: Event) {
    e.status.Some? && 400 <= e.status.value < 500
  }

  predicate ServerError(e: Event) {
    e.status.Some? && e.status.value >= 500
  }

  predicate Does(e: Event, action: string) {
    e.action == Some(action)
  }

  predicate Under(e: Event, prefix: string) {
    prefix <= e.route
  }

  function Matching(g: Facts, p: Event -> bool): set<string> {
    set id | id in g && p(g[id])
  }

  /** `sum(when(p, 1).otherwise(0))`. */
  function CountIf(g: Facts, p: Event -> bool): nat {
    |Matching(g, p)|
  }

  /** `countDistinct` skips missing actors. */
  function Visitors(g: Facts): nat {
    |set id | id in g && g[id].actor.Some? :: g[id].actor.value|
  }

  function HourKeyOf(e: Event): Option<HourKey> {
    Some(HourKey(e.date, e.hour, e.route, e.verb))
  }

  function HourDate(k: HourKey): int {
    k.date
  }

  function HourRowOf(g: Facts): HourRow {
    HourRow(|g|, CountIf(g, Success), CountIf(g, ClientError), CountIf(g, ServerError))
  }

  function Hourly(): Mart<HourKey, HourRow> {
    Mart(HourKeyOf, HourDate, HourRowOf)
  }

  /** Events without a product are filtered out. */
  function ProductKeyOf(e: Event): Option<ProductKey> {
    if e.product.Some? && e.product.value != "" then Some(ProductKey(e.date, e.product.value)) else None
  }

  function ProductDate(k: ProductKey): int {
    k.date
  }

  function Doing(action: string): Event -> bool {
    (e: Event) => Does(e, action)
  }

  function ProductRowOf(g: Facts): ProductRow {
    ProductRow(CountIf(g, Doing("product_detail")), CountIf(g, Doing("cart_add")), CountIf(g, Doing("cart_remove")),
               CountIf(g, Doing("wishlist_add")), CountIf(g, Doing("checkout_quote")), Visitors(g))
  }

  function ProductDemand(): Mart<ProductKey, ProductRow> {
    Mart(ProductKeyOf, ProductDate, ProductRowOf)
  }

  predicate Views(e: Event) {
    Does(e, "product_detail") || Does(e, "catalog_search") || Under(e, "/api/v1/products")
  }

  predicate AddsToCart(e: Event) {
    Does(e, "cart_item_set") || Does(e, "cart_add") || Under(e, "/api/v1/cart")
  }

  predicate ChecksOut(e: Event) {
    Does(e, "checkout_quote") || Does(e, "checkout_submit") || Under(e, "/api/v1/checkout")
  }

  predicate Orders(e: Event) {
    Does(e, "order_complete") || Does(e, "order_confirm_internal") || (Does(e, "checkout_submit") && Success(e))
  }

  function FunnelKeyOf(e: Event): Option<FunnelKey> {
    Some(FunnelKey(e.date))
  }

  function FunnelDate(k: FunnelKey): int {
    k.date
  }

  function FunnelRowOf(g: Facts): FunnelRow {
    FunnelRow(CountIf(g, Views), CountIf(g, AddsToCart), CountIf(g, ChecksOut), CountIf(g, Orders), Visitors(g))
  }

  function Funnel(): Mart<FunnelKey, FunnelRow> {
    Mart(FunnelKeyOf, FunnelDate, FunnelRowOf)
  }

  // ----- what the rows say, counted from the facts -----

  /** An hour's row of one route and method: requests, those below 400, from 400 to 499, and from 500 on. */
  lemma HourlyRowIs(facts: Facts, k: HourKey)
    ensures k in Build(Hourly(), facts) <==>
              exists id :: id in facts && facts[id].date == k.date && facts[id].hour == k.hour && facts[id].route == k.route &&
                facts[id].verb == k.verb
    ensures k in Build(Hourly(), facts) ==>
              var row := Build(Hourly(), facts)[k];
              var ids := set id | id in facts && facts[id].date == k.date && facts[id].hour == k.hour &&
                                  facts[id].route == k.route && facts[id].verb == k.verb;
              row.total == |ids| &&
              row.success == |set id | id in ids && facts[id].status.Some? && facts[id].status.value < 400| &&
              row.clientErrors == |set id | id in ids && facts[id].status.Some? && 400 <= facts[id].status.value <= 499| &&
              row.serverErrors == |set id | id in ids && facts[id].status.Some? && facts[id].status.value > 499|
  {
    KeysAre(Hourly(), facts, k);
    var g := Group(Hourly(), facts, k);
    var ids := set id | id in facts && facts[id].date == k.date && facts[id].hour == k.hour &&
                        facts[id].route == k.route && facts[id].verb == k.verb;
    assert forall id :: id in facts ==> (HourKeyOf(facts[id]) == Some(k) <==> id in ids);
    assert g.Keys == ids;
    assert Matching(g, Success) == set id | id in ids && facts[id].status.Some? && facts[id].status.value < 400;
    assert Matching(g, ClientError) == set id | id in ids && facts[id].status.Some? && 400 <= facts[id].status.value <= 499;
    assert Matching(g, ServerError) == set id | id in ids && facts[id].status.Some? && facts[id].status.value > 499;
  }

  lemma KeysAre<K, R>(m: Mart<K, R>, facts: Facts, k: K)
    ensures k in Build(m, facts) <==> exists id :: id in facts && m.keyOf(facts[id]) == Some(k)
    ensures k in Build(m, facts) ==> Build(m, facts)[k] == m.row(Group(m, facts, k))
  {
  }

  /** A day's row of one product: its events by action, and its distinct visitors. */
  lemma ProductRowIs(facts: Facts, k: ProductKey)
    ensures k in Build(ProductDemand(), facts) <==>
              k.product != "" && exists id :: id in facts && facts[id].date == k.date && facts[id].product == Some(k.product)
    ensures k in Build(ProductDemand(), facts) ==>
              var row := Build(ProductDemand(), facts)[k];
              var ids := set id | id in facts && facts[id].date == k.date && facts[id].product == Some(k.product);
              row.views == |set id | id in ids && facts[id].action == Some("product_detail")| &&
              row.cartAdds == |set id | id in ids && facts[id].action == Some("cart_add")| &&
              row.cartRemoves == |set id | id in ids && facts[id].action == Some("cart_remove")| &&
              row.wishlistAdds == |set id | id in ids && facts[id].action == Some("wishlist_add")| &&
              row.quotes == |set id | id in ids && facts[id].action == Some("checkout_quote")| &&
              row.visitors == |set id | id in ids && facts[id].actor.Some? :: facts[id].actor.value|
  {
    KeysAre(ProductDemand(), facts, k);
    var g := Group(ProductDemand(), facts, k);
    var ids := set id | id in facts && facts[id].date == k.date && facts[id].product == Some(k.product);
    assert forall id :: id in facts ==> (ProductKeyOf(facts[id]) == Some(k) <==> id in ids && k.product != "");
    if k in Build(ProductDemand(), facts) {
      assert g.Keys == ids;
      DoingAre(facts, g, ids, "product_detail");
      DoingAre(facts, g, ids, "cart_add");
      DoingAre(facts, g, ids, "cart_remove");
      DoingAre(facts, g, ids, "wishlist_add");
      DoingAre(facts, g, ids, "checkout_quote");
      VisitorsAre(facts, g, ids);
    }
  }

  lemma DoingAre(facts: Facts, g: Facts, ids: set<string>, action: string)
    requires g.Keys == ids <= facts.Keys && forall id :: id in g ==> g[id] == facts[id]
    ensures CountIf(g, Doing(action)) == |set id | id in ids && facts[id].action == Some(action)|
  {
    assert Matching(g, Doing(action)) == set id | id in ids && facts[id].action == Some(action);
  }

  lemma VisitorsAre(facts: Facts, g: Facts, ids: set<string>)
    requires g.Keys == ids <= facts.Keys && forall id :: id in g ==> g[id] == facts[id]
    ensures Visitors(g) == |set id | id in ids && facts[id].actor.Some? :: facts[id].actor.value|
  {
    assert (set id | id in g && g[id].actor.Some? :: g[id].actor.value) ==
           (set id | id in ids && facts[id].actor.Some? :: facts[id].actor.value);
  }

  /** A day's funnel: events by action or by the route they went to, and distinct visitors. */
  lemma FunnelRowIs(facts: Facts, k: FunnelKey)
    ensures k in Build(Funnel(), facts) <==> exists id :: id in facts && facts[id].date == k.date
    ensures k in Build(Funnel(), facts) ==>
              var row := Build(Funnel(), facts)[k];
              var ids := set id | id in facts && facts[id].date == k.date;
              row.views == |set id | id in ids && (facts[id].action in {Some("product_detail"), Some("catalog_search")} ||
                                                   "/api/v1/products" <= facts[id].route)| &&
              row.cartAdditions == |set id | id in ids && (facts[id].action in {Some("cart_item_set"), Some("cart_add")} ||
                                                           "/api/v1/cart" <= facts[id].route)| &&
              row.checkouts == |set id | id in ids && (facts[id].action in {Some("checkout_quote"), Some("checkout_submit")} ||
                                                       "/api/v1/checkout" <= facts[id].route)| &&
              row.orders == |set id | id in ids &&
                (facts[id].action in {Some("order_complete"), Some("order_confirm_internal")} ||
                 (facts[id].action == Some("checkout_submit") && facts[id].status.Some? && facts[id].status.value < 400))| &&
              row.visitors == |set id | id in ids && facts[id].actor.Some? :: facts[id].actor.value|
  {
    KeysAre(Funnel(), facts, k);
    var g := Group(Funnel(), facts, k);
    var ids := set id | id in facts && facts[id].date == k.date;
    assert forall id :: id in facts ==> (FunnelKeyOf(facts[id]) == Some(k) <==> id in ids);
    assert g.Keys == ids;
    ViewsAre(facts, g, ids);
    CartAdditionsAre(facts, g, ids);
    CheckoutsAre(facts, g, ids);
    OrdersAre(facts, g, ids);
    VisitorsAre(facts, g, ids);
  }

  lemma ViewsAre(facts: Facts, g: Facts, ids: set<string>)
    requires g.Keys == ids <= facts.Keys && forall id :: id in g ==> g[id] == facts[id]
    ensures CountIf(g, Views) == |set id | id in ids && (facts[id].action in {Some("product_detail"), Some("catalog_search")} ||
                                                         "/api/v1/products" <= facts[id].route)|
  {
    assert Matching(g, Views) == set id | id in ids && (facts[id].action in {Some("product_detail"), Some("catalog_search")} ||
                                                        "/api/v1/products" <= facts[id].route);
  }

  lemma CartAdditionsAre(facts: Facts, g: Facts, ids: set<string>)
    requires g.Keys == ids <= facts.Keys && forall id :: id in g ==> g[id] == facts[id]
    ensures CountIf(g, AddsToCart) == |set id | id in ids && (facts[id].action in {Some("cart_item_set"), Some("cart_add")} ||
                                                              "/api/v1/cart" <= facts[id].route)|
  {
    assert Matching(g, AddsToCart) == set id | id in ids && (facts[id].action in {Some("cart_item_set"), Some("cart_add")} ||
                                                             "/api/v1/cart" <= facts[id].route);
  }

  lemma CheckoutsAre(facts: Facts, g: Facts, ids: set<string>)
    requires g.Keys == ids <= facts.Keys && forall id :: id in g ==> g[id] == facts[id]
    ensures CountIf(g, ChecksOut) == |set id | id in ids && (facts[id].action in {Some("checkout_quote"), Some("checkout_submit")} ||
                                                             "/api/v1/checkout" <= facts[id].route)|
  {
    assert Matching(g, ChecksOut) == set id | id in ids && (facts[id].action in {Some("checkout_quote"), Some("checkout_submit")} ||
                                                            "/api/v1/checkout" <= facts[id].route);
  }

  lemma OrdersAre(facts: Facts, g: Facts, ids: set<string>)
    requires g.Keys == ids <= facts.Keys && forall id :: id in g ==> g[id] == facts[id]
    ensures CountIf(g, Orders) == |set id | id in ids &&
              (facts[id].action in {Some("order_complete"), Some("order_confirm_internal")} ||
               (facts[id].action == Some("checkout_submit") && facts[id].status.Some? && facts[id].status.value < 400))|
  {
    assert Matching(g, Orders) == set id | id in ids &&
      (facts[id].action in {Some("order_complete"), Some("order_confirm_internal")} ||
       (facts[id].action == Some("checkout_submit") && facts[id].status.Some? && facts[id].status.value < 400));
  }

  lemma MartsArePartitioned()
    ensures Partitioned(Hourly()) && Partitioned(ProductDemand()) && Partitioned(Funnel())
  {
  }

  /** Facts are only added, or replaced within their date. */
  predicate WithinDate(facts: Facts, step: Step) {
    match step
    case Upsert(id, e) => id in facts ==> facts[id].date == e.date
    case Remove(_) => false
    case Run(_) => true
  }

  /** A mart that keys every event then keeps its dates, as the hourly and the funnel mart do. */
  lemma WithinDateKeepsDates<K, R>(m: Mart<K, R>, facts: Facts, step: Step)
    requires Partitioned(m) && WithinDate(facts, step) && forall e: Event :: m.keyOf(e).Some?
    ensures KeepsDates(m, facts, step)
  {
    if step.Upsert? {
      var after := facts[step.id := step.event];
      forall d | d in Dates(m, Build(m, facts))
        ensures d in Dates(m, Build(m, after))
      {
        var k :| k in Build(m, facts) && m.dateOf(k) == d;
        var id :| id in facts && m.keyOf(facts[id]) == Some(k);
        var k' := m.keyOf(after[id]).value;
        assert k' in Keys(m, after) && m.dateOf(k') == d;
      }
    }
  }

  predicate AllWithinDate(facts: Facts, steps: seq<Step>) {
    steps == [] ||
    var n := |steps| - 1;
    AllWithinDate(facts, steps[..n]) && WithinDate(FactsAfter(facts, steps[..n]), steps[n])
  }

  function FactsAfter(facts: Facts, steps: seq<Step>): Facts {
    if steps == [] then facts
    else
      var before := FactsAfter(facts, steps[..|steps| - 1]);
      match steps[|steps| - 1]
      case Upsert(id, e) => before[id := e]
      case Remove(id) => before - {id}
      case Run(_) => before
  }

  lemma {:induction false} TotalMartsKeepDates<K, R>(m: Mart<K, R>, s: State<K, R>, steps: seq<Step>)
    requires Partitioned(m) && AllWithinDate(s.facts, steps) && forall e: Event :: m.keyOf(e).Some?
    ensures AllKeepDates(m, s, steps) && Final(m, s, steps).facts == FactsAfter(s.facts, steps)
  {
    if steps != [] {
      var n := |steps| - 1;
      TotalMartsKeepDates(m, s, steps[..n]);
      WithinDateKeepsDates(m, FactsAfter(s.facts, steps[..n]), steps[n]);
    }
  }

  /** The hourly and the funnel mart equal a full rebuild whenever no changed date is left to run. */
  lemma HourlyAndFunnelEqualRebuild(steps: seq<Step>)
    requires AllWithinDate(map[], steps)
    requires StaleAfter(Hourly(), State(map[], map[]), steps) == {}
    requires StaleAfter(Funnel(), State(map[], map[]), steps) == {}
    ensures Final(Hourly(), State(map[], map[]), steps).table == Build(Hourly(), FactsAfter(map[], steps))
    ensures Final(Funnel(), State(map[], map[]), steps).table == Build(Funnel(), FactsAfter(map[], steps))
  {
    MartsArePartitioned();
    TotalMartsKeepDates(Hourly(), State(map[], map[]), steps);
    TotalMartsKeepDates(Funnel(), State(map[], map[]), steps);
    IncrementalEqualsRebuild(Hourly(), steps);
    IncrementalEqualsRebuild(Funnel(), steps);
  }

  predicate Keyed<K, R>(m: Mart<K, R>, facts: Facts, id: string) {
    id in facts && m.keyOf(facts[id]).Some?
  }

  /** A rebuild has rows for a date exactly if some event of that date has a key. */
  lemma DatesOfBuild<K, R>(m: Mart<K, R>, facts: Facts, date: int)
    requires Partitioned(m)
    ensures date in Dates(m, Build(m, facts)) <==> exists id :: Keyed(m, facts, id) && facts[id].date == date
  {
    if date in Dates(m, Build(m, facts)) {
      var k :| k in Build(m, facts) && m.dateOf(k) == date;
      var id :| id in facts && m.keyOf(facts[id]) == Some(k);
      assert Keyed(m, facts, id);
    }
    forall id | Keyed(m, facts, id) && facts[id].date == date
      ensures date in Dates(m, Build(m, facts))
    {
      assert m.keyOf(facts[id]).value in Build(m, facts);
    }
  }

  /** The product mart does not: when the only product event of a date loses its product, and nothing else
      about it changes, the next run leaves the old row behind. */
  lemma ProductMartGoesStale(before: Facts, id: string, table: map<ProductKey, ProductRow>)
    requires id in before && before[id].product.Some? && before[id].product.value != ""
    requires forall other :: other in before && other != id ==> before[other].product == None
    requires table == Build(ProductDemand(), before)
    ensures var after := before[id := before[id].(product := None)];
            var date := before[id].date;
            WithinDate(before, Upsert(id, after[id])) &&
            !Agrees(ProductDemand(), Overwrite(ProductDemand(), table, Build(ProductDemand(), On(after, date))), after, date)
  {
    var m := ProductDemand();
    var after := before[id := before[id].(product := None)];
    var date := before[id].date;
    MartsArePartitioned();
    assert Keyed(m, before, id);
    DatesOfBuild(m, before, date);
    NobodyKeyed(before, id, date);
    DateWithoutGroups(m, table, after, date);
  }

  lemma NobodyKeyed(before: Facts, id: string, date: int)
    requires id in before && forall other :: other in before && other != id ==> before[other].product == None
    ensures date !in Dates(ProductDemand(), Build(ProductDemand(), before[id := before[id].(product := None)]))
  {
    var after := before[id := before[id].(product := None)];
    MartsArePartitioned();
    forall other
      ensures !Keyed(ProductDemand(), after, other)
    {
    }
    DatesOfBuild(ProductDemand(), after, date);
  }

  // ----- what an hourly row adds up to -----

  predicate Unknown(e: Event) {
    e.status.None?
  }

  lemma Partition(g: Facts)
    ensures CountIf(g, Success) + CountIf(g, ClientError) + CountIf(g, ServerError) + CountIf(g, Unknown) == |g|
  {
    var success, client := Matching(g, Success), Matching(g, ClientError);
    var server, unknown := Matching(g, ServerError), Matching(g, Unknown);
    NeverBoth(g, Success, ClientError);
    NeverBoth(g, Success, ServerError);
    NeverBoth(g, ClientError, ServerError);
    NeverBoth(g, Success, Unknown);
    NeverBoth(g, ClientError, Unknown);
    NeverBoth(g, ServerError, Unknown);
    DisjointSizes(success, client);
    DisjointSizes(success + client, server);
    DisjointSizes(success + client + server, unknown);
    OneOfFour(g);
  }

  lemma OneOfFour(g: Facts)
    ensures Matching(g, Success) + Matching(g, ClientError) + Matching(g, ServerError) + Matching(g, Unknown) == g.Keys
  {
    forall id | id in g
      ensures id in Matching(g, Success) + Matching(g, ClientError) + Matching(g, ServerError) + Matching(g, Unknown)
    {
      assert Success(g[id]) || ClientError(g[id]) || ServerError(g[id]) || Unknown(g[id]);
    }
  }

  lemma NeverBoth(g: Facts, p: Event -> bool, q: Event -> bool)
    requires forall e: Event :: !(p(e) && q(e))
    ensures Matching(g, p) !! Matching(g, q)
  {
    forall id | id in Matching(g, p)
      ensures id !in Matching(g, q)
    {
      assert p(g[id]);
    }
  }

  lemma DisjointSizes<T>(a: set<T>, b: set<T>)
    requires a !! b
    ensures |a + b| == |a| + |b|
  {
  }

  lemma NoneCounted(g: Facts, p: Event -> bool)
    ensures CountIf(g, p) == 0 <==> forall id :: id in g ==> !p(g[id])
  {
    var counted := Matching(g, p);
    if counted != {} {
      var id :| id in counted;
      assert id in g && p(g[id]);
    }
    forall id | id in g && p(g[id])
      ensures counted != {}
    {
      assert id in counted;
    }
  }

  /** Success, 4xx and 5xx add up to the total exactly when every event of the group has a status. */
  lemma HourlyCountsAddUpIff(facts: Facts, k: HourKey)
    requires k in Build(Hourly(), facts)
    ensures var row := Build(Hourly(), facts)[k];
            row.success + row.clientErrors + row.serverErrors <= row.total &&
            (row.success + row.clientErrors + row.serverErrors == row.total <==>
               forall id :: id in facts && HourKeyOf(facts[id]) == Some(k) ==> facts[id].status.Some?)
  {
    var g := Group(Hourly(), facts, k);
    Partition(g);
    NoneCounted(g, Unknown);
    assert forall id :: id in g <==> id in facts && HourKeyOf(facts[id]) == Some(k);
  }

  // ----- the job -----

  lemma NothingWritten<K, R>(m: Mart<K, R>, table: map<K, R>, rows: map<K, R>)
    ensures |rows| == 0 ==> Overwrite(m, table, rows) == table
  {
    if |rows| == 0 {
      assert rows == map[];
    }
  }

  lemma NoFactsNoRows<K, R>(m: Mart<K, R>, table: map<K, R>)
    ensures Overwrite(m, table, Build(m, map[])) == table
  {
    assert Build(m, map[]) == map[];
  }

  method WriteMart<K, R>(m: Mart<K, R>, table: map<K, R>, target: Facts) returns (after: map<K, R>)
    ensures after == Overwrite(m, table, Build(m, target))
  {
    var rows := Build(m, target);
    NothingWritten(m, table, rows);
    after := table;
    if |rows| > 0 {
      after := Overwrite(m, table, rows);
    }
  }

  class GoldMarts {
    var hourly: map<HourKey, HourRow>
    var products: map<ProductKey, ProductRow>
    var funnel: map<FunnelKey, FunnelRow>

    /** `main`: each mart is written on its own, and not at all when it has no rows. */
    method Rollup(facts: Facts, date: Option<int>)
      modifies this
      ensures hourly == Overwrite(Hourly(), old(hourly), Build(Hourly(), Target(facts, date)))
      ensures products == Overwrite(ProductDemand(), old(products), Build(ProductDemand(), Target(facts, date)))
      ensures funnel == Overwrite(Funnel(), old(funnel), Build(Funnel(), Target(facts, date)))
    {
      var target := if date.Some? then On(facts, date.value) else facts;
      if |facts| == 0 || |target| == 0 {
        assert target == map[];
        NoFactsNoRows(Hourly(), hourly);
        NoFactsNoRows(ProductDemand(), products);
        NoFactsNoRows(Funnel(), funnel);
        return;
      }
      hourly := WriteMart(Hourly(), hourly, target);
      products := WriteMart(ProductDemand(), products, target);
      funnel := WriteMart(Funnel(), funnel, target);
    }
  }
}
