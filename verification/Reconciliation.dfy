/** The source-to-Silver reconciliation gate. A variance is the rounded percentage in units of 1/10000 of a
    percent, so its rounding to four decimals is exact here. */
module Reconciliation {
  import opened Common

  const DECIMALS := 10_000

  function Abs(x: int): int {
    if x < 0 then -x else x
  }

  /** Python's `round`: to the nearest integer, a tie to the even one. */
  function RoundHalfEven(num: nat, den: nat): int
    requires den > 0
  {
    var q, r := num / den, num % den;
    if 2 * r < den || (2 * r == den && q % 2 == 0) then q else q + 1
  }

  function VariancePercent(source: int, silver: int): int {
    var difference := Abs(source - silver);
    if difference == 0 then 0
    else if source == 0 then 100 * DECIMALS
    else RoundHalfEven(difference * 100 * DECIMALS, Abs(source))
  }

  function WithinTolerance(source: int, silver: int, tolerance: real): bool {
    if source == 0 then silver == 0
    else VariancePercent(source, silver) as real / DECIMALS as real <= tolerance
  }

  // ----- what a pass means, without rounding -----

  /** The tolerance in whole units of the fourth decimal. */
  function Units(tolerance: real): int {
    (tolerance * DECIMALS as real).Floor
  }

  /** `num / den` lies below `k + 1/2`, or exactly there with `k` even. */
  predicate BelowHalfway(num: nat, den: nat, k: int) {
    2 * num < (2 * k + 1) * den || (2 * num == (2 * k + 1) * den && k % 2 == 0)
  }

  lemma Apart(den: nat, k: int)
    ensures k >= 1 ==> k * den >= den
    ensures k <= -1 ==> k * den <= 0 - den
  {
    if k >= 1 {
      assert k * den == (k - 1) * den + den;
    } else if k <= -1 {
      assert k * den == (k + 1) * den - den;
    }
  }

  lemma RoundedAtMost(num: nat, den: nat, k: int)
    requires den > 0
    ensures RoundHalfEven(num, den) <= k <==> BelowHalfway(num, den, k)
  {
    var q, r := num / den, num % den;
    assert num == q * den + r;
    assert (2 * k + 1) * den == 2 * (q * den) + 2 * ((k - q) * den) + den;
    Apart(den, k - q);
  }

  lemma TolerantUnits(v: int, tolerance: real)
    ensures v as real / DECIMALS as real <= tolerance <==> v <= Units(tolerance)
  {
    assert v as real / DECIMALS as real <= tolerance <==> v as real <= tolerance * DECIMALS as real;
  }

  /** A readable Silver value agrees with the source: equal when the source is zero, and otherwise off by at
      most half a unit of the last decimal more than the tolerance. */
  predicate Reconciles(source: int, silver: Result<int, string>, tolerance: real) {
    silver.Ok? &&
    if source == 0 then silver.value == 0
    else BelowHalfway(Abs(source - silver.value) * 100 * DECIMALS, Abs(source), Units(tolerance))
  }

  lemma NoDifference(den: nat, tolerance: real)
    requires den > 0
    ensures BelowHalfway(0, den, Units(tolerance)) <==> 0 <= Units(tolerance)
  {
    RoundedAtMost(0, den, Units(tolerance));
  }

  lemma WithinToleranceIff(source: int, silver: int, tolerance: real)
    ensures WithinTolerance(source, silver, tolerance) <==> Reconciles(source, Ok(silver), tolerance)
  {
    if source != 0 {
      TolerantUnits(VariancePercent(source, silver), tolerance);
      NoDifference(Abs(source), tolerance);
      RoundedAtMost(Abs(source - silver) * 100 * DECIMALS, Abs(source), Units(tolerance));
    }
  }

  /** The bound in exact arithmetic: |s - x| * 10^6 <= (10^4 * tolerance + 1/2) * |s|. */
  lemma PassBoundsTheGap(source: int, silver: int, tolerance: real)
    requires WithinTolerance(source, silver, tolerance)
    ensures (Abs(source - silver) * 100 * DECIMALS) as real <=
              (tolerance * DECIMALS as real + 0.5) * Abs(source) as real
  {
    WithinToleranceIff(source, silver, tolerance);
    var gap := Abs(source - silver) * 100 * DECIMALS;
    if source != 0 {
      assert BelowHalfway(gap, Abs(source), Units(tolerance));
      BelowHalfwayBounds(gap, Abs(source), tolerance);
    }
  }

  lemma BelowHalfwayBounds(num: nat, den: nat, tolerance: real)
    requires BelowHalfway(num, den, Units(tolerance))
    ensures num as real <= (tolerance * DECIMALS as real + 0.5) * den as real
  {
    var k := Units(tolerance);
    ScaleBound(num, den, k);
    Widen(k as real + 0.5, tolerance * DECIMALS as real + 0.5, den as real);
  }

  lemma ScaleBound(num: nat, den: nat, k: int)
    requires BelowHalfway(num, den, k)
    ensures num as real <= (k as real + 0.5) * den as real
  {
    assert ((2 * k + 1) * den) as real == (2.0 * k as real + 1.0) * den as real;
    assert (2.0 * k as real + 1.0) * den as real == 2.0 * ((k as real + 0.5) * den as real);
  }

  lemma Widen(a: real, b: real, c: real)
    requires a <= b && c >= 0.0
    ensures a * c <= b * c
  {
    assert (b - a) * c >= 0.0;
  }

  /** A pass does not mean a variance within the tolerance: 1001 rows missing from 2000000 are 0.05005 percent,
      yet they pass at 0.05. */
  lemma RoundingAdmitsMore()
    ensures WithinTolerance(2_000_000, 1_998_999, 0.05)
    ensures 1001.0 / 2_000_000.0 * 100.0 > 0.05
  {
    assert RoundHalfEven(1_001_000_000, 2_000_000) == 500;
  }

  /** The recorded variance: nothing for equal values, one hundred percent where the source is zero, and otherwise
      the percentage to the nearest ten-thousandth. */
  lemma VarianceIsNearest(source: int, silver: int)
    ensures source == silver ==> VariancePercent(source, silver) == 0
    ensures source == 0 && silver != 0 ==> VariancePercent(source, silver) == 1_000_000
    ensures source != 0 ==>
              2 * Abs(VariancePercent(source, silver) * Abs(source) - Abs(source - silver) * 1_000_000) <= Abs(source)
  {
    if source != silver && source != 0 {
      NearestMultiple(Abs(source - silver) * 1_000_000, Abs(source));
    }
  }

  lemma NearestMultiple(num: nat, den: nat)
    requires den > 0
    ensures 2 * Abs(RoundHalfEven(num, den) * den - num) <= den
  {
    var q, r := num / den, num % den;
    assert num == q * den + r;
    assert (q + 1) * den == q * den + den;
  }

  // ----- the checks -----

  datatype Check = Check(metric: string, table: string, source: int, silver: int,
                         variance: int, passed: bool, failedRows: int)

  datatype TableSpec = TableSpec(name: string, silverTable: string)

  function OrZero(x: Option<int>): int {
    if x.Some? then x.value else 0
  }

  function ReadValue(x: Result<int, string>): int {
    if x.Ok? then x.value else 0
  }

  /** The first specification with that name. */
  function Lookup(tables: seq<TableSpec>, name: string): (r: Option<TableSpec>)
    ensures r.Some? ==> r.value.name == name && r.value in tables
    ensures r.None? ==> forall i :: 0 <= i < |tables| ==> tables[i].name != name
  {
    if tables == [] then None
    else if tables[0].name == name then Some(tables[0])
    else Lookup(tables[1..], name)
  }

  /** A recorded check tells the truth about the two values it compares. */
  predicate Truthful(check: Check, source: int, silver: Result<int, string>, tolerance: real) {
    check.source == source && check.silver == ReadValue(silver) &&
    (check.passed <==> Reconciles(source, silver, tolerance)) &&
    check.variance == VariancePercent(source, check.silver)
  }

  function Compare(metric: string, table: string, source: int, silver: Result<int, string>, tolerance: real,
                   failedRows: int): (check: Check)
    ensures Truthful(check, source, silver, tolerance)
    ensures check.metric == metric && check.table == table
    ensures check.failedRows == if check.passed then 0 else failedRows
  {
    var value := ReadValue(silver);
    WithinToleranceIff(source, value, tolerance);
    var passed := silver.Ok? && WithinTolerance(source, value, tolerance);
    Check(metric, table, source, value, VariancePercent(source, value), passed, if passed then 0 else failedRows)
  }

  function Targets(tables: seq<TableSpec>, requested: seq<string>): seq<string> {
    if requested != [] then requested else seq(|tables|, i requires 0 <= i < |tables| => tables[i].name)
  }

  predicate Configured(tables: seq<TableSpec>, name: string) {
    Lookup(tables, name).Some?
  }

  /** Names without a specification are skipped. */
  function Kept(tables: seq<TableSpec>, names: seq<string>): seq<string> {
    if names == [] then []
    else
      var n := |names| - 1;
      Kept(tables, names[..n]) + if Configured(tables, names[n]) then [names[n]] else []
  }

  /** A name is checked exactly if it is asked for and some specification carries it. */
  lemma {:induction false} KeptAre(tables: seq<TableSpec>, names: seq<string>, name: string)
    ensures name in Kept(tables, names) <==> name in names && exists i :: 0 <= i < |tables| && tables[i].name == name
  {
    if names != [] {
      var n := |names| - 1;
      KeptAre(tables, names[..n], name);
      assert names == names[..n] + [names[n]];
      if i :| 0 <= i < |tables| && tables[i].name == names[n] {
        LookupFinds(tables, i);
      }
    }
  }

  /** The check of one table compares the source's count with that of its own Silver table. */
  predicate CountTruthful(check: Check, tables: seq<TableSpec>, name: string, source: string -> Option<int>,
                          silver: string -> Result<int, string>, tolerance: real) {
    var spec := Lookup(tables, name);
    spec.Some? && check.metric == "row_count" && check.table == name &&
    Truthful(check, OrZero(source(name)), silver(spec.value.silverTable), tolerance) &&
    check.failedRows == if check.passed then 0 else Abs(check.source - check.silver)
  }

  method CheckTableCounts(tables: seq<TableSpec>, requested: seq<string>, source: string -> Option<int>,
                          silver: string -> Result<int, string>, tolerance: real) returns (results: seq<Check>)
    ensures var names := Kept(tables, Targets(tables, requested));
            |results| == |names| &&
            forall i :: 0 <= i < |names| ==> CountTruthful(results[i], tables, names[i], source, silver, tolerance)
  {
    results := [];
    var targets := Targets(tables, requested);
    for i := 0 to |targets|
      invariant |results| == |Kept(tables, targets[..i])|
      invariant forall k :: 0 <= k < |results| ==>
                  CountTruthful(results[k], tables, Kept(tables, targets[..i])[k], source, silver, tolerance)
    {
      assert targets[..i + 1][..i] == targets[..i];
      var spec := Lookup(tables, targets[i]);
      if spec.None? {
        continue;
      }
      var count := OrZero(source(targets[i]));
      var read := silver(spec.value.silverTable);
      var check := Compare("row_count", targets[i], count, read, tolerance, Abs(count - ReadValue(read)));
      results := results + [check];
    }
    assert targets[..|targets|] == targets;
  }

  /** What the metric queries read of an order, payment or refund; a null status is never selected. */
  datatype Entry = Entry(status: Option<string>, amount: int)

  /** A metric sums the amounts of the rows with, or without, this status. */
  datatype Metric = Metric(name: string, table: string, status: string, wanted: bool)

  const METRICS := [Metric("gross_revenue_vnd", "orders", "cancelled", false),
                    Metric("successful_payments_vnd", "payments", "succeeded", true),
                    Metric("successful_refunds_vnd", "refunds", "succeeded", true)]

  predicate Counts(metric: Metric, e: Entry) {
    e.status.Some? && (e.status.value == metric.status <==> metric.wanted)
  }

  function MetricSum(metric: Metric, rows: seq<Entry>): int {
    if rows == [] then 0
    else
      var last := rows[|rows| - 1];
      MetricSum(metric, rows[..|rows| - 1]) + if Counts(metric, last) then last.amount else 0
  }

  function SilverSum(metric: Metric, rows: Result<seq<Entry>, string>): Result<int, string> {
    if rows.Ok? then Ok(MetricSum(metric, rows.value)) else Err(rows.error)
  }

  lemma {:induction false} MetricSumAppend(metric: Metric, a: seq<Entry>, b: seq<Entry>)
    ensures MetricSum(metric, a + b) == MetricSum(metric, a) + MetricSum(metric, b)
  {
    if b == [] {
      assert a + b == a;
    } else {
      MetricSumAppend(metric, a, b[..|b| - 1]);
      assert (a + b)[..|a + b| - 1] == a + b[..|b| - 1];
    }
  }

  lemma WithoutRow(metric: Metric, rows: seq<Entry>, i: nat)
    requires i < |rows|
    ensures var rest := rows[..i] + rows[i + 1..];
            multiset(rows) == multiset(rest) + multiset{rows[i]} &&
            MetricSum(metric, rows) == MetricSum(metric, rest) + MetricSum(metric, [rows[i]])
  {
    assert rows == rows[..i] + [rows[i]] + rows[i + 1..];
    MetricSumAppend(metric, rows[..i] + [rows[i]], rows[i + 1..]);
    MetricSumAppend(metric, rows[..i], [rows[i]]);
    MetricSumAppend(metric, rows[..i], rows[i + 1..]);
  }

  /** The order in which a side stores its rows does not matter. */
  lemma {:induction false} SameRowsSameSum(metric: Metric, a: seq<Entry>, b: seq<Entry>)
    requires multiset(a) == multiset(b)
    ensures MetricSum(metric, a) == MetricSum(metric, b)
  {
    if a == [] {
      assert |multiset(b)| == 0;
    } else {
      var n := |a| - 1;
      assert a[n] in multiset(b);
      var i :| 0 <= i < |b| && b[i] == a[n];
      WithoutRow(metric, a, n);
      WithoutRow(metric, b, i);
      var rest := b[..i] + b[i + 1..];
      assert a[..n] + a[n + 1..] == a[..n];
      assert multiset(a[..n]) == multiset(a) - multiset{a[n]};
      assert multiset(rest) == multiset(b) - multiset{a[n]};
      SameRowsSameSum(metric, a[..n], rest);
    }
  }

  /** The three metrics: revenue of orders known not to be cancelled, successful payments, successful refunds. One
      row contributes its amount or nothing, and values add up. */
  lemma MetricsSumAmounts(k: nat, e: Entry, a: seq<Entry>, b: seq<Entry>)
    requires k < 3
    ensures |METRICS| == 3 && MetricSum(METRICS[k], []) == 0
    ensures METRICS[k].name == ["gross_revenue_vnd", "successful_payments_vnd", "successful_refunds_vnd"][k]
    ensures METRICS[k].table == ["orders", "payments", "refunds"][k]
    ensures MetricSum(METRICS[k], [e]) ==
              if e.status.Some? && (if k == 0 then e.status.value != "cancelled" else e.status.value == "succeeded")
              then e.amount else 0
    ensures MetricSum(METRICS[k], a + b) == MetricSum(METRICS[k], a) + MetricSum(METRICS[k], b)
  {
    MetricSumAppend(METRICS[k], a, b);
    assert [e][..0] == [];
  }

  /** A selected row whose amount differs by d moves the recorded value by d. */
  lemma AmountMovesTheSum(k: nat, rows: seq<Entry>, i: nat, amount: int)
    requires k < 3 && i < |rows| && rows[i].status.Some?
    requires if k == 0 then rows[i].status.value != "cancelled" else rows[i].status.value == "succeeded"
    ensures MetricSum(METRICS[k], rows[i := rows[i].(amount := amount)]) == MetricSum(METRICS[k], rows) + amount - rows[i].amount
  {
    var changed := rows[i := rows[i].(amount := amount)];
    WithoutRow(METRICS[k], rows, i);
    WithoutRow(METRICS[k], changed, i);
    MetricsSumAmounts(k, rows[i], [], []);
    MetricsSumAmounts(k, changed[i], [], []);
    assert changed[..i] + changed[i + 1..] == rows[..i] + rows[i + 1..];
  }

  predicate MetricTruthful(check: Check, metric: Metric, source: string -> seq<Entry>,
                           silver: string -> Result<seq<Entry>, string>, tolerance: real) {
    check.metric == metric.name && check.table == metric.table &&
    Truthful(check, MetricSum(metric, source(metric.table)), SilverSum(metric, silver(metric.table)), tolerance) &&
    check.failedRows == if check.passed then 0 else 1
  }

  /** Each side sums the amounts that the metric's query selects from its own table. */
  method CheckFinancialMetrics(source: string -> seq<Entry>, silver: string -> Result<seq<Entry>, string>, tolerance: real)
    returns (results: seq<Check>)
    ensures |results| == |METRICS|
    ensures forall i :: 0 <= i < |METRICS| ==> MetricTruthful(results[i], METRICS[i], source, silver, tolerance)
    ensures |results| == 3
    ensures forall i :: 0 <= i < 3 ==>
              var rows := silver(results[i].table);
              results[i].source == MetricSum(METRICS[i], source(results[i].table)) &&
              results[i].silver == (if rows.Ok? then MetricSum(METRICS[i], rows.value) else 0) &&
              (rows.Err? ==> !results[i].passed)
  {
    results := [];
    for i := 0 to |METRICS|
      invariant |results| == i
      invariant forall k :: 0 <= k < i ==> MetricTruthful(results[k], METRICS[k], source, silver, tolerance)
    {
      var metric := METRICS[i];
      var check := Compare(metric.name, metric.table, MetricSum(metric, source(metric.table)),
                           SilverSum(metric, silver(metric.table)), tolerance, 1);
      results := results + [check];
    }
  }

  // ----- the gate -----

  datatype Summary = Summary(total: nat, passed: nat, failed: nat)

  datatype GateError = MissingRun | Violations(failed: nat)

  function Failing(results: seq<Check>): (n: nat)
    ensures n <= |results|
    ensures n == 0 <==> forall i :: 0 <= i < |results| ==> results[i].passed
  {
    if results == [] then 0
    else
      var last := |results| - 1;
      assert forall i :: 0 <= i < last ==> results[..last][i] == results[i];
      Failing(results[..last]) + if results[last].passed then 0 else 1
  }

  /** Every configured table and every metric agrees between the two sides. */
  ghost predicate AllReconcile(tables: seq<TableSpec>, counts: string -> Option<int>,
                               silverCounts: string -> Result<int, string>, sums: string -> seq<Entry>,
                               silverSums: string -> Result<seq<Entry>, string>, tolerance: real) {
    (forall i :: 0 <= i < |tables| ==> TableReconciles(tables, tables[i].name, counts, silverCounts, tolerance)) &&
    (forall i :: 0 <= i < |METRICS| ==>
       Reconciles(MetricSum(METRICS[i], sums(METRICS[i].table)), SilverSum(METRICS[i], silverSums(METRICS[i].table)), tolerance))
  }

  lemma EqualReconciles(value: int, tolerance: real)
    requires tolerance >= 0.0
    ensures Reconciles(value, Ok(value), tolerance)
  {
    WithinToleranceIff(value, value, tolerance);
  }

  /** The gate never stops a Silver that holds the source's rows, in whatever order. */
  lemma EqualTablesReconcile(tables: seq<TableSpec>, counts: string -> Option<int>,
                             silverCounts: string -> Result<int, string>, sums: string -> seq<Entry>,
                             silverSums: string -> Result<seq<Entry>, string>, tolerance: real)
    requires tolerance >= 0.0
    requires forall i :: 0 <= i < |tables| ==>
               var spec := Lookup(tables, tables[i].name);
               spec.Some? && silverCounts(spec.value.silverTable) == Ok(OrZero(counts(tables[i].name)))
    requires forall i :: 0 <= i < |METRICS| ==>
               var read := silverSums(METRICS[i].table);
               read.Ok? && multiset(read.value) == multiset(sums(METRICS[i].table))
    ensures AllReconcile(tables, counts, silverCounts, sums, silverSums, tolerance)
  {
    forall i | 0 <= i < |tables|
      ensures TableReconciles(tables, tables[i].name, counts, silverCounts, tolerance)
    {
      EqualReconciles(OrZero(counts(tables[i].name)), tolerance);
    }
    forall i | 0 <= i < |METRICS|
      ensures Reconciles(MetricSum(METRICS[i], sums(METRICS[i].table)), SilverSum(METRICS[i], silverSums(METRICS[i].table)), tolerance)
    {
      SameRowsSameSum(METRICS[i], silverSums(METRICS[i].table).value, sums(METRICS[i].table));
      EqualReconciles(MetricSum(METRICS[i], sums(METRICS[i].table)), tolerance);
    }
  }

  predicate TableReconciles(tables: seq<TableSpec>, name: string, counts: string -> Option<int>,
                            silverCounts: string -> Result<int, string>, tolerance: real) {
    var spec := Lookup(tables, name);
    spec.Some? && Reconciles(OrZero(counts(name)), silverCounts(spec.value.silverTable), tolerance)
  }

  lemma {:induction false} ConfiguredAreKept(tables: seq<TableSpec>, names: seq<string>)
    requires forall i :: 0 <= i < |names| ==> Configured(tables, names[i])
    ensures Kept(tables, names) == names
  {
    if names != [] {
      var n := |names| - 1;
      ConfiguredAreKept(tables, names[..n]);
      assert names == names[..n] + [names[n]];
    }
  }

  lemma {:induction false} LookupFinds(tables: seq<TableSpec>, i: nat)
    requires i < |tables|
    ensures Configured(tables, tables[i].name)
  {
    if tables[0].name != tables[i].name {
      LookupFinds(tables[1..], i - 1);
    }
  }

  /** `run_reconciliation_gate`: it passes exactly when everything reconciles; results are persisted, when that
      is asked for, whether or not it does. */
  method RunReconciliationGate(tables: seq<TableSpec>, counts: string -> Option<int>,
                               silverCounts: string -> Result<int, string>, sums: string -> seq<Entry>,
                               silverSums: string -> Result<seq<Entry>, string>, tolerance: real,
                               runId: string, batchDate: string, persist: bool)
    returns (summary: Result<Summary, GateError>, persisted: seq<Check>)
    ensures summary == Err(MissingRun) <==> persist && (runId == "" || batchDate == "")
    ensures summary.Ok? <==>
              !(persist && (runId == "" || batchDate == "")) &&
              AllReconcile(tables, counts, silverCounts, sums, silverSums, tolerance)
    ensures summary.Ok? ==> summary.value == Summary(|tables| + 3, |tables| + 3, 0)
    ensures summary.Err? && summary.error.Violations? ==> 0 < summary.error.failed <= |tables| + 3
    ensures |persisted| == if persist && runId != "" && batchDate != "" then |tables| + 3 else 0
    ensures persisted != [] && summary.Err? ==> summary.error == Violations(Failing(persisted))
  {
    var checked := CheckTableCounts(tables, [], counts, silverCounts, tolerance);
    var names := Targets(tables, []);
    forall i | 0 <= i < |names|
      ensures Configured(tables, names[i])
    {
      LookupFinds(tables, i);
    }
    ConfiguredAreKept(tables, names);
    var financial := CheckFinancialMetrics(sums, silverSums, tolerance);
    var results := checked + financial;
    persisted := [];
    if persist {
      if runId == "" || batchDate == "" {
        return Err(MissingRun), [];
      }
      persisted := results;
    }
    PassedMeansReconciled(tables, names, checked, financial, counts, silverCounts, sums, silverSums, tolerance);
    var failed := Failing(results);
    summary := if failed > 0 then Err(Violations(failed)) else Ok(Summary(|results|, |results| - failed, failed));
  }

  lemma PassedMeansReconciled(tables: seq<TableSpec>, names: seq<string>, checked: seq<Check>, financial: seq<Check>,
                              counts: string -> Option<int>, silverCounts: string -> Result<int, string>,
                              sums: string -> seq<Entry>, silverSums: string -> Result<seq<Entry>, string>, tolerance: real)
    requires |checked| == |names| == |tables| && |financial| == |METRICS|
    requires forall i :: 0 <= i < |names| ==> names[i] == tables[i].name
    requires forall i :: 0 <= i < |names| ==>
               CountTruthful(checked[i], tables, names[i], counts, silverCounts, tolerance)
    requires forall i :: 0 <= i < |METRICS| ==> MetricTruthful(financial[i], METRICS[i], sums, silverSums, tolerance)
    ensures Failing(checked + financial) == 0 <==>
              AllReconcile(tables, counts, silverCounts, sums, silverSums, tolerance)
  {
    var results := checked + financial;
    assert forall i :: 0 <= i < |tables| ==> results[i] == checked[i];
    assert forall i :: 0 <= i < |METRICS| ==> results[|tables| + i] == financial[i];
    assert forall i :: 0 <= i < |tables| ==>
      (results[i].passed <==> TableReconciles(tables, tables[i].name, counts, silverCounts, tolerance));
    assert forall i :: |tables| <= i < |results| ==> results[i] == financial[i - |tables|];
  }
}
