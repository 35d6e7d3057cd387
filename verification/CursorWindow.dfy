/** The extraction window of one table: cursor bounds composed by `build_range_predicate`
    from the SQL fragments `cursor_lower`, `cursor_lookback` and `cursor_upper`.
    Timestamps are integer microseconds; rows are ordered by (timestamp, primary key). */
module CursorWindow {
  import opened Common

  /** `CursorState`: the published position of one table. */
  datatype Cursor = Cursor(at: int, pk: Option<int>)

  /** The captured `{"at", "pk"}` pair; `at` is null for an empty source table. */
  datatype Watermark = Watermark(at: Option<int>, pk: Option<int>)

  /** One fragment of the WHERE clause. */
  datatype Clause =
    | NotBefore(lower: int)
    | Beyond(lower: int, lowerPk: int)
    | UpTo(upper: int, upperPk: int)

  /** `pk or 0` of the source. */
  function PkOrZero(pk: Option<int>): int {
    if pk.Some? then pk.value else 0
  }

  function BuildRangePredicate(committed: Option<Cursor>, high: Watermark, lookbackMinutes: int)
    : (clauses: Result<seq<Clause>, string>)
    ensures clauses.Err? <==> lookbackMinutes < 0
  {
    if lookbackMinutes < 0 then Err("lookback_minutes must not be negative")
    else
      var lower :=
        if committed.None? then []
        else if lookbackMinutes != 0 then [NotBefore(committed.value.at - lookbackMinutes * MINUTE)]
        else [Beyond(committed.value.at, PkOrZero(committed.value.pk))];
      var upper := if high.at.None? then [] else [UpTo(high.at.value, PkOrZero(high.pk))];
      Ok(lower + upper)
  }

  predicate Holds(clause: Clause, ts: int, pk: int) {
    match clause
    case NotBefore(lower) => ts >= lower
    case Beyond(lower, lowerPk) => ts > lower || (ts == lower && pk > lowerPk)
    case UpTo(upper, upperPk) => ts < upper || (ts == upper && pk <= upperPk)
  }

  /** The rows MySQL returns for the composed WHERE clause. */
  predicate InWindow(committed: Option<Cursor>, high: Watermark, lookbackMinutes: nat, ts: int, pk: int) {
    var clauses := BuildRangePredicate(committed, high, lookbackMinutes).value;
    forall i :: 0 <= i < |clauses| ==> Holds(clauses[i], ts, pk)
  }

  predicate KeyAtMost(ts: int, pk: int, ts': int, pk': int) {
    ts < ts' || (ts == ts' && pk <= pk')
  }

  /** Rows that the lower bound of a window with this committed cursor lets through. */
  predicate Selected(committed: Option<Cursor>, lookbackMinutes: nat, ts: int, pk: int) {
    committed.None? ||
    (if lookbackMinutes > 0 then ts >= committed.value.at - lookbackMinutes * MINUTE
     else !KeyAtMost(ts, pk, committed.value.at, PkOrZero(committed.value.pk)))
  }

  predicate AtOrBelow(high: Watermark, ts: int, pk: int) {
    high.at.None? || KeyAtMost(ts, pk, high.at.value, PkOrZero(high.pk))
  }

  /** The clause list means exactly: selected by the lower bound and not above the watermark. */
  lemma WindowMeaning(committed: Option<Cursor>, high: Watermark, lookbackMinutes: nat, ts: int, pk: int)
    ensures InWindow(committed, high, lookbackMinutes, ts, pk) <==>
            Selected(committed, lookbackMinutes, ts, pk) && AtOrBelow(high, ts, pk)
  {
    var clauses := BuildRangePredicate(committed, high, lookbackMinutes).value;
    var n := if committed.None? then 0 else 1;
    if high.at.Some? {
      assert clauses[n] == UpTo(high.at.value, PkOrZero(high.pk));
    }
    if committed.Some? {
      assert clauses[0] == if lookbackMinutes != 0 then NotBefore(committed.value.at - lookbackMinutes * MINUTE)
                           else Beyond(committed.value.at, PkOrZero(committed.value.pk));
    }
  }

  // ----- successive committed windows -----

  /** Watermarks published by successive runs: non-null and never moving backwards. */
  predicate Ascending(marks: seq<Cursor>) {
    forall i, j :: 0 <= i < j < |marks| ==>
      KeyAtMost(marks[i].at, PkOrZero(marks[i].pk), marks[j].at, PkOrZero(marks[j].pk))
  }

  function CommittedBefore(marks: seq<Cursor>, i: nat): Option<Cursor>
    requires i < |marks|
  {
    if i == 0 then None else Some(marks[i - 1])
  }

  predicate InRun(marks: seq<Cursor>, i: nat, lookbackMinutes: nat, ts: int, pk: int)
    requires i < |marks|
  {
    InWindow(CommittedBefore(marks, i), Watermark(Some(marks[i].at), marks[i].pk), lookbackMinutes, ts, pk)
  }

  function RunsExtracting(marks: seq<Cursor>, lookbackMinutes: nat, ts: int, pk: int): set<nat> {
    set i: nat | i < |marks| && InRun(marks, i, lookbackMinutes, ts, pk)
  }

  /** The first run whose watermark reaches the key, or the number of runs when none does. */
  function FirstReaching(marks: seq<Cursor>, ts: int, pk: int): (i: nat)
    ensures i <= |marks|
    ensures i < |marks| ==> KeyAtMost(ts, pk, marks[i].at, PkOrZero(marks[i].pk))
    ensures forall j :: 0 <= j < i ==> !KeyAtMost(ts, pk, marks[j].at, PkOrZero(marks[j].pk))
  {
    if marks == [] then 0
    else
      var n := |marks| - 1;
      var i := FirstReaching(marks[..n], ts, pk);
      if i < n then i
      else if KeyAtMost(ts, pk, marks[n].at, PkOrZero(marks[n].pk)) then n
      else n + 1
  }

  /** Without lookback the windows tile: a key at or below the last watermark is extracted by
      exactly one run, a key above it by none. */
  lemma LookbackZeroTiles(marks: seq<Cursor>, ts: int, pk: int)
    requires Ascending(marks)
    ensures |RunsExtracting(marks, 0, ts, pk)| ==
            if marks != [] && KeyAtMost(ts, pk, marks[|marks| - 1].at, PkOrZero(marks[|marks| - 1].pk)) then 1 else 0
  {
    var first := FirstReaching(marks, ts, pk);
    forall i: nat | i < |marks|
      ensures InRun(marks, i, 0, ts, pk) <==> i == first
    {
      WindowMeaning(CommittedBefore(marks, i), Watermark(Some(marks[i].at), marks[i].pk), 0, ts, pk);
    }
    var runs := RunsExtracting(marks, 0, ts, pk);
    if first < |marks| {
      assert runs == {first};
    } else {
      assert runs == {};
    }
  }

  /** With lookback every key at or below the last watermark is extracted by the first run that
      reaches it, and a later run repeats it exactly when it lies inside that run's lookback. */
  lemma LookbackRepeatsOnlyRecentRows(marks: seq<Cursor>, lookbackMinutes: nat, ts: int, pk: int, i: nat)
    requires Ascending(marks) && lookbackMinutes > 0 && i < |marks|
    ensures var first := FirstReaching(marks, ts, pk);
            InRun(marks, i, lookbackMinutes, ts, pk) <==>
            i == first || (i > first && ts >= marks[i - 1].at - lookbackMinutes * MINUTE)
  {
    var first := FirstReaching(marks, ts, pk);
    WindowMeaning(CommittedBefore(marks, i), Watermark(Some(marks[i].at), marks[i].pk), lookbackMinutes, ts, pk);
  }
}
