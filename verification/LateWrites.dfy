/** Which writes the ingestion protocol can lose. A row that becomes visible late may still be selected
    by the next window and yet be lost, when a run that has already extracted publishes afterwards. */
module LateWrites {
  import opened Common
  import opened CursorWindow
  import opened Protocol
  import opened ProtocolResults

  function Written(lookback: nat, s: State, name: string, row: Row): State {
    Next(lookback, s, On(name, Write(row)))
  }

  predicate IsCurrent(t: Table, row: Row) {
    row.pk in t.source.rows && t.source.rows[row.pk] == row
  }

  predicate SafeIn(lookback: nat, s: State, name: string, row: Row)
    requires name in s.tables
  {
    Safe(lookback, Published(s.sealed, s.tables[name].bronze), s.tables[name].cursor, row)
  }

  /** In every state that can follow `s` the row, as long as it is current, is safe. */
  ghost predicate NeverLost(lookback: nat, s: State, name: string, row: Row) {
    forall s' :: CanReach(lookback, s, s') && name in s'.tables && IsCurrent(s'.tables[name], row) ==>
      SafeIn(lookback, s', name, row)
  }

  /** A timely write never loses a row of the table, neither the written one nor another. */
  lemma TimelyWriteLosesNothing(lookback: nat, s: State, name: string, row: Row, s': State, other: Row)
    requires Reachable(lookback, s) && name in s.tables && row.ts <= s.now && Advances(s.tables[name].source, row)
    requires Timely(lookback, s.sealed, s.tables[name], row.ts, row.pk)
    requires CanReach(lookback, Written(lookback, s, name, row), s')
    requires name in s'.tables && IsCurrent(s'.tables[name], other)
    ensures SafeIn(lookback, s', name, other)
  {
    ReachableInvariant(lookback, s, name);
    StepKeeps(lookback, s, On(name, Write(row)), name);
    RunKeeps(lookback, Written(lookback, s, name, row), s', name);
    InvariantIsSafe(lookback, s'.now, s'.sealed, s'.tables[name]);
    assert s'.tables[name].source.rows[other.pk] == other;
  }

  // ----- how a late row is lost -----

  /** The row is in no batch. */
  predicate Unread(t: Table, row: Row) {
    (forall run :: run in t.landing ==> row !in t.landing[run].rows) &&
    (forall run :: run in t.bronze ==> row !in t.bronze[run].rows)
  }

  /** A current row that no batch holds, and that the run skips if it publishes this watermark. */
  predicate Doomed(lookback: nat, t: Table, run: string, mark: Watermark, row: Row) {
    IsCurrent(t, row) && Unread(t, row) && Skips(lookback, mark, row.ts, row.pk) && run in t.captured
  }

  lemma SomeKey(keys: set<int>) returns (pk: int)
    requires keys != {}
    ensures pk in keys
  {
    assert (forall k :: k !in keys) ==> keys == {};
    pk :| pk in keys;
  }

  lemma {:induction false} HighWatermarkExists(rows: map<int, Row>) returns (mark: Watermark)
    ensures IsHighWatermark(rows, mark)
  {
    if rows.Keys == {} {
      assert rows == map[];
      mark := Watermark(None, None);
    } else {
      var pk := SomeKey(rows.Keys);
      var rest := rows - {pk};
      var high := HighWatermarkExists(rest);
      assert forall k :: k in rows && k != pk ==> k in rest && rest[k] == rows[k];
      mark := if high.at.Some? && KeyAtMost(rows[pk].ts, pk, high.at.value, high.pk.value) then high
              else Watermark(Some(rows[pk].ts), Some(pk));
      assert high.at.None? ==> forall k :: k in rows ==> k == pk;
    }
  }

  lemma NewRowIsUnread(now: int, published: set<Row>, t: Table, row: Row)
    requires RowsInv(now, published, t) && Advances(t.source, row)
    ensures Unread(t, row)
  {
    assert !Historic(t.source, row);
    forall run | run in t.landing
      ensures row !in t.landing[run].rows
    {
      assert BatchOk(t.source, published, t.landing[run]);
    }
    forall run | run in t.bronze
      ensures row !in t.bronze[run].rows
    {
      assert BatchOk(t.source, published, t.bronze[run]);
    }
  }

  /** The rows at or below the watermark are all that is left of the source. */
  lemma {:induction false} RowsAboveDeleted(lookback: nat, base: State, s: State, name: string, keep: set<int>)
    returns (s': State)
    requires CanReach(lookback, base, s) && name in s.tables
    ensures CanReach(lookback, base, s') && s'.sealed == s.sealed
    ensures s'.tables.Keys == s.tables.Keys && name in s'.tables
    ensures var t := s.tables[name];
            s'.tables[name] == t.(source := t.source.(rows := map pk | pk in t.source.rows && pk in keep :: t.source.rows[pk]))
    decreases |s.tables[name].source.rows.Keys - keep|
  {
    var t := s.tables[name];
    var extra := t.source.rows.Keys - keep;
    if pk :| pk in extra {
      var next := Next(lookback, s, On(name, Delete(pk)));
      Onward(lookback, base, s, On(name, Delete(pk)));
      assert next.tables[name].source.rows.Keys - keep == extra - {pk};
      s' := RowsAboveDeleted(lookback, base, next, name, keep);
      assert (map k | k in t.source.rows && k in keep :: t.source.rows[k]) ==
             (map k | k in next.tables[name].source.rows && k in keep :: next.tables[name].source.rows[k]);
    } else {
      s' := s;
      forall pk | pk in t.source.rows
        ensures pk in keep
      {
        assert pk !in extra;
      }
      assert t.source.rows == map pk | pk in t.source.rows && pk in keep :: t.source.rows[pk];
    }
  }

  predicate KeysUpTo(rows: map<int, Row>, mark: Watermark, pk: int)
    requires mark.at.Some?
  {
    pk in rows && KeyAtMost(rows[pk].ts, pk, mark.at.value, PkOrZero(mark.pk))
  }

  /** A watermark whose row still stands is captured again once the rows above it are gone. */
  lemma Recaptured(lookback: nat, base: State, s: State, name: string, run: string, mark: Watermark, row: Row)
    returns (s': State)
    requires CanReach(lookback, base, s) && name in s.tables && run !in s.sealed
    requires StillCurrent(s.tables[name].source, mark) && Doomed(lookback, s.tables[name], run, mark, row)
    ensures CanReach(lookback, base, s') && s'.sealed == s.sealed && name in s'.tables
    ensures var t, t' := s.tables[name], s'.tables[name];
            Doomed(lookback, t', run, mark, row) && t'.captured[run].mark == mark &&
            t'.landing == t.landing && t'.bronze == t.bronze && t'.markers == t.markers
  {
    var t := s.tables[name];
    var keep := set pk | pk in t.source.rows && KeysUpTo(t.source.rows, mark, pk);
    var cut := RowsAboveDeleted(lookback, base, s, name, keep);
    var rows := cut.tables[name].source.rows;
    assert mark.pk.value in rows && row.pk in rows;
    assert IsHighWatermark(rows, mark);
    Onward(lookback, base, cut, On(name, CaptureMark(run, mark)));
    s' := Next(lookback, cut, On(name, CaptureMark(run, mark)));
  }

  /** What the run has extracted under the watermark is loaded and marked. */
  lemma Completed(lookback: nat, base: State, s: State, name: string, run: string, mark: Watermark, row: Row)
    returns (s': State)
    requires CanReach(lookback, base, s) && name in s.tables && run !in s.sealed
    requires Doomed(lookback, s.tables[name], run, mark, row) && s.tables[name].captured[run].mark == mark
    requires ExtractedUnder(s.tables[name], run, mark)
    ensures CanReach(lookback, base, s') && s'.sealed == s.sealed && name in s'.tables
    ensures Doomed(lookback, s'.tables[name], run, mark, row) && MarkerMatches(s'.tables[name], run)
    ensures s'.tables[name].captured[run].mark == mark
  {
    s' := s;
    if !BronzeUnder(s.tables[name], run, mark) {
      Onward(lookback, base, s, On(name, LoadBronze(run)));
      s' := Next(lookback, s, On(name, LoadBronze(run)));
    }
    if !MarkerMatches(s'.tables[name], run) {
      Onward(lookback, base, s', On(name, Mark(run)));
      s' := Next(lookback, s', On(name, Mark(run)));
    }
  }

  /** Any table can be brought to a matching marker of an unsealed run. */
  lemma TableMatched(lookback: nat, base: State, s: State, name: string, run: string) returns (s': State)
    requires CanReach(lookback, base, s) && name in s.tables && run !in s.sealed
    ensures CanReach(lookback, base, s') && s'.sealed == s.sealed && s'.tables.Keys == s.tables.Keys
    ensures MarkerMatches(s'.tables[name], run)
    ensures forall other :: other in s.tables && other != name ==> s'.tables[other] == s.tables[other]
  {
    var mark := HighWatermarkExists(s.tables[name].source.rows);
    Onward(lookback, base, s, On(name, CaptureMark(run, mark)));
    s' := Next(lookback, s, On(name, CaptureMark(run, mark)));
    Onward(lookback, base, s', On(name, Extract(run)));
    s' := Next(lookback, s', On(name, Extract(run)));
    Onward(lookback, base, s', On(name, LoadBronze(run)));
    s' := Next(lookback, s', On(name, LoadBronze(run)));
    Onward(lookback, base, s', On(name, Mark(run)));
    s' := Next(lookback, s', On(name, Mark(run)));
  }

  lemma {:induction false} TablesMatched(lookback: nat, base: State, s: State, todo: set<string>, run: string) returns (s': State)
    requires CanReach(lookback, base, s) && todo <= s.tables.Keys && run !in s.sealed
    requires forall name :: name in s.tables && name !in todo ==> MarkerMatches(s.tables[name], run)
    ensures CanReach(lookback, base, s') && s'.sealed == s.sealed && MarkersMatch(s', run)
    ensures s'.tables.Keys == s.tables.Keys
    ensures forall name :: name in s.tables && name !in todo ==> s'.tables[name] == s.tables[name]
    decreases |todo|
  {
    if name :| name in todo {
      var next := TableMatched(lookback, base, s, name, run);
      s' := TablesMatched(lookback, base, next, todo - {name}, run);
    } else {
      s' := s;
    }
  }

  /** Publishing the watermark leaves the row behind the cursor and out of Bronze. */
  lemma PublishedPast(lookback: nat, base: State, s: State, name: string, run: string, mark: Watermark, row: Row)
    returns (s': State)
    requires CanReach(lookback, base, s) && name in s.tables && run in s.sealed
    requires Doomed(lookback, s.tables[name], run, mark, row) && s.tables[name].captured[run].mark == mark
    ensures CanReach(lookback, base, s') && name in s'.tables
    ensures IsCurrent(s'.tables[name], row) && !SafeIn(lookback, s', name, row)
  {
    Onward(lookback, base, s, On(name, Publish(run)));
    s' := Next(lookback, s, On(name, Publish(run)));
    assert Unread(s'.tables[name], row);
  }

  lemma UnsealedRunPublishes(lookback: nat, base: State, s: State, name: string, run: string, mark: Watermark, row: Row)
    returns (s': State)
    requires CanReach(lookback, base, s) && name in s.tables && run !in s.sealed
    requires Doomed(lookback, s.tables[name], run, mark, row)
    requires ExtractedUnder(s.tables[name], run, mark) && Publishable(s.sealed, s.tables[name], run, mark)
    ensures CanReach(lookback, base, s') && name in s'.tables
    ensures IsCurrent(s'.tables[name], row) && !SafeIn(lookback, s', name, row)
  {
    s' := s;
    if s.tables[name].captured[run].mark != mark {
      s' := Recaptured(lookback, base, s, name, run, mark, row);
    }
    s' := Completed(lookback, base, s', name, run, mark, row);
    s' := TablesMatched(lookback, base, s', s'.tables.Keys - {name}, run);
    Onward(lookback, base, s', Verify(run));
    s' := Next(lookback, s', Verify(run));
    s' := PublishedPast(lookback, base, s', name, run, mark, row);
  }

  /** A late row that a run can still skip is doomed once it is written, and the run's watermark stays
      publishable: its row cannot be the one overwritten. */
  lemma LateRowIsDoomed(lookback: nat, now: int, sealed: set<string>, t: Table, row: Row, run: string, mark: Watermark)
    requires TableInv(lookback, now, sealed, t) && Advances(t.source, row)
    requires ExtractedUnder(t, run, mark) && Publishable(sealed, t, run, mark) && Skips(lookback, mark, row.ts, row.pk)
    ensures var t' := Apply(lookback, t, Write(row));
            Doomed(lookback, t', run, mark, row) && ExtractedUnder(t', run, mark) && Publishable(sealed, t', run, mark)
  {
    NewRowIsUnread(now, Published(sealed, t.bronze), t, row);
    assert MarkOk(lookback, sealed, Published(sealed, t.bronze), t, run, mark);
    var t' := Apply(lookback, t, Write(row));
    if StillCurrent(t.source, mark) {
      assert row.ts <= mark.at.value;
      assert mark.pk.value != row.pk;
      assert StillCurrent(t'.source, mark);
    }
  }

  lemma LateWriteCanBeLost(lookback: nat, s: State, name: string, row: Row) returns (s': State)
    requires Reachable(lookback, s) && name in s.tables && Advances(s.tables[name].source, row)
    requires !Timely(lookback, s.sealed, s.tables[name], row.ts, row.pk)
    ensures CanReach(lookback, Written(lookback, s, name, row), s')
    ensures name in s'.tables && IsCurrent(s'.tables[name], row) && !SafeIn(lookback, s', name, row)
  {
    ReachableInvariant(lookback, s, name);
    var t := s.tables[name];
    var run, mark :| ExtractedUnder(t, run, mark) && Publishable(s.sealed, t, run, mark) && Skips(lookback, mark, row.ts, row.pk);
    LateRowIsDoomed(lookback, s.now, s.sealed, t, row, run, mark);
    var base := Written(lookback, s, name, row);
    StaysReached(lookback, base);
    if run in s.sealed {
      s' := PublishedPast(lookback, base, base, name, run, mark, row);
    } else {
      s' := UnsealedRunPublishes(lookback, base, base, name, run, mark, row);
    }
  }

  /** The exact condition: a write with an advancing timestamp can never be lost, whatever follows, if and
      only if no run can publish, with what it has already extracted, a watermark that skips it. */
  lemma WriteIsNeverLostIffTimely(lookback: nat, s: State, name: string, row: Row)
    requires Reachable(lookback, s) && name in s.tables && row.ts <= s.now && Advances(s.tables[name].source, row)
    ensures NeverLost(lookback, Written(lookback, s, name, row), name, row) <==>
            Timely(lookback, s.sealed, s.tables[name], row.ts, row.pk)
  {
    var s0 := Written(lookback, s, name, row);
    if Timely(lookback, s.sealed, s.tables[name], row.ts, row.pk) {
      forall s' | CanReach(lookback, s0, s') && name in s'.tables && IsCurrent(s'.tables[name], row)
        ensures SafeIn(lookback, s', name, row)
      {
        TimelyWriteLosesNothing(lookback, s, name, row, s', row);
      }
    } else {
      var s' := LateWriteCanBeLost(lookback, s, name, row);
    }
  }

  // ----- an input that is lost -----

  const MARK := Watermark(Some(1000 * MINUTE), Some(1))

  function OneTable(rows: map<int, Row>, captured: map<string, Capture>, landing: map<string, Batch>): Table {
    Table(Source(rows, map pk | pk in rows :: rows[pk].ts), captured, landing, map[], map[], None)
  }

  /** One order, last changed in minute 1000. */
  function Orders(): map<int, Row> {
    map[1 := Row(1, 1000 * MINUTE, "paid")]
  }

  function Start(): State {
    State(1000 * MINUTE, map["orders" := OneTable(Orders(), map[], map[])], {})
  }

  /** Its run has captured and extracted. */
  function Extracted(): State {
    var c := Capture(MARK, Orders());
    State(1000 * MINUTE, map["orders" := OneTable(Orders(), map["run" := c], map["run" := Batch({Orders()[1]}, c)])], {})
  }

  const LATE := Row(2, 0, "committed late")

  function Late(): State {
    Written(10, Extracted(), "orders", LATE)
  }

  lemma ExtractedIsReachable()
    ensures Reachable(10, Extracted())
  {
    var s0 := Start();
    assert InitialTable(s0.now, s0.tables["orders"]);
    var s1 := Next(10, s0, On("orders", CaptureMark("run", MARK)));
    assert StepEnabled(10, s0, On("orders", CaptureMark("run", MARK)));
    StaysReached(10, s0);
    Onward(10, s0, s0, On("orders", CaptureMark("run", MARK)));
    Onward(10, s0, s1, On("orders", Extract("run")));
    var s2 := Next(10, s1, On("orders", Extract("run")));
    WindowMeaning(None, MARK, 10, 1000 * MINUTE, 1);
    assert WindowRows(10, s1.tables["orders"], MARK) == {Orders()[1]};
    assert s2 == Extracted();
  }

  /** After a late write every row is safe and the next window selects the written one; then the run
      loads, marks, verifies and publishes, and the row is lost. */
  lemma LateRowIsLost()
    ensures Reachable(10, Extracted()) && Advances(Extracted().tables["orders"].source, LATE)
    ensures var t := Late().tables["orders"];
            AllSafe(10, t.source, Published({}, t.bronze), t.cursor) && Selected(t.cursor, 10, LATE.ts, LATE.pk)
    ensures var loaded := Next(10, Late(), On("orders", LoadBronze("run")));
            var marked := Next(10, loaded, On("orders", Mark("run")));
            var verified := Next(10, marked, Verify("run"));
            var published := Next(10, verified, On("orders", Publish("run")));
            StepEnabled(10, Late(), On("orders", LoadBronze("run"))) && StepEnabled(10, loaded, On("orders", Mark("run"))) &&
            StepEnabled(10, marked, Verify("run")) && StepEnabled(10, verified, On("orders", Publish("run"))) &&
            IsCurrent(published.tables["orders"], LATE) && !SafeIn(10, published, "orders", LATE)
  {
    ExtractedIsReachable();
    var s := Late();
    assert s.tables["orders"].cursor.None?;
    var loaded := Next(10, s, On("orders", LoadBronze("run")));
    var marked := Next(10, loaded, On("orders", Mark("run")));
    var verified := Next(10, marked, Verify("run"));
    var published := Next(10, verified, On("orders", Publish("run")));
    assert MarkersMatch(marked, "run");
    assert published.tables["orders"].bronze == map["run" := Batch({Orders()[1]}, Capture(MARK, Orders()))];
    assert published.tables["orders"].cursor == Some(Cursor(1000 * MINUTE, Some(1)));
  }
}
