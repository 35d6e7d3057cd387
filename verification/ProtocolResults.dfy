/** What the ingestion protocol guarantees in every reachable state, and where it stops. */
module ProtocolResults {
  import opened Common
  import opened CursorWindow
  import opened Protocol

  ghost predicate Reachable(lookback: nat, s: State) {
    exists start :: Initial(start) && CanReach(lookback, start, s)
  }

  lemma StepReaches(lookback: nat, s: State, step: Step)
    requires Reachable(lookback, s) && StepEnabled(lookback, s, step)
    ensures Reachable(lookback, Next(lookback, s, step))
  {
    var start :| Initial(start) && CanReach(lookback, start, s);
    Onward(lookback, start, s, step);
  }

  lemma FollowHasTables(lookback: nat, s: State, s': State)
    requires Follows(lookback, s, s')
    ensures s'.tables.Keys == s.tables.Keys
  {
  }

  lemma {:induction false} TablesStay(lookback: nat, path: seq<State>)
    requires Path(lookback, path)
    ensures path[|path| - 1].tables.Keys == path[0].tables.Keys
  {
    if |path| > 1 {
      var n := |path| - 1;
      PathStart(lookback, path);
      TablesStay(lookback, path[..n]);
      FollowHasTables(lookback, path[n - 1], path[n]);
    }
  }

  /** Every table of every reachable state satisfies the protocol's invariant. */
  lemma ReachableInvariant(lookback: nat, s: State, name: string)
    requires Reachable(lookback, s) && name in s.tables
    ensures TableInv(lookback, s.now, s.sealed, s.tables[name])
  {
    var start :| Initial(start) && CanReach(lookback, start, s);
    var path :| Joins(lookback, path, start, s);
    TablesStay(lookback, path);
    InitialIsInvariant(lookback, start, name);
    RunKeeps(lookback, start, s, name);
  }

  // ----- no lost rows -----

  /** A reader finds the row in the Bronze of a published run, or the lower bound of the next window
      lets it through. */
  predicate Safe(lookback: nat, published: set<Row>, cursor: Option<Cursor>, row: Row) {
    row in published || Selected(cursor, lookback, row.ts, row.pk)
  }

  predicate AllSafe(lookback: nat, source: Source, published: set<Row>, cursor: Option<Cursor>) {
    forall pk :: pk in source.rows ==> Safe(lookback, published, cursor, source.rows[pk])
  }

  lemma InvariantIsSafe(lookback: nat, now: int, sealed: set<string>, t: Table)
    requires TableInv(lookback, now, sealed, t)
    ensures AllSafe(lookback, t.source, Published(sealed, t.bronze), t.cursor)
  {
  }

  /** No lost rows: in every reachable state each current source row is in the Bronze of a published
      run or inside the range predicate of a run that captures its watermark now. */
  lemma NoLostRows(lookback: nat, s: State, name: string, pk: int, mark: Watermark)
    requires Reachable(lookback, s) && name in s.tables
    requires pk in s.tables[name].source.rows && IsHighWatermark(s.tables[name].source.rows, mark)
    ensures var t := s.tables[name];
            var row := t.source.rows[pk];
            row in Published(s.sealed, t.bronze) || InWindow(t.cursor, mark, lookback, row.ts, row.pk)
  {
    ReachableInvariant(lookback, s, name);
    var t := s.tables[name];
    InvariantIsSafe(lookback, s.now, s.sealed, t);
    WindowMeaning(t.cursor, mark, lookback, t.source.rows[pk].ts, pk);
    assert Safe(lookback, Published(s.sealed, t.bronze), t.cursor, t.source.rows[pk]);
  }

  lemma SkipsLess(lookback: nat, m: Watermark, m': Watermark, ts: int, pk: int)
    requires MarkAtMost(m, m') && Skips(lookback, m, ts, pk)
    ensures Skips(lookback, m', ts, pk)
  {
  }

  /** A row that the windows after the captured watermarks select is timely: without lookback any row
      later than the watermarks, with lookback any row not older than that before them. */
  lemma SelectedWritesAreTimely(lookback: nat, s: State, name: string, ts: int, pk: int)
    requires Reachable(lookback, s) && name in s.tables
    requires forall run :: run in s.tables[name].captured ==> !Skips(lookback, s.tables[name].captured[run].mark, ts, pk)
    ensures Timely(lookback, s.sealed, s.tables[name], ts, pk)
  {
    ReachableInvariant(lookback, s, name);
    var t := s.tables[name];
    forall run, mark | ExtractedUnder(t, run, mark) && Publishable(s.sealed, t, run, mark)
      ensures !Skips(lookback, mark, ts, pk)
    {
      assert MarkOk(lookback, s.sealed, Published(s.sealed, t.bronze), t, run, mark);
      if Skips(lookback, mark, ts, pk) {
        SkipsLess(lookback, mark, t.captured[run].mark, ts, pk);
        assert false;
      }
    }
  }

  /** A write is a step whenever its timestamp is later than any its key had, not ahead of the clock, and later than
      every captured watermark in (timestamp, key) order, or with lookback not older than that before one. */
  lemma LaterWritesAreSteps(lookback: nat, s: State, name: string, row: Row)
    requires Reachable(lookback, s) && name in s.tables && row.ts <= s.now
    requires row.pk in s.tables[name].source.latest ==> s.tables[name].source.latest[row.pk] < row.ts
    requires forall run :: run in s.tables[name].captured && s.tables[name].captured[run].mark.at.Some? ==>
               var mark := s.tables[name].captured[run].mark;
               if lookback > 0 then row.ts >= mark.at.value - lookback * 60_000_000
               else
                 row.ts > mark.at.value ||
                 (row.ts == mark.at.value && row.pk > if mark.pk.Some? then mark.pk.value else 0)
    ensures StepEnabled(lookback, s, On(name, Write(row)))
  {
    SelectedWritesAreTimely(lookback, s, name, row.ts, row.pk);
  }

  lemma CapturedIsPast(now: int, source: Source, c: Capture)
    requires SourceOk(now, source) && CaptureOk(source, c)
    ensures c.mark.at.Some? ==> c.mark.at.value <= now
  {
    if c.mark.at.Some? {
      var pk: int := c.mark.pk.value;
      assert pk in c.seen;
      assert Historic(source, c.seen[pk]);
    }
  }

  /** A write that becomes visible within the lookback of its own timestamp is timely. */
  lemma PromptWritesAreTimely(lookback: nat, s: State, name: string, ts: int, pk: int)
    requires Reachable(lookback, s) && name in s.tables
    requires lookback > 0 && ts >= s.now - lookback * MINUTE
    ensures Timely(lookback, s.sealed, s.tables[name], ts, pk)
  {
    ReachableInvariant(lookback, s, name);
    var t := s.tables[name];
    forall run | run in t.captured
      ensures !Skips(lookback, t.captured[run].mark, ts, pk)
    {
      CapturedIsPast(s.now, t.source, t.captured[run]);
    }
    SelectedWritesAreTimely(lookback, s, name, ts, pk);
  }

  // ----- extraction -----

  /** In every reachable state no row of a landing batch is past the batch's watermark. */
  lemma LandedRowsAreNotPastTheWatermark(lookback: nat, s: State, name: string, run: string, row: Row)
    requires Reachable(lookback, s) && name in s.tables && run in s.tables[name].landing
    requires row in s.tables[name].landing[run].rows
    ensures var mark := s.tables[name].landing[run].capture.mark;
            mark.at.Some? ==>
              mark.pk.Some? && (row.ts < mark.at.value || (row.ts == mark.at.value && row.pk <= mark.pk.value))
  {
    ReachableInvariant(lookback, s, name);
    assert NotPast(s.tables[name].landing[run]);
  }

  // ----- publication -----

  lemma FollowKeepsCursor(lookback: nat, s: State, s': State, name: string)
    requires Follows(lookback, s, s') && name in s.tables && s.tables[name].cursor.Some?
    ensures name in s'.tables && s'.tables[name].cursor.Some?
  {
    var step :| StepEnabled(lookback, s, step) && s' == Next(lookback, s, step);
    if step.On? && step.table == name {
      assert s'.tables[name] == Apply(lookback, s.tables[name], step.change);
    }
  }

  lemma {:induction false} PathKeepsCursor(lookback: nat, path: seq<State>, name: string)
    requires Path(lookback, path) && name in path[0].tables && path[0].tables[name].cursor.Some?
    ensures var s' := path[|path| - 1]; name in s'.tables && s'.tables[name].cursor.Some?
  {
    if |path| > 1 {
      var n := |path| - 1;
      PathStart(lookback, path);
      PathKeepsCursor(lookback, path[..n], name);
      FollowKeepsCursor(lookback, path[n - 1], path[n], name);
    }
  }

  /** A cursor that is there never disappears, whatever follows. */
  lemma CursorsNeverDisappear(lookback: nat, s: State, s': State, name: string)
    requires CanReach(lookback, s, s') && name in s.tables && s.tables[name].cursor.Some?
    ensures name in s'.tables && s'.tables[name].cursor.Some?
  {
    var path :| Joins(lookback, path, s, s');
    PathKeepsCursor(lookback, path, name);
  }

  /** Safe publication: a run publishes only while every table's marker carries the watermark the run
      captured for it, and each cursor is the watermark in such a run's marker for that table. */
  lemma CursorsComeFromVerifiedMarkers(lookback: nat, s: State)
    requires Reachable(lookback, s)
    ensures forall run :: run in s.sealed ==> MarkersMatch(s, run)
    ensures forall name :: name in s.tables && s.tables[name].cursor.Some? ==>
              exists run :: run in s.sealed && run in s.tables[name].markers &&
                s.tables[name].markers[run] ==
                  Watermark(Some(s.tables[name].cursor.value.at), s.tables[name].cursor.value.pk)
  {
    forall name | name in s.tables
      ensures SealedOk(s.sealed, s.tables[name])
      ensures CursorOk(s.sealed, s.tables[name].markers, s.tables[name].cursor)
    {
      ReachableInvariant(lookback, s, name);
    }
  }

  // ----- agreement -----

  lemma SubsetSize(a: set<Row>, b: set<Row>)
    requires a <= b
    ensures |a| <= |b|
  {
    assert b == a + (b - a);
  }

  /** The newest Bronze version of a key, as Silver keeps it. */
  ghost function Newest(rows: set<Row>, pk: int): (newest: Row)
    requires exists r :: r in rows && r.pk == pk
    ensures newest in rows && newest.pk == pk
    ensures forall r :: r in rows && r.pk == pk ==> r.ts <= newest.ts
    decreases |rows|
  {
    var r :| r in rows && r.pk == pk;
    var newer := set q | q in rows && q.ts > r.ts;
    if exists q :: q in newer && q.pk == pk then
      assert |newer| < |rows| by { SubsetSize(newer, rows - {r}); }
      Newest(newer, pk)
    else r
  }

  ghost function NewestPerKey(rows: set<Row>): map<int, Row> {
    map r | r in rows :: r.pk := Newest(rows, r.pk)
  }

  lemma BronzeIsHistoric(source: Source, published: set<Row>, bronze: map<string, Batch>)
    requires BatchesOk(source, published, bronze)
    ensures forall r :: r in AllBronze(bronze) ==> Historic(source, r)
  {
    forall r | r in AllBronze(bronze)
      ensures Historic(source, r)
    {
      var run :| run in bronze && r in bronze[run].rows;
      assert BatchOk(source, published, bronze[run]);
    }
  }

  lemma CapturedSourceIsInBronze(sealed: set<string>, source: Source, bronze: map<string, Batch>, run: string)
    requires BatchesOk(source, Published(sealed, bronze), bronze)
    requires run in bronze && bronze[run].capture.seen == source.rows
    ensures forall pk :: pk in source.rows ==> source.rows[pk] in AllBronze(bronze)
  {
    assert BatchOk(source, Published(sealed, bronze), bronze[run]);
    forall pk | pk in source.rows
      ensures source.rows[pk] in AllBronze(bronze)
    {
      var row := source.rows[pk];
      if row !in bronze[run].rows {
        var other :| other in sealed && other in bronze && row in bronze[other].rows;
      }
    }
  }

  /** Among historic rows that include a key's current row, that row is the newest. */
  lemma NewestIsCurrent(now: int, source: Source, rows: set<Row>, pk: int)
    requires SourceOk(now, source) && pk in source.rows && source.rows[pk] in rows
    requires forall r :: r in rows ==> Historic(source, r)
    ensures source.rows[pk].pk == pk && pk in NewestPerKey(rows) && NewestPerKey(rows)[pk] == source.rows[pk]
  {
    var newest := Newest(rows, pk);
    assert Historic(source, newest) && newest.ts == source.rows[pk].ts;
  }

  /** End-to-end agreement: once a run has loaded a table whose source stands as that run captured it,
      the newest Bronze version of every current key is the source row, however many earlier runs
      failed, were repeated or overlapped; and Bronze shows the source exactly if and only if no key it
      holds has since been deleted. */
  lemma LoadedRunAgreesWithSource(lookback: nat, s: State, name: string, run: string)
    requires Reachable(lookback, s) && name in s.tables && run in s.tables[name].bronze
    requires s.tables[name].bronze[run].capture.seen == s.tables[name].source.rows
    ensures var t := s.tables[name];
            var view := NewestPerKey(AllBronze(t.bronze));
            (forall pk :: pk in t.source.rows ==> pk in view && view[pk] == t.source.rows[pk]) &&
            (view == t.source.rows <==> forall r :: r in AllBronze(t.bronze) ==> r.pk in t.source.rows)
  {
    ReachableInvariant(lookback, s, name);
    var t := s.tables[name];
    BronzeIsHistoric(t.source, Published(s.sealed, t.bronze), t.bronze);
    CapturedSourceIsInBronze(s.sealed, t.source, t.bronze, run);
    ViewIsSource(s.now, t.source, AllBronze(t.bronze));
  }

  lemma ViewIsSource(now: int, source: Source, rows: set<Row>)
    requires SourceOk(now, source) && forall r :: r in rows ==> Historic(source, r)
    requires forall pk :: pk in source.rows ==> source.rows[pk] in rows
    ensures var view := NewestPerKey(rows);
            (forall pk :: pk in source.rows ==> pk in view && view[pk] == source.rows[pk]) &&
            (view == source.rows <==> forall r :: r in rows ==> r.pk in source.rows)
  {
    var view := NewestPerKey(rows);
    forall pk | pk in source.rows
      ensures pk in view && view[pk] == source.rows[pk]
    {
      NewestIsCurrent(now, source, rows, pk);
    }
    assert forall r :: r in rows ==> r.pk in view;
  }

  predicate EveryKeyIsCurrent(s: State, name: string) {
    name in s.tables && s.tables[name].source.latest.Keys <= s.tables[name].source.rows.Keys
  }

  predicate KeysStay(s: State, s': State, name: string) {
    name in s.tables && name in s'.tables && s.tables[name].source.rows.Keys <= s'.tables[name].source.rows.Keys
  }

  /** No key ever leaves the table along this path. */
  predicate DeletesNothing(path: seq<State>, name: string) {
    forall i: nat :: i + 1 < |path| ==> KeysStay(path[i], path[i + 1], name)
  }

  /** A step that removes no key keeps every key that was ever written. */
  lemma FollowKeepsKeys(lookback: nat, s: State, s': State, name: string)
    requires EveryKeyIsCurrent(s, name) && Follows(lookback, s, s') && KeysStay(s, s', name)
    ensures EveryKeyIsCurrent(s', name)
  {
    var step :| StepEnabled(lookback, s, step) && s' == Next(lookback, s, step);
    if step.On? && step.table == name && step.change.Write? {
      var row := step.change.row;
      var source := s.tables[name].source;
      assert s'.tables[name].source == Source(source.rows[row.pk := row], source.latest[row.pk := row.ts]);
    } else {
      assert s'.tables[name].source.latest == s.tables[name].source.latest;
    }
  }

  lemma {:induction false} KeysNeverLeave(lookback: nat, path: seq<State>, name: string)
    requires Path(lookback, path) && EveryKeyIsCurrent(path[0], name) && DeletesNothing(path, name)
    ensures EveryKeyIsCurrent(path[|path| - 1], name)
  {
    if |path| > 1 {
      var n := |path| - 1;
      PathStart(lookback, path);
      KeysNeverLeave(lookback, path[..n], name);
      FollowKeepsKeys(lookback, path[n - 1], path[n], name);
    }
  }

  /** Without hard deletes the agreement is exact. */
  lemma LoadedRunEqualsSource(lookback: nat, path: seq<State>, s: State, name: string, run: string)
    requires Path(lookback, path) && Initial(path[0]) && path[|path| - 1] == s
    requires EveryKeyIsCurrent(path[0], name) && DeletesNothing(path, name)
    requires name in s.tables && run in s.tables[name].bronze
    requires s.tables[name].bronze[run].capture.seen == s.tables[name].source.rows
    ensures NewestPerKey(AllBronze(s.tables[name].bronze)) == s.tables[name].source.rows
  {
    KeysNeverLeave(lookback, path, name);
    assert Joins(lookback, path, path[0], s);
    assert Reachable(lookback, s);
    ReachableInvariant(lookback, s, name);
    LoadedRunAgreesWithSource(lookback, s, name, run);
    var t := s.tables[name];
    BronzeIsHistoric(t.source, Published(s.sealed, t.bronze), t.bronze);
    assert forall r :: r in AllBronze(t.bronze) ==> Historic(t.source, r) && r.pk in t.source.rows;
  }

  // ----- where the guarantee stops -----

  /** One published run captures, extracts and loads once more. */
  function Rerun(lookback: nat, t: Table, run: string, mark: Watermark): Table {
    Apply(lookback, Apply(lookback, Apply(lookback, t, CaptureMark(run, mark)), Extract(run)), LoadBronze(run))
  }

  lemma PublishedAfterReplacing(sealed: set<string>, bronze: map<string, Batch>, run: string, b: Batch)
    requires run in sealed
    ensures Published(sealed, bronze[run := b]) == Published(sealed - {run}, bronze) + b.rows
  {
    var bronze' := bronze[run := b];
    var others := Published(sealed - {run}, bronze);
    forall r | r in Published(sealed, bronze')
      ensures r in others + b.rows
    {
      var other :| other in sealed && other in bronze' && r in bronze'[other].rows;
      if other != run {
        assert other in sealed - {run} && other in bronze && r in bronze[other].rows;
      }
    }
    forall r | r in others + b.rows
      ensures r in Published(sealed, bronze')
    {
      if r in others {
        var other :| other in sealed - {run} && other in bronze && r in bronze[other].rows;
        assert other in sealed && other in bronze' && r in bronze'[other].rows;
      } else {
        assert run in bronze' && r in bronze'[run].rows;
      }
    }
  }

  lemma WindowIsSelected(lookback: nat, now: int, t: Table, mark: Watermark)
    requires SourceOk(now, t.source)
    ensures forall r :: r in WindowRows(lookback, t, mark) ==> Selected(t.cursor, lookback, r.ts, r.pk)
  {
    forall r | r in WindowRows(lookback, t, mark)
      ensures Selected(t.cursor, lookback, r.ts, r.pk)
    {
      var pk :| pk in t.source.rows && t.source.rows[pk] == r && InWindow(t.cursor, mark, lookback, r.ts, pk);
      WindowMeaning(t.cursor, mark, lookback, r.ts, pk);
    }
  }

  /** Repeating the landing and load of a run that has already published replaces its Bronze rows by
      the short window above the published cursor, up to whatever watermark is read now or was read
      before. Every row stays safe exactly when that window is empty or another published run also
      holds each row the next window skips. */
  lemma RerunAfterPublishingIsSafeIff(lookback: nat, s: State, name: string, run: string, mark: Watermark)
    requires Reachable(lookback, s) && name in s.tables && run in s.sealed
    ensures var t := s.tables[name];
            var t' := Rerun(lookback, t, run, mark);
            AllSafe(lookback, t'.source, Published(s.sealed, t'.bronze), t'.cursor) <==>
            WindowRows(lookback, t, mark) == {} ||
            forall pk :: pk in t.source.rows && !Selected(t.cursor, lookback, t.source.rows[pk].ts, pk) ==>
              t.source.rows[pk] in Published(s.sealed - {run}, t.bronze)
  {
    ReachableInvariant(lookback, s, name);
    var t := s.tables[name];
    assert MarkerMatches(t, run) && run in t.bronze;
    InvariantIsSafe(lookback, s.now, s.sealed, t);
    RerunBronze(lookback, s.sealed, t, run, mark);
    var others := Published(s.sealed - {run}, t.bronze);
    WindowIsSelected(lookback, s.now, t, mark);
    ReplacedRowsSafeIff(lookback, s.now, t.source, others, WindowRows(lookback, t, mark), t.cursor);
  }

  lemma RerunBronze(lookback: nat, sealed: set<string>, t: Table, run: string, mark: Watermark)
    requires run in sealed && run in t.bronze
    ensures var t' := Rerun(lookback, t, run, mark);
            var window := WindowRows(lookback, t, mark);
            t'.source == t.source && t'.cursor == t.cursor &&
            Published(sealed, t'.bronze) ==
              if window == {} then Published(sealed, t.bronze) else Published(sealed - {run}, t.bronze) + window
  {
    var c := Capture(mark, t.source.rows);
    var window := WindowRows(lookback, t, mark);
    var b := Batch(if window == {} then t.bronze[run].rows else window, c);
    assert WindowRows(lookback, Apply(lookback, t, CaptureMark(run, mark)), mark) == window;
    assert Rerun(lookback, t, run, mark).bronze == t.bronze[run := b];
    PublishedAfterReplacing(sealed, t.bronze, run, b);
    PublishedAfterReplacing(sealed, t.bronze, run, t.bronze[run]);
    assert t.bronze[run := t.bronze[run]] == t.bronze;
  }

  lemma ReplacedRowsSafeIff(lookback: nat, now: int, source: Source, others: set<Row>, window: set<Row>, cursor: Option<Cursor>)
    requires SourceOk(now, source) && forall r :: r in window ==> Selected(cursor, lookback, r.ts, r.pk)
    ensures AllSafe(lookback, source, others + window, cursor) <==>
            forall pk :: pk in source.rows && !Selected(cursor, lookback, source.rows[pk].ts, pk) ==> source.rows[pk] in others
  {
    if AllSafe(lookback, source, others + window, cursor) {
      forall pk | pk in source.rows && !Selected(cursor, lookback, source.rows[pk].ts, pk)
        ensures source.rows[pk] in others
      {
        assert Safe(lookback, others + window, cursor, source.rows[pk]);
      }
    }
  }
}
