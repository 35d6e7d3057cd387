/** The incremental ingestion protocol as a transition system.
    Sources keep changing, every task may fail and be repeated, runs may interleave, and cursors
    are published one object at a time. A failed attempt is a step that did not happen. */
module Protocol {
  import opened Common
  import opened CursorWindow

  // ----- state -----

  datatype Row = Row(pk: int, ts: int, payload: string)

  /** The source table. `latest` is history: the newest timestamp ever given to a key, kept across
      deletes. */
  datatype Source = Source(rows: map<int, Row>, latest: map<int, int>)

  /** A captured watermark. `seen` is history: what the source held when it was read. */
  datatype Capture = Capture(mark: Watermark, seen: map<int, Row>)

  /** Rows extracted by a run (or loaded by it into Bronze) under a captured watermark. */
  datatype Batch = Batch(rows: set<Row>, capture: Capture)

  /** One table; the middle maps are keyed by run id. */
  datatype Table = Table(
    source: Source,
    captured: map<string, Capture>,
    landing: map<string, Batch>,
    bronze: map<string, Batch>,
    markers: map<string, Watermark>,
    cursor: Option<Cursor>)

  /** `sealed` is history: the runs that passed marker verification and may publish cursors. */
  datatype State = State(now: int, tables: map<string, Table>, sealed: set<string>)

  datatype Change =
    | Write(row: Row)
    | Delete(pk: int)
    | CaptureMark(run: string, mark: Watermark)
    | Extract(run: string)
    | LoadBronze(run: string)
    | Mark(run: string)
    | Publish(run: string)

  datatype Step =
    | Tick(micros: nat)
    | On(table: string, change: Change)
    | Verify(run: string)

  // ----- steps -----

  /** What `high_watermark.sql` returns: the lexicographic maximum of (timestamp, key). */
  predicate IsHighWatermark(rows: map<int, Row>, mark: Watermark) {
    if mark.at.None? then rows == map[] && mark.pk.None?
    else
      mark.pk.Some? && mark.pk.value in rows && rows[mark.pk.value].ts == mark.at.value &&
      forall pk :: pk in rows ==> KeyAtMost(rows[pk].ts, pk, mark.at.value, mark.pk.value)
  }

  /** A window whose cursor is this watermark leaves the row out. */
  predicate Skips(lookback: nat, mark: Watermark, ts: int, pk: int) {
    mark.at.Some? && !Selected(Some(Cursor(mark.at.value, mark.pk)), lookback, ts, pk)
  }

  /** The row that was the maximum when this watermark was read still stands. */
  predicate StillCurrent(source: Source, mark: Watermark) {
    mark.at.Some? && mark.pk.Some? && mark.pk.value in source.rows && source.rows[mark.pk.value].ts == mark.at.value
  }

  /** The run's Bronze rows, or its completion marker, were made under this watermark. */
  predicate BronzeUnder(t: Table, run: string, mark: Watermark) {
    run in t.bronze && (t.bronze[run].capture.mark == mark || (run in t.markers && t.markers[run] == mark))
  }

  /** The run has extracted rows under this watermark. */
  predicate ExtractedUnder(t: Table, run: string, mark: Watermark) {
    (run in t.landing && t.landing[run].capture.mark == mark) || BronzeUnder(t, run, mark)
  }

  /** The run can publish the watermark: it is the captured one, or a repeated capture can yield it. */
  predicate Publishable(sealed: set<string>, t: Table, run: string, mark: Watermark) {
    run in t.captured && (t.captured[run].mark == mark || (run !in sealed && StillCurrent(t.source, mark)))
  }

  /** No watermark that a run can publish with what it has already extracted skips the row. */
  ghost predicate Timely(lookback: nat, sealed: set<string>, t: Table, ts: int, pk: int) {
    forall run, mark :: ExtractedUnder(t, run, mark) && Publishable(sealed, t, run, mark) ==> !Skips(lookback, mark, ts, pk)
  }

  predicate Advances(source: Source, row: Row) {
    row.pk in source.latest ==> row.ts > source.latest[row.pk]
  }

  function WindowRows(lookback: nat, t: Table, mark: Watermark): set<Row> {
    set pk | pk in t.source.rows && InWindow(t.cursor, mark, lookback, t.source.rows[pk].ts, pk) :: t.source.rows[pk]
  }

  /** The rows are exactly the source rows that are past the cursor, or not older than the lookback before it,
      and not past the watermark in (timestamp, key) order. */
  ghost predicate IsWindow(lookback: nat, source: Source, cursor: Option<Cursor>, mark: Watermark, rows: set<Row>) {
    forall row: Row :: row in rows <==>
      row.pk in source.rows && source.rows[row.pk] == row &&
      (cursor.Some? && lookback == 0 ==>
         row.ts > cursor.value.at ||
         (row.ts == cursor.value.at && row.pk > if cursor.value.pk.Some? then cursor.value.pk.value else 0)) &&
      (cursor.Some? && lookback > 0 ==> row.ts >= cursor.value.at - lookback * 60_000_000) &&
      (mark.at.Some? ==>
         row.ts < mark.at.value ||
         (row.ts == mark.at.value && row.pk <= if mark.pk.Some? then mark.pk.value else 0))
  }

  lemma WindowRowsAreTheWindow(now: int, lookback: nat, t: Table, mark: Watermark)
    requires SourceOk(now, t.source)
    ensures IsWindow(lookback, t.source, t.cursor, mark, WindowRows(lookback, t, mark))
  {
    forall pk | pk in t.source.rows
      ensures InWindow(t.cursor, mark, lookback, t.source.rows[pk].ts, pk) <==>
              Selected(t.cursor, lookback, t.source.rows[pk].ts, pk) && AtOrBelow(mark, t.source.rows[pk].ts, pk)
    {
      WindowMeaning(t.cursor, mark, lookback, t.source.rows[pk].ts, pk);
    }
  }

  /** No extracted row is later than the watermark it was extracted under. */
  predicate NotPast(b: Batch) {
    b.capture.mark.at.Some? ==>
      b.capture.mark.pk.Some? &&
      forall row :: row in b.rows ==>
        row.ts < b.capture.mark.at.value ||
        (row.ts == b.capture.mark.at.value && row.pk <= b.capture.mark.pk.value)
  }

  /** An empty manifest leaves the run's Bronze rows alone; otherwise they are replaced. */
  function LoadedRows(t: Table, run: string): set<Row>
    requires run in t.landing
  {
    if t.landing[run].rows == {} then if run in t.bronze then t.bronze[run].rows else {}
    else t.landing[run].rows
  }

  /** A null watermark never moves a cursor. */
  function PublishedCursor(cursor: Option<Cursor>, mark: Watermark): Option<Cursor> {
    if mark.at.None? then cursor else Some(Cursor(mark.at.value, mark.pk))
  }

  /** A run captures, extracts and replaces its Bronze rows only before it starts publishing;
      afterwards a repeated load or marker finds what it already wrote. */
  ghost predicate Enabled(lookback: nat, now: int, sealed: set<string>, t: Table, change: Change) {
    match change
    case Write(row) => row.ts <= now && Advances(t.source, row) && Timely(lookback, sealed, t, row.ts, row.pk)
    case Delete(pk) => true
    case CaptureMark(run, mark) => run !in sealed && IsHighWatermark(t.source.rows, mark)
    case Extract(run) => run !in sealed && run in t.captured
    case LoadBronze(run) =>
      run in t.landing && (run in sealed ==> run in t.bronze && t.bronze[run].rows == LoadedRows(t, run))
    case Mark(run) =>
      run in t.bronze && (run in sealed ==> run in t.markers && t.bronze[run].capture.mark == t.markers[run])
    case Publish(run) => run in sealed && run in t.captured
  }

  function Apply(lookback: nat, t: Table, change: Change): Table {
    match change
    case Write(row) => t.(source := Source(t.source.rows[row.pk := row], t.source.latest[row.pk := row.ts]))
    case Delete(pk) => t.(source := t.source.(rows := t.source.rows - {pk}))
    case CaptureMark(run, mark) => t.(captured := t.captured[run := Capture(mark, t.source.rows)])
    case Extract(run) =>
      if run !in t.captured then t
      else t.(landing := t.landing[run := Batch(WindowRows(lookback, t, t.captured[run].mark), t.captured[run])])
    case LoadBronze(run) =>
      if run !in t.landing then t
      else t.(bronze := t.bronze[run := Batch(LoadedRows(t, run), t.landing[run].capture)])
    case Mark(run) =>
      if run !in t.bronze then t
      else t.(markers := t.markers[run := t.bronze[run].capture.mark])
    case Publish(run) =>
      if run !in t.captured then t
      else t.(cursor := PublishedCursor(t.cursor, t.captured[run].mark))
  }

  /** Every table's marker for the run carries the watermark the run captured. */
  predicate MarkersMatch(s: State, run: string) {
    forall name :: name in s.tables ==> MarkerMatches(s.tables[name], run)
  }

  predicate MarkerMatches(t: Table, run: string) {
    run in t.captured && run in t.markers && t.markers[run] == t.captured[run].mark
  }

  ghost predicate StepEnabled(lookback: nat, s: State, step: Step) {
    match step
    case Tick(_) => true
    case On(name, change) => name in s.tables && Enabled(lookback, s.now, s.sealed, s.tables[name], change)
    case Verify(run) => MarkersMatch(s, run)
  }

  function Next(lookback: nat, s: State, step: Step): State {
    match step
    case Tick(micros) => s.(now := s.now + micros)
    case On(name, change) =>
      if name !in s.tables then s
      else s.(tables := s.tables[name := Apply(lookback, s.tables[name], change)])
    case Verify(run) => s.(sealed := s.sealed + {run})
  }

  /** Some step leads from `s` to `s'`. */
  ghost predicate Follows(lookback: nat, s: State, s': State) {
    exists step :: StepEnabled(lookback, s, step) && s' == Next(lookback, s, step)
  }

  ghost predicate FollowsAt(lookback: nat, path: seq<State>, i: nat)
    requires i + 1 < |path|
  {
    Follows(lookback, path[i], path[i + 1])
  }

  /** The states of one run of the system. */
  ghost predicate Path(lookback: nat, path: seq<State>) {
    path != [] && forall i: nat :: i + 1 < |path| ==> FollowsAt(lookback, path, i)
  }

  ghost predicate Joins(lookback: nat, path: seq<State>, s: State, s': State) {
    Path(lookback, path) && path[0] == s && path[|path| - 1] == s'
  }

  ghost predicate CanReach(lookback: nat, s: State, s': State) {
    exists path :: Joins(lookback, path, s, s')
  }

  lemma StaysReached(lookback: nat, s: State)
    ensures CanReach(lookback, s, s)
  {
    assert Joins(lookback, [s], s, s);
  }

  lemma PathGrows(lookback: nat, path: seq<State>, s': State)
    requires Path(lookback, path) && Follows(lookback, path[|path| - 1], s')
    ensures Path(lookback, path + [s'])
  {
    forall i: nat | i + 1 < |path + [s']|
      ensures FollowsAt(lookback, path + [s'], i)
    {
      assert i + 1 < |path| ==> FollowsAt(lookback, path, i);
    }
  }

  lemma PathStart(lookback: nat, path: seq<State>)
    requires Path(lookback, path) && |path| > 1
    ensures var n := |path| - 1;
            Path(lookback, path[..n]) && Follows(lookback, path[n - 1], path[n])
  {
    var n := |path| - 1;
    forall i: nat | i + 1 < n
      ensures FollowsAt(lookback, path[..n], i)
    {
      assert FollowsAt(lookback, path, i);
    }
    assert FollowsAt(lookback, path, n - 1);
  }

  lemma Onward(lookback: nat, s: State, s': State, step: Step)
    requires CanReach(lookback, s, s') && StepEnabled(lookback, s', step)
    ensures CanReach(lookback, s, Next(lookback, s', step))
  {
    var path :| Joins(lookback, path, s, s');
    var next := Next(lookback, s', step);
    assert Follows(lookback, s', next);
    PathGrows(lookback, path, next);
    assert Joins(lookback, path + [next], s, next);
  }

  /** Any source contents; nothing captured, extracted, loaded or published. */
  predicate Initial(s: State) {
    s.sealed == {} && forall name :: name in s.tables ==> InitialTable(s.now, s.tables[name])
  }

  predicate InitialTable(now: int, t: Table) {
    t.captured == map[] && t.landing == map[] && t.bronze == map[] && t.markers == map[] && t.cursor == None &&
    SourceOk(now, t.source)
  }

  // ----- invariant -----

  predicate SourceOk(now: int, source: Source) {
    (forall pk :: pk in source.rows ==>
       source.rows[pk].pk == pk && pk in source.latest && source.rows[pk].ts == source.latest[pk]) &&
    (forall pk :: pk in source.latest ==> source.latest[pk] <= now)
  }

  /** The Bronze rows of the published runs. */
  function Published(sealed: set<string>, bronze: map<string, Batch>): set<Row> {
    set run, r | run in sealed && run in bronze && r in bronze[run].rows :: r
  }

  function AllBronze(bronze: map<string, Batch>): set<Row> {
    set run, r | run in bronze && r in bronze[run].rows :: r
  }

  /** `row` was once the current version of its key. */
  predicate Historic(source: Source, row: Row) {
    row.pk in source.latest && row.ts <= source.latest[row.pk] &&
    (row.pk in source.rows && source.rows[row.pk].ts == row.ts ==> source.rows[row.pk] == row)
  }

  predicate CaptureOk(source: Source, c: Capture) {
    IsHighWatermark(c.seen, c.mark) &&
    forall pk :: pk in c.seen ==> c.seen[pk].pk == pk && Historic(source, c.seen[pk])
  }

  /** The batch, with the Bronze of published runs, holds every captured row that is still current. */
  predicate BatchOk(source: Source, published: set<Row>, b: Batch) {
    CaptureOk(source, b.capture) &&
    (forall r :: r in b.rows ==> Historic(source, r)) &&
    (forall pk :: pk in source.rows && pk in b.capture.seen && b.capture.seen[pk] == source.rows[pk] ==>
       source.rows[pk] in b.rows || source.rows[pk] in published)
  }

  predicate CapturesOk(source: Source, captured: map<string, Capture>) {
    forall run :: run in captured ==> CaptureOk(source, captured[run])
  }

  predicate BatchesOk(source: Source, published: set<Row>, batches: map<string, Batch>) {
    forall run :: run in batches ==> BatchOk(source, published, batches[run])
  }

  /** No stage of a run exists before the stage it reads. */
  predicate StagesOk(t: Table) {
    t.markers.Keys <= t.bronze.Keys <= t.landing.Keys <= t.captured.Keys
  }

  /** The watermark was once the (timestamp, key) of a source row, or of an empty table. */
  predicate OnceCaptured(source: Source, mark: Watermark) {
    mark.at.Some? ==> mark.pk.Some? && mark.pk.value in source.latest && mark.at.value <= source.latest[mark.pk.value]
  }

  predicate MarkAtMost(m: Watermark, m': Watermark) {
    m.at.Some? ==> m'.at.Some? && KeyAtMost(m.at.value, PkOrZero(m.pk), m'.at.value, PkOrZero(m'.pk))
  }

  /** Every current row this watermark skips is among `rows` or published. */
  predicate Covers(lookback: nat, source: Source, rows: set<Row>, published: set<Row>, mark: Watermark) {
    forall pk :: pk in source.rows && Skips(lookback, mark, source.rows[pk].ts, pk) ==>
      source.rows[pk] in rows || source.rows[pk] in published
  }

  /** What a run has extracted covers a watermark it can still publish, and so do its Bronze rows if
      they are what it would publish; a repeated extraction would reach at least as far. */
  predicate Covered(lookback: nat, published: set<Row>, t: Table, run: string, mark: Watermark)
    requires StagesOk(t) && ExtractedUnder(t, run, mark)
  {
    MarkAtMost(mark, t.captured[run].mark) &&
    Covers(lookback, t.source, t.landing[run].rows, published, mark) &&
    (BronzeUnder(t, run, mark) ==> Covers(lookback, t.source, t.bronze[run].rows, published, mark))
  }

  predicate MarkOk(lookback: nat, sealed: set<string>, published: set<Row>, t: Table, run: string, mark: Watermark)
    requires StagesOk(t) && ExtractedUnder(t, run, mark)
  {
    OnceCaptured(t.source, mark) && (Publishable(sealed, t, run, mark) ==> Covered(lookback, published, t, run, mark))
  }

  ghost predicate MarksOk(lookback: nat, sealed: set<string>, published: set<Row>, t: Table)
    requires StagesOk(t)
  {
    forall run, mark :: ExtractedUnder(t, run, mark) ==> MarkOk(lookback, sealed, published, t, run, mark)
  }

  predicate SealedOk(sealed: set<string>, t: Table) {
    forall run :: run in sealed ==> MarkerMatches(t, run)
  }

  /** The cursor is the watermark in the completion marker of a run that was verified. */
  predicate CursorOk(sealed: set<string>, markers: map<string, Watermark>, cursor: Option<Cursor>) {
    cursor.Some? ==>
      exists run :: run in sealed && run in markers && markers[run] == Watermark(Some(cursor.value.at), cursor.value.pk)
  }

  /** Nothing the next window skips is missing from the Bronze of published runs. */
  predicate NothingSkipped(lookback: nat, source: Source, published: set<Row>, cursor: Option<Cursor>) {
    forall pk :: pk in source.rows && !Selected(cursor, lookback, source.rows[pk].ts, pk) ==> source.rows[pk] in published
  }

  /** What the batches of a table hold. */
  predicate RowsInv(now: int, published: set<Row>, t: Table) {
    SourceOk(now, t.source) && CapturesOk(t.source, t.captured) &&
    BatchesOk(t.source, published, t.landing) && BatchesOk(t.source, published, t.bronze) &&
    forall run :: run in t.landing ==> NotPast(t.landing[run])
  }

  /** What the watermarks of a table promise. */
  ghost predicate MarksInv(lookback: nat, sealed: set<string>, published: set<Row>, t: Table) {
    StagesOk(t) && MarksOk(lookback, sealed, published, t) && SealedOk(sealed, t) &&
    CursorOk(sealed, t.markers, t.cursor) && NothingSkipped(lookback, t.source, published, t.cursor)
  }

  ghost predicate TableInv(lookback: nat, now: int, sealed: set<string>, t: Table) {
    RowsInv(now, Published(sealed, t.bronze), t) && MarksInv(lookback, sealed, Published(sealed, t.bronze), t)
  }

  // ----- the source moves -----

  /** Kept rows are as they were; any other row is new to every batch, and timely. */
  ghost predicate SourceMoved(lookback: nat, now: int, sealed: set<string>, t: Table, source': Source) {
    && SourceOk(now, source')
    && (forall pk :: pk in t.source.latest ==> pk in source'.latest && t.source.latest[pk] <= source'.latest[pk])
    && (forall r :: Historic(t.source, r) ==> Historic(source', r))
    && (forall pk :: pk in source'.rows && !(pk in t.source.rows && t.source.rows[pk] == source'.rows[pk]) ==>
          !Historic(t.source, source'.rows[pk]) && Timely(lookback, sealed, t, source'.rows[pk].ts, pk))
  }

  lemma BatchesSurviveSource(source: Source, source': Source, published: set<Row>, batches: map<string, Batch>)
    requires BatchesOk(source, published, batches)
    requires forall r :: Historic(source, r) ==> Historic(source', r)
    requires forall pk :: pk in source'.rows && !(pk in source.rows && source.rows[pk] == source'.rows[pk]) ==>
               !Historic(source, source'.rows[pk])
    ensures BatchesOk(source', published, batches)
  {
    forall run | run in batches
      ensures BatchOk(source', published, batches[run])
    {
      var b := batches[run];
      assert BatchOk(source, published, b);
      forall pk | pk in source'.rows && pk in b.capture.seen && b.capture.seen[pk] == source'.rows[pk]
        ensures source'.rows[pk] in b.rows || source'.rows[pk] in published
      {
        assert Historic(source, b.capture.seen[pk]);
      }
    }
  }

  /** A watermark's row cannot come back: its key's later versions have later timestamps. */
  lemma PublishableBefore(lookback: nat, now: int, sealed: set<string>, t: Table, source': Source, run: string, mark: Watermark)
    requires SourceMoved(lookback, now, sealed, t, source') && OnceCaptured(t.source, mark)
    requires Publishable(sealed, t.(source := source'), run, mark)
    ensures Publishable(sealed, t, run, mark)
  {
    if StillCurrent(source', mark) {
      var pk := mark.pk.value;
      assert source'.rows[pk].pk == pk;
      assert !(pk in t.source.rows && t.source.rows[pk] == source'.rows[pk]) ==> !Historic(t.source, source'.rows[pk]);
    }
  }

  lemma CoversSurvivesSource(lookback: nat, source: Source, source': Source, rows: set<Row>, published: set<Row>, mark: Watermark)
    requires Covers(lookback, source, rows, published, mark)
    requires forall pk :: pk in source'.rows && !(pk in source.rows && source.rows[pk] == source'.rows[pk]) ==>
               !Skips(lookback, mark, source'.rows[pk].ts, pk)
    ensures Covers(lookback, source', rows, published, mark)
  {
  }

  lemma OnceCapturedStays(source: Source, source': Source, mark: Watermark)
    requires OnceCaptured(source, mark)
    requires forall pk :: pk in source.latest ==> pk in source'.latest && source.latest[pk] <= source'.latest[pk]
    ensures OnceCaptured(source', mark)
  {
    if mark.at.Some? {
      var pk: int := mark.pk.value;
      assert pk in source.latest;
    }
  }

  lemma MarkSurvivesSource(lookback: nat, now: int, sealed: set<string>, published: set<Row>, t: Table, source': Source,
                           run: string, mark: Watermark)
    requires SourceMoved(lookback, now, sealed, t, source') && StagesOk(t) && ExtractedUnder(t, run, mark)
    requires MarkOk(lookback, sealed, published, t, run, mark)
    ensures MarkOk(lookback, sealed, published, t.(source := source'), run, mark)
  {
    var t' := t.(source := source');
    OnceCapturedStays(t.source, source', mark);
    if Publishable(sealed, t', run, mark) {
      PublishableBefore(lookback, now, sealed, t, source', run, mark);
      CoversSurvivesSource(lookback, t.source, source', t.landing[run].rows, published, mark);
      if BronzeUnder(t, run, mark) {
        CoversSurvivesSource(lookback, t.source, source', t.bronze[run].rows, published, mark);
      }
    }
  }

  lemma SealedMarksAreCovered(lookback: nat, sealed: set<string>, t: Table, ts: int, pk: int)
    requires SealedOk(sealed, t) && StagesOk(t) && CursorOk(sealed, t.markers, t.cursor) && Timely(lookback, sealed, t, ts, pk)
    ensures Selected(t.cursor, lookback, ts, pk)
  {
    if t.cursor.Some? {
      var mark := Watermark(Some(t.cursor.value.at), t.cursor.value.pk);
      var run :| run in sealed && run in t.markers && t.markers[run] == mark;
      assert MarkerMatches(t, run);
      assert ExtractedUnder(t, run, mark) && Publishable(sealed, t, run, mark);
    }
  }

  lemma SourceMovedKeeps(lookback: nat, now: int, sealed: set<string>, t: Table, source': Source)
    requires TableInv(lookback, now, sealed, t) && SourceMoved(lookback, now, sealed, t, source')
    ensures TableInv(lookback, now, sealed, t.(source := source'))
  {
    var published := Published(sealed, t.bronze);
    var t' := t.(source := source');
    BatchesSurviveSource(t.source, source', published, t.landing);
    BatchesSurviveSource(t.source, source', published, t.bronze);
    forall run, mark | ExtractedUnder(t', run, mark)
      ensures MarkOk(lookback, sealed, published, t', run, mark)
    {
      assert ExtractedUnder(t, run, mark);
      MarkSurvivesSource(lookback, now, sealed, published, t, source', run, mark);
    }
    NothingSkippedAfterSource(lookback, now, sealed, published, t, source');
  }

  lemma NothingSkippedAfterSource(lookback: nat, now: int, sealed: set<string>, published: set<Row>, t: Table, source': Source)
    requires MarksInv(lookback, sealed, published, t) && SourceMoved(lookback, now, sealed, t, source')
    ensures NothingSkipped(lookback, source', published, t.cursor)
  {
    forall pk | pk in source'.rows && !Selected(t.cursor, lookback, source'.rows[pk].ts, pk)
      ensures source'.rows[pk] in published
    {
      if !(pk in t.source.rows && t.source.rows[pk] == source'.rows[pk]) {
        SealedMarksAreCovered(lookback, sealed, t, source'.rows[pk].ts, pk);
        assert false;
      }
    }
  }

  lemma WriteMovesSource(lookback: nat, now: int, sealed: set<string>, t: Table, row: Row)
    requires SourceOk(now, t.source) && row.ts <= now && Advances(t.source, row) && Timely(lookback, sealed, t, row.ts, row.pk)
    ensures SourceMoved(lookback, now, sealed, t, Apply(lookback, t, Write(row)).source)
  {
  }

  lemma DeleteMovesSource(lookback: nat, now: int, sealed: set<string>, t: Table, pk: int)
    requires SourceOk(now, t.source)
    ensures SourceMoved(lookback, now, sealed, t, Apply(lookback, t, Delete(pk)).source)
  {
  }

  // ----- a run captures, extracts and loads -----

  lemma NewCaptureOk(now: int, source: Source, mark: Watermark)
    requires SourceOk(now, source) && IsHighWatermark(source.rows, mark)
    ensures CaptureOk(source, Capture(mark, source.rows))
  {
  }

  /** A capture repeats an older watermark only while that watermark's row still stands. */
  lemma CaptureKeepsMark(lookback: nat, now: int, sealed: set<string>, published: set<Row>, t: Table, run: string,
                         mark: Watermark, r: string, m: Watermark)
    requires SourceOk(now, t.source) && run !in sealed && IsHighWatermark(t.source.rows, mark)
    requires StagesOk(t) && ExtractedUnder(t, r, m) && MarkOk(lookback, sealed, published, t, r, m)
    ensures MarkOk(lookback, sealed, published, t.(captured := t.captured[run := Capture(mark, t.source.rows)]), r, m)
  {
    var t' := t.(captured := t.captured[run := Capture(mark, t.source.rows)]);
    if r == run && Publishable(sealed, t', r, m) {
      if m.at.None? {
        assert Covered(lookback, published, t', r, m);
      } else {
        assert StillCurrent(t.source, m);
        assert Publishable(sealed, t, r, m);
      }
    }
  }

  lemma CaptureKeeps(lookback: nat, now: int, sealed: set<string>, t: Table, run: string, mark: Watermark)
    requires TableInv(lookback, now, sealed, t) && Enabled(lookback, now, sealed, t, CaptureMark(run, mark))
    ensures TableInv(lookback, now, sealed, Apply(lookback, t, CaptureMark(run, mark)))
  {
    var published := Published(sealed, t.bronze);
    var t' := Apply(lookback, t, CaptureMark(run, mark));
    NewCaptureOk(now, t.source, mark);
    forall r, m | ExtractedUnder(t', r, m)
      ensures MarkOk(lookback, sealed, published, t', r, m)
    {
      assert ExtractedUnder(t, r, m);
      CaptureKeepsMark(lookback, now, sealed, published, t, run, mark, r, m);
    }
  }

  /** A captured row that is still current is in the window or published. */
  lemma ExtractedBatchOk(lookback: nat, now: int, published: set<Row>, t: Table, c: Capture)
    requires SourceOk(now, t.source) && CaptureOk(t.source, c)
    requires NothingSkipped(lookback, t.source, published, t.cursor)
    ensures BatchOk(t.source, published, Batch(WindowRows(lookback, t, c.mark), c))
  {
    var rows := WindowRows(lookback, t, c.mark);
    forall pk | pk in t.source.rows && pk in c.seen && c.seen[pk] == t.source.rows[pk]
      ensures t.source.rows[pk] in rows || t.source.rows[pk] in published
    {
      WindowMeaning(t.cursor, c.mark, lookback, t.source.rows[pk].ts, pk);
    }
  }

  /** A window covers every watermark up to its own upper bound. */
  lemma WindowCovers(lookback: nat, published: set<Row>, t: Table, upper: Watermark, mark: Watermark)
    requires NothingSkipped(lookback, t.source, published, t.cursor) && MarkAtMost(mark, upper)
    ensures Covers(lookback, t.source, WindowRows(lookback, t, upper), published, mark)
  {
    forall pk | pk in t.source.rows && Skips(lookback, mark, t.source.rows[pk].ts, pk)
      ensures t.source.rows[pk] in WindowRows(lookback, t, upper) || t.source.rows[pk] in published
    {
      WindowMeaning(t.cursor, upper, lookback, t.source.rows[pk].ts, pk);
    }
  }

  lemma CapturedOnce(source: Source, c: Capture)
    requires CaptureOk(source, c)
    ensures OnceCaptured(source, c.mark)
  {
    if c.mark.at.Some? {
      var pk: int := c.mark.pk.value;
      assert pk in c.seen;
      assert Historic(source, c.seen[pk]);
    }
  }

  lemma ExtractKeepsOwnMark(lookback: nat, sealed: set<string>, published: set<Row>, t: Table, run: string, m: Watermark)
    requires StagesOk(t) && run in t.captured && NothingSkipped(lookback, t.source, published, t.cursor)
    requires OnceCaptured(t.source, t.captured[run].mark) && MarksOk(lookback, sealed, published, t)
    requires ExtractedUnder(t, run, m) || m == t.captured[run].mark
    requires ExtractedUnder(Apply(lookback, t, Extract(run)), run, m)
    ensures MarkOk(lookback, sealed, published, Apply(lookback, t, Extract(run)), run, m)
  {
    var t' := Apply(lookback, t, Extract(run));
    var upper := t.captured[run].mark;
    assert ExtractedUnder(t, run, m) ==> MarkOk(lookback, sealed, published, t, run, m);
    if Publishable(sealed, t', run, m) {
      assert Publishable(sealed, t, run, m);
      assert BronzeUnder(t', run, m) ==> BronzeUnder(t, run, m);
      WindowCovers(lookback, published, t, upper, m);
    }
  }

  lemma ExtractKeepsMark(lookback: nat, sealed: set<string>, published: set<Row>, t: Table, run: string, r: string, m: Watermark)
    requires StagesOk(t) && run in t.captured && NothingSkipped(lookback, t.source, published, t.cursor)
    requires OnceCaptured(t.source, t.captured[run].mark)
    requires MarksOk(lookback, sealed, published, t) && ExtractedUnder(Apply(lookback, t, Extract(run)), r, m)
    ensures MarkOk(lookback, sealed, published, Apply(lookback, t, Extract(run)), r, m)
  {
    if r == run {
      ExtractKeepsOwnMark(lookback, sealed, published, t, run, m);
    } else {
      assert ExtractedUnder(t, r, m);
      assert MarkOk(lookback, sealed, published, t, r, m);
    }
  }

  lemma ExtractKeeps(lookback: nat, now: int, sealed: set<string>, t: Table, run: string)
    requires TableInv(lookback, now, sealed, t) && Enabled(lookback, now, sealed, t, Extract(run))
    ensures TableInv(lookback, now, sealed, Apply(lookback, t, Extract(run)))
  {
    var published := Published(sealed, t.bronze);
    var t' := Apply(lookback, t, Extract(run));
    ExtractedBatchOk(lookback, now, published, t, t.captured[run]);
    WindowRowsAreTheWindow(now, lookback, t, t.captured[run].mark);
    assert NotPast(t'.landing[run]);
    CapturedOnce(t.source, t.captured[run]);
    forall r, m | ExtractedUnder(t', r, m)
      ensures MarkOk(lookback, sealed, published, t', r, m)
    {
      ExtractKeepsMark(lookback, sealed, published, t, run, r, m);
    }
  }

  lemma LoadedRowsStayPublished(sealed: set<string>, t: Table, run: string)
    requires run in t.landing
    requires run in sealed ==> run in t.bronze && t.bronze[run].rows == LoadedRows(t, run)
    ensures var bronze' := t.bronze[run := Batch(LoadedRows(t, run), t.landing[run].capture)];
            Published(sealed, t.bronze) <= Published(sealed, bronze')
  {
    var bronze' := t.bronze[run := Batch(LoadedRows(t, run), t.landing[run].capture)];
    forall r | r in Published(sealed, t.bronze)
      ensures r in Published(sealed, bronze')
    {
      var other :| other in sealed && other in t.bronze && r in t.bronze[other].rows;
      assert other in bronze' && r in bronze'[other].rows;
    }
  }

  /** A load keeps the run's older rows only when nothing new was extracted for it. */
  lemma LoadedBatchOk(t: Table, published: set<Row>, run: string)
    requires BatchesOk(t.source, published, t.landing) && BatchesOk(t.source, published, t.bronze) && run in t.landing
    ensures BatchOk(t.source, published, Batch(LoadedRows(t, run), t.landing[run].capture))
  {
    assert BatchOk(t.source, published, t.landing[run]);
    assert run in t.bronze ==> BatchOk(t.source, published, t.bronze[run]);
  }

  lemma LoadKeepsMark(lookback: nat, sealed: set<string>, published: set<Row>, t: Table, run: string, r: string, m: Watermark)
    requires StagesOk(t) && run in t.landing
    requires MarksOk(lookback, sealed, published, t) && ExtractedUnder(Apply(lookback, t, LoadBronze(run)), r, m)
    ensures MarkOk(lookback, sealed, published, Apply(lookback, t, LoadBronze(run)), r, m)
  {
    var t' := Apply(lookback, t, LoadBronze(run));
    assert ExtractedUnder(t, r, m);
    assert MarkOk(lookback, sealed, published, t, r, m);
    if Publishable(sealed, t', r, m) {
      assert Publishable(sealed, t, r, m);
      assert Covers(lookback, t.source, t.landing[r].rows, published, m);
    }
  }

  lemma RowsOutlive(now: int, now': int, published: set<Row>, published': set<Row>, t: Table)
    requires RowsInv(now, published, t) && now <= now' && published <= published'
    ensures RowsInv(now', published', t)
  {
    BatchesOutlive(t.source, published, published', t.landing);
    BatchesOutlive(t.source, published, published', t.bronze);
  }

  lemma BatchesOutlive(source: Source, published: set<Row>, published': set<Row>, batches: map<string, Batch>)
    requires BatchesOk(source, published, batches) && published <= published'
    ensures BatchesOk(source, published', batches)
  {
  }

  lemma MarksOutlive(lookback: nat, sealed: set<string>, sealed': set<string>, published: set<Row>, published': set<Row>,
                     t: Table)
    requires MarksInv(lookback, sealed, published, t) && sealed <= sealed' && published <= published' && SealedOk(sealed', t)
    ensures MarksInv(lookback, sealed', published', t)
  {
    forall run, mark | ExtractedUnder(t, run, mark)
      ensures MarkOk(lookback, sealed', published', t, run, mark)
    {
      assert MarkOk(lookback, sealed, published, t, run, mark);
    }
    if t.cursor.Some? {
      var r :| r in sealed && r in t.markers && t.markers[r] == Watermark(Some(t.cursor.value.at), t.cursor.value.pk);
      assert r in sealed';
    }
  }

  lemma LoadKeeps(lookback: nat, now: int, sealed: set<string>, t: Table, run: string)
    requires TableInv(lookback, now, sealed, t) && Enabled(lookback, now, sealed, t, LoadBronze(run))
    ensures TableInv(lookback, now, sealed, Apply(lookback, t, LoadBronze(run)))
  {
    var t' := Apply(lookback, t, LoadBronze(run));
    var published, published' := Published(sealed, t.bronze), Published(sealed, t'.bronze);
    LoadedRowsStayPublished(sealed, t, run);
    LoadedBatchOk(t, published, run);
    assert RowsInv(now, published, t');
    RowsOutlive(now, now, published, published', t');
    forall r, m | ExtractedUnder(t', r, m)
      ensures MarkOk(lookback, sealed, published, t', r, m)
    {
      LoadKeepsMark(lookback, sealed, published, t, run, r, m);
    }
    assert MarksInv(lookback, sealed, published, t');
    MarksOutlive(lookback, sealed, sealed, published, published', t');
  }

  // ----- a run completes and publishes -----

  lemma MarkLabels(sealed: set<string>, t: Table, run: string)
    requires SealedOk(sealed, t) && CursorOk(sealed, t.markers, t.cursor)
    requires Enabled(0, 0, sealed, t, Mark(run))
    ensures SealedOk(sealed, t.(markers := t.markers[run := t.bronze[run].capture.mark]))
    ensures CursorOk(sealed, t.markers[run := t.bronze[run].capture.mark], t.cursor)
  {
    if t.cursor.Some? {
      var r :| r in sealed && r in t.markers && t.markers[r] == Watermark(Some(t.cursor.value.at), t.cursor.value.pk);
      assert t.markers[run := t.bronze[run].capture.mark][r] == t.markers[r];
    }
  }

  lemma MarkKeeps(lookback: nat, now: int, sealed: set<string>, t: Table, run: string)
    requires TableInv(lookback, now, sealed, t) && Enabled(lookback, now, sealed, t, Mark(run))
    ensures TableInv(lookback, now, sealed, Apply(lookback, t, Mark(run)))
  {
    var published := Published(sealed, t.bronze);
    var t' := Apply(lookback, t, Mark(run));
    MarkLabels(sealed, t, run);
    forall r, m | ExtractedUnder(t', r, m)
      ensures MarkOk(lookback, sealed, published, t', r, m)
    {
      assert ExtractedUnder(t, r, m);
      assert MarkOk(lookback, sealed, published, t, r, m);
      assert Publishable(sealed, t', r, m) ==> Publishable(sealed, t, r, m);
      assert BronzeUnder(t', r, m) ==> BronzeUnder(t, r, m);
    }
  }

  /** Every row that a sealed run's watermark skips is in published Bronze. */
  lemma PublishedMarkSkipsNothing(lookback: nat, sealed: set<string>, t: Table, run: string)
    requires MarksInv(lookback, sealed, Published(sealed, t.bronze), t) && run in sealed
    ensures run in t.captured
    ensures forall pk :: pk in t.source.rows && Skips(lookback, t.captured[run].mark, t.source.rows[pk].ts, pk) ==>
              t.source.rows[pk] in Published(sealed, t.bronze)
  {
    var published := Published(sealed, t.bronze);
    assert MarkerMatches(t, run);
    var mark := t.captured[run].mark;
    assert ExtractedUnder(t, run, mark) && MarkOk(lookback, sealed, published, t, run, mark);
    assert Covers(lookback, t.source, t.bronze[run].rows, published, mark);
  }

  lemma PublishKeeps(lookback: nat, now: int, sealed: set<string>, t: Table, run: string)
    requires TableInv(lookback, now, sealed, t) && Enabled(lookback, now, sealed, t, Publish(run))
    ensures TableInv(lookback, now, sealed, Apply(lookback, t, Publish(run)))
  {
    var published := Published(sealed, t.bronze);
    var t' := Apply(lookback, t, Publish(run));
    var mark := t.captured[run].mark;
    assert MarkerMatches(t, run);
    PublishedMarkSkipsNothing(lookback, sealed, t, run);
    assert mark.at.Some? ==> t.markers[run] == Watermark(Some(mark.at.value), mark.pk);
    forall r, m | ExtractedUnder(t', r, m)
      ensures MarkOk(lookback, sealed, published, t', r, m)
    {
      assert ExtractedUnder(t, r, m);
      assert MarkOk(lookback, sealed, published, t, r, m);
    }
  }

  // ----- every step keeps the invariant -----

  lemma ChangeKeeps(lookback: nat, now: int, sealed: set<string>, t: Table, change: Change)
    requires TableInv(lookback, now, sealed, t) && Enabled(lookback, now, sealed, t, change)
    ensures TableInv(lookback, now, sealed, Apply(lookback, t, change))
  {
    match change
    case Write(row) =>
      WriteMovesSource(lookback, now, sealed, t, row);
      SourceMovedKeeps(lookback, now, sealed, t, Apply(lookback, t, change).source);
    case Delete(pk) =>
      DeleteMovesSource(lookback, now, sealed, t, pk);
      SourceMovedKeeps(lookback, now, sealed, t, Apply(lookback, t, change).source);
    case CaptureMark(run, mark) => CaptureKeeps(lookback, now, sealed, t, run, mark);
    case Extract(run) => ExtractKeeps(lookback, now, sealed, t, run);
    case LoadBronze(run) => LoadKeeps(lookback, now, sealed, t, run);
    case Mark(run) => MarkKeeps(lookback, now, sealed, t, run);
    case Publish(run) => PublishKeeps(lookback, now, sealed, t, run);
  }

  /** Time passes or a run is sealed. */
  lemma TableOutlives(lookback: nat, now: int, sealed: set<string>, t: Table, now': int, sealed': set<string>)
    requires TableInv(lookback, now, sealed, t) && now <= now' && sealed <= sealed' && SealedOk(sealed', t)
    ensures TableInv(lookback, now', sealed', t)
  {
    var published, published' := Published(sealed, t.bronze), Published(sealed', t.bronze);
    assert published <= published';
    RowsOutlive(now, now', published, published', t);
    MarksOutlive(lookback, sealed, sealed', published, published', t);
  }

  lemma SealKeeps(lookback: nat, now: int, sealed: set<string>, t: Table, run: string)
    requires TableInv(lookback, now, sealed, t) && MarkerMatches(t, run)
    ensures TableInv(lookback, now, sealed + {run}, t)
  {
    assert SealedOk(sealed, t);
    TableOutlives(lookback, now, sealed, t, now, sealed + {run});
  }

  /** The table after a step of the whole system. */
  function TableAfter(lookback: nat, s: State, step: Step, name: string): Table
    requires name in s.tables
  {
    if step.On? && step.table == name then Apply(lookback, s.tables[name], step.change) else s.tables[name]
  }

  lemma StepKeeps(lookback: nat, s: State, step: Step, name: string)
    requires name in s.tables && TableInv(lookback, s.now, s.sealed, s.tables[name])
    requires StepEnabled(lookback, s, step)
    ensures TableInv(lookback, Next(lookback, s, step).now, Next(lookback, s, step).sealed, TableAfter(lookback, s, step, name))
  {
    var t := s.tables[name];
    match step
    case Tick(micros) => TableOutlives(lookback, s.now, s.sealed, t, s.now + micros, s.sealed);
    case On(n, change) => if n == name { ChangeKeeps(lookback, s.now, s.sealed, t, change); }
    case Verify(run) => SealKeeps(lookback, s.now, s.sealed, t, run);
  }

  lemma FollowKeeps(lookback: nat, s: State, s': State, name: string)
    requires name in s.tables && TableInv(lookback, s.now, s.sealed, s.tables[name]) && Follows(lookback, s, s')
    ensures name in s'.tables && TableInv(lookback, s'.now, s'.sealed, s'.tables[name])
  {
    var step :| StepEnabled(lookback, s, step) && s' == Next(lookback, s, step);
    StepKeeps(lookback, s, step, name);
  }

  lemma {:induction false} PathKeeps(lookback: nat, path: seq<State>, name: string)
    requires Path(lookback, path)
    requires var s := path[0]; name in s.tables && TableInv(lookback, s.now, s.sealed, s.tables[name])
    ensures var s' := path[|path| - 1]; name in s'.tables && TableInv(lookback, s'.now, s'.sealed, s'.tables[name])
  {
    if |path| > 1 {
      var n := |path| - 1;
      PathStart(lookback, path);
      PathKeeps(lookback, path[..n], name);
      FollowKeeps(lookback, path[n - 1], path[n], name);
    }
  }

  /** The invariant survives whatever can follow. */
  lemma RunKeeps(lookback: nat, s: State, s': State, name: string)
    requires CanReach(lookback, s, s') && name in s.tables && TableInv(lookback, s.now, s.sealed, s.tables[name])
    ensures name in s'.tables && TableInv(lookback, s'.now, s'.sealed, s'.tables[name])
  {
    var path :| Joins(lookback, path, s, s');
    PathKeeps(lookback, path, name);
  }

  lemma InitialIsInvariant(lookback: nat, s: State, name: string)
    requires Initial(s) && name in s.tables
    ensures TableInv(lookback, s.now, s.sealed, s.tables[name])
  {
    assert InitialTable(s.now, s.tables[name]);
  }
}
