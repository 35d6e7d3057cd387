/** The tasks of the batch DAG as they run over tables, in DAG order: capture, extract, load, publish.
    Each task may die after any number of tables; whatever it leaves behind is a reachable state of
    the protocol. */
module Orchestration {
  import opened Common
  import opened CursorWindow
  import opened Protocol
  import opened ProtocolResults
  import Landing

  /** The body of a `bronze_complete.json` marker. */
  datatype Completion = Completion(run: string, table: string, mark: Watermark)

  predicate Verified(watermarks: map<string, Watermark>, completions: map<string, Completion>, name: string, run: string) {
    name in watermarks && name in completions && completions[name] == Completion(run, name, watermarks[name])
  }

  /** `verified_cursor_advancements`: no cursor is prepared unless every table's completion matches. */
  method VerifiedCursorAdvancements(watermarks: map<string, Watermark>, completions: map<string, Completion>,
                                    names: seq<string>, run: string)
    returns (states: Result<map<string, Cursor>, string>)
    ensures states.Ok? <==> forall name :: name in names ==> Verified(watermarks, completions, name, run)
    ensures states.Ok? ==>
              (forall name :: name in states.value <==> name in names && watermarks[name].at.Some?) &&
              (forall name :: name in states.value ==>
                 completions[name].mark == Watermark(Some(states.value[name].at), states.value[name].pk))
    ensures states.Err? ==> states.error in names && !Verified(watermarks, completions, states.error, run)
  {
    for i := 0 to |names|
      invariant forall j :: 0 <= j < i ==> Verified(watermarks, completions, names[j], run)
    {
      var name := names[i];
      if name !in watermarks || name !in completions || completions[name].run != run
         || completions[name].table != name || completions[name].mark.at != watermarks[name].at
         || completions[name].mark.pk != watermarks[name].pk {
        assert !Verified(watermarks, completions, name, run);
        return Err(name);
      }
    }
    var ready: map<string, Cursor> := map[];
    for i := 0 to |names|
      invariant forall name :: name in ready <==> name in names[..i] && watermarks[name].at.Some?
      invariant forall name :: name in ready ==>
        completions[name].mark == Watermark(Some(ready[name].at), ready[name].pk)
    {
      var mark := watermarks[names[i]];
      if mark.at.Some? {
        ready := ready[names[i] := Cursor(mark.at.value, mark.pk)];
      }
    }
    assert names[..|names|] == names;
    return Ok(ready);
  }

  /** What a run finds in object storage: its manifests and the statistics of any file. */
  datatype Landed = Landed(
    bucket: string,
    extractDate: string,
    manifests: map<string, Landing.Manifest>,
    stats: string -> Option<Landing.FileStats>)

  function Paths(landed: Landed, run: string, name: string): Landing.RunPaths {
    Landing.RunPaths(landed.bucket, name, landed.extractDate, run)
  }

  /** `read_run_manifest` returns rather than raises. */
  predicate Readable(landed: Landed, run: string, name: string) {
    name in landed.manifests && Landing.AcceptedFor(Paths(landed, run, name), landed.manifests[name], landed.stats)
  }

  /** The manifests of the first `n` tables are readable. */
  predicate AllReadable(landed: Landed, run: string, names: seq<string>, n: nat)
    requires n <= |names|
  {
    n == 0 || (AllReadable(landed, run, names, n - 1) && Readable(landed, run, names[n - 1]))
  }

  lemma {:induction false} AllReadableMeans(landed: Landed, run: string, names: seq<string>, n: nat, i: nat)
    requires i < n <= |names| && AllReadable(landed, run, names, n)
    ensures Readable(landed, run, names[i])
  {
    if i < n - 1 {
      AllReadableMeans(landed, run, names, n - 1, i);
    }
  }

  method ReadRunManifest(landed: Landed, run: string, name: string) returns (readable: bool)
    ensures readable == Readable(landed, run, name)
  {
    if name !in landed.manifests { return false; }
    var violations := Landing.ValidateManifestOnS3(Paths(landed, run, name), landed.manifests[name], landed.stats);
    return violations == [];
  }

  // ----- what a finished task leaves in one table -----

  datatype Task =
    | Capturing(marks: map<string, Watermark>)
    | Extracting(lookback: nat)
    | Ingesting
    | Publishing

  /** The task can handle this table. */
  predicate Ready(task: Task, run: string, name: string, t: Table) {
    match task
    case Capturing(marks) => name in marks
    case Extracting(_) => run in t.captured
    case Ingesting => run in t.landing
    case Publishing => run in t.captured
  }

  /** `marks` is what the database answers for this table. */
  predicate Answered(marks: map<string, Watermark>, name: string, t: Table) {
    name in marks && IsHighWatermark(t.source.rows, marks[name])
  }

  function LoadedTable(t: Table, run: string): Table {
    if run !in t.landing then t
    else t.(bronze := t.bronze[run := Batch(LoadedRows(t, run), t.landing[run].capture)])
  }

  function Effect(task: Task, run: string, name: string, t: Table): Table {
    if !Ready(task, run, name, t) then t else
    match task
    case Capturing(marks) => t.(captured := t.captured[run := Capture(marks[name], t.source.rows)])
    case Extracting(lookback) =>
      t.(landing := t.landing[run := Batch(WindowRows(lookback, t, t.captured[run].mark), t.captured[run])])
    case Ingesting => LoadedTable(t, run).(markers := t.markers[run := t.landing[run].capture.mark])
    case Publishing => t.(cursor := PublishedCursor(t.cursor, t.captured[run].mark))
  }

  /** The tables once the task has finished the first `n`. */
  function Touched(before: map<string, Table>, names: seq<string>, n: nat, task: Task, run: string): map<string, Table>
    requires n <= |names|
  {
    if n == 0 then before
    else
      var earlier := Touched(before, names, n - 1, task, run);
      if names[n - 1] in before then earlier[names[n - 1] := Effect(task, run, names[n - 1], before[names[n - 1]])] else earlier
  }

  predicate Distinct(names: seq<string>) {
    names == [] || (names[|names| - 1] !in names[..|names| - 1] && Distinct(names[..|names| - 1]))
  }

  lemma {:induction false} NotAmongFirst(names: seq<string>, n: nat)
    requires Distinct(names) && n < |names|
    ensures names[n] !in names[..n]
  {
    var m := |names| - 1;
    if n < m {
      NotAmongFirst(names[..m], n);
      assert names[..m][..n] == names[..n];
    }
  }

  /** Exactly the first `n` tables have changed, each by the task. */
  lemma {:induction false} TouchedMeans(before: map<string, Table>, names: seq<string>, n: nat, task: Task, run: string)
    requires n <= |names|
    ensures var now := Touched(before, names, n, task, run);
            now.Keys == before.Keys &&
            forall name :: name in before ==>
              now[name] == if name in names[..n] then Effect(task, run, name, before[name]) else before[name]
  {
    if n > 0 {
      TouchedMeans(before, names, n - 1, task, run);
      assert names[..n] == names[..n - 1] + [names[n - 1]];
    }
  }

  lemma NextIsUntouched(before: map<string, Table>, names: seq<string>, n: nat, task: Task, run: string)
    requires Distinct(names) && n < |names| && names[n] in before
    ensures var now := Touched(before, names, n, task, run);
            names[n] in now && now[names[n]] == before[names[n]]
  {
    TouchedMeans(before, names, n, task, run);
    NotAmongFirst(names, n);
  }

  lemma TouchAll(before: map<string, Table>, names: seq<string>, task: Task, run: string)
    requires forall name :: name in names <==> name in before
    ensures var all := Touched(before, names, |names|, task, run);
            all.Keys == before.Keys && forall name :: name in before ==> all[name] == Effect(task, run, name, before[name])
  {
    TouchedMeans(before, names, |names|, task, run);
    assert names[..|names|] == names;
  }

  // ----- what each task does to one table -----

  /** The answer of the database and what it looked at are kept; nothing else changes. */
  predicate CapturedNow(before: Table, after: Table, run: string, mark: Watermark) {
    after.(captured := before.captured) == before && after.captured == before.captured[run := Capture(mark, before.source.rows)]
  }

  /** The run's batch is the window under the current cursor and the captured watermark; nothing else changes. */
  ghost predicate ExtractedNow(lookback: nat, before: Table, after: Table, run: string) {
    run in before.captured && run in after.landing && after.(landing := before.landing) == before &&
    after.landing == before.landing[run := after.landing[run]] && after.landing[run].capture == before.captured[run] &&
    IsWindow(lookback, before.source, before.cursor, before.captured[run].mark, after.landing[run].rows)
  }

  /** The run's Bronze rows are what it extracted, or what they were if that is nothing, and its marker
      carries the watermark of the extraction; nothing else changes. */
  predicate IngestedNow(before: Table, after: Table, run: string) {
    run in before.landing && run in after.bronze &&
    after.(bronze := before.bronze, markers := before.markers) == before &&
    after.bronze == before.bronze[run := after.bronze[run]] &&
    after.bronze[run].capture == before.landing[run].capture &&
    (before.landing[run].rows != {} ==> after.bronze[run].rows == before.landing[run].rows) &&
    (before.landing[run].rows == {} ==>
       after.bronze[run].rows == if run in before.bronze then before.bronze[run].rows else {}) &&
    after.markers == before.markers[run := before.landing[run].capture.mark]
  }

  /** A null watermark leaves the cursor, any other one becomes it; nothing else changes. */
  predicate PublishedNow(before: Table, after: Table, run: string) {
    run in before.captured && after.(cursor := before.cursor) == before &&
    (before.captured[run].mark.at.None? ==> after.cursor == before.cursor) &&
    (before.captured[run].mark.at.Some? ==>
       after.cursor == Some(Cursor(before.captured[run].mark.at.value, before.captured[run].mark.pk)))
  }

  /** The first `n` tables were captured, extracted, ingested or published; the others are as they were,
      but that a stopped ingestion may have loaded the next one. */
  predicate FirstCaptured(before: map<string, Table>, after: map<string, Table>, names: seq<string>, n: nat, run: string,
                          marks: map<string, Watermark>) {
    forall i :: 0 <= i < |names| ==>
      names[i] in before && names[i] in after &&
      if i < n then names[i] in marks && CapturedNow(before[names[i]], after[names[i]], run, marks[names[i]])
      else after[names[i]] == before[names[i]]
  }

  ghost predicate FirstExtracted(lookback: nat, before: map<string, Table>, after: map<string, Table>, names: seq<string>,
                                 n: nat, run: string) {
    forall i :: 0 <= i < |names| ==>
      names[i] in before && names[i] in after &&
      if i < n then ExtractedNow(lookback, before[names[i]], after[names[i]], run) else after[names[i]] == before[names[i]]
  }

  predicate FirstIngested(before: map<string, Table>, after: map<string, Table>, names: seq<string>, n: nat, run: string) {
    forall i :: 0 <= i < |names| ==>
      names[i] in before && names[i] in after &&
      (i < n ==> IngestedNow(before[names[i]], after[names[i]], run)) &&
      (i > n ==> after[names[i]] == before[names[i]])
  }

  predicate FirstPublished(before: map<string, Table>, after: map<string, Table>, names: seq<string>, n: nat, run: string) {
    forall i :: 0 <= i < |names| ==>
      names[i] in before && names[i] in after &&
      if i < n then PublishedNow(before[names[i]], after[names[i]], run) else after[names[i]] == before[names[i]]
  }

  predicate DoneNow(task: Task, run: string, name: string, before: Table, after: Table) {
    match task
    case Capturing(marks) => name in marks && CapturedNow(before, after, run, marks[name])
    case Extracting(_) => run in before.captured
    case Ingesting => IngestedNow(before, after, run)
    case Publishing => PublishedNow(before, after, run)
  }

  lemma EffectIsDone(task: Task, run: string, name: string, t: Table)
    requires Ready(task, run, name, t)
    ensures DoneNow(task, run, name, t, Effect(task, run, name, t))
  {
  }

  lemma EffectExtracts(now: int, lookback: nat, run: string, name: string, t: Table)
    requires run in t.captured && SourceOk(now, t.source)
    ensures ExtractedNow(lookback, t, Effect(Extracting(lookback), run, name, t), run)
  {
    WindowRowsAreTheWindow(now, lookback, t, t.captured[run].mark);
  }

  /** The first `n` tables are done, the others are as they were. */
  lemma TouchedAreDone(before: map<string, Table>, names: seq<string>, n: nat, task: Task, run: string)
    requires Distinct(names) && n <= |names| && forall i :: 0 <= i < |names| ==> names[i] in before
    requires forall i :: 0 <= i < n ==> Ready(task, run, names[i], before[names[i]])
    ensures var now := Touched(before, names, n, task, run);
            (forall i :: 0 <= i < |names| ==> names[i] in now) &&
            (forall i :: 0 <= i < n ==> DoneNow(task, run, names[i], before[names[i]], now[names[i]])) &&
            (forall i :: n <= i < |names| ==> now[names[i]] == before[names[i]])
  {
    TouchedMeans(before, names, n, task, run);
    forall i | 0 <= i < n
      ensures DoneNow(task, run, names[i], before[names[i]], Touched(before, names, n, task, run)[names[i]])
    {
      assert names[i] in names[..n];
      EffectIsDone(task, run, names[i], before[names[i]]);
    }
    forall i | n <= i < |names|
      ensures names[i] !in names[..n]
    {
      LaterIsNotAmongFirst(names, n, i);
    }
  }

  lemma SourcesAreOk(lookback: nat, s: State)
    requires Reachable(lookback, s)
    ensures forall name :: name in s.tables ==> SourceOk(s.now, s.tables[name].source)
  {
    forall name | name in s.tables
      ensures SourceOk(s.now, s.tables[name].source)
    {
      ReachableInvariant(lookback, s, name);
    }
  }

  lemma TouchedAreCaptured(before: map<string, Table>, names: seq<string>, n: nat, run: string, marks: map<string, Watermark>)
    requires Distinct(names) && n <= |names| && forall i :: 0 <= i < |names| ==> names[i] in before && names[i] in marks
    ensures FirstCaptured(before, Touched(before, names, n, Capturing(marks), run), names, n, run, marks)
  {
    TouchedAreDone(before, names, n, Capturing(marks), run);
  }

  lemma TouchedArePublished(before: map<string, Table>, names: seq<string>, n: nat, run: string)
    requires Distinct(names) && n <= |names| && forall i :: 0 <= i < |names| ==> names[i] in before
    requires forall i :: 0 <= i < n ==> run in before[names[i]].captured
    ensures FirstPublished(before, Touched(before, names, n, Publishing, run), names, n, run)
  {
    TouchedAreDone(before, names, n, Publishing, run);
  }

  lemma CommittedArePublished(s: State, names: seq<string>, n: nat, run: string)
    requires Distinct(names) && n <= |names| && forall name :: name in names <==> name in s.tables
    requires n == 0 || MarkersMatch(s, run)
    ensures FirstPublished(s.tables, Touched(s.tables, names, n, Publishing, run), names, n, run)
  {
    forall i | 0 <= i < n
      ensures run in s.tables[names[i]].captured
    {
      assert MarkerMatches(s.tables[names[i]], run);
    }
    TouchedArePublished(s.tables, names, n, run);
  }

  /** The task could handle each of the first `n` tables. */
  predicate AllReady(task: Task, run: string, before: map<string, Table>, names: seq<string>, n: nat)
    requires n <= |names|
  {
    n == 0 ||
    (AllReady(task, run, before, names, n - 1) && names[n - 1] in before &&
     Ready(task, run, names[n - 1], before[names[n - 1]]))
  }

  lemma {:induction false} AllReadyMeans(task: Task, run: string, before: map<string, Table>, names: seq<string>, n: nat)
    requires n <= |names| && AllReady(task, run, before, names, n)
    ensures forall i :: 0 <= i < n ==> names[i] in before && Ready(task, run, names[i], before[names[i]])
  {
    if n > 0 {
      AllReadyMeans(task, run, before, names, n - 1);
    }
  }

  lemma TouchedAreExtracted(lookback: nat, s: State, names: seq<string>, n: nat, run: string)
    requires Distinct(names) && n <= |names| && (forall name :: name in names <==> name in s.tables) && Reachable(lookback, s)
    requires AllReady(Extracting(lookback), run, s.tables, names, n)
    ensures FirstExtracted(lookback, s.tables, Touched(s.tables, names, n, Extracting(lookback), run), names, n, run)
  {
    var before := s.tables;
    SourcesAreOk(lookback, s);
    AllReadyMeans(Extracting(lookback), run, before, names, n);
    TouchedAreDone(before, names, n, Extracting(lookback), run);
    TouchedMeans(before, names, n, Extracting(lookback), run);
    forall i | 0 <= i < n
      ensures ExtractedNow(lookback, before[names[i]], Touched(before, names, n, Extracting(lookback), run)[names[i]], run)
    {
      assert names[i] in names[..n];
      EffectExtracts(s.now, lookback, run, names[i], before[names[i]]);
    }
  }

  lemma StoppedAreIngested(before: map<string, Table>, after: map<string, Table>, names: seq<string>, n: nat, run: string)
    requires Distinct(names) && n <= |names| && forall i :: 0 <= i < |names| ==> names[i] in before
    requires AllReady(Ingesting, run, before, names, n)
    requires StoppedAt(before, after, names, n, run)
    ensures FirstIngested(before, after, names, n, run)
  {
    AllReadyMeans(Ingesting, run, before, names, n);
    TouchedAreDone(before, names, n, Ingesting, run);
    if n < |names| {
      forall i | 0 <= i < |names| && i != n
        ensures names[i] != names[n]
      {
        if i < n {
          NotAmongFirst(names, n);
          assert names[i] in names[..n];
        } else {
          NotAmongFirst(names, i);
          assert names[n] in names[..i];
        }
      }
    }
  }

  lemma LaterIsNotAmongFirst(names: seq<string>, n: nat, i: nat)
    requires Distinct(names) && n <= i < |names|
    ensures names[i] !in names[..n]
  {
    NotAmongFirst(names, i);
    assert names[..n] == names[..i][..n];
  }

  function ExtractedRun(before: map<string, Table>, names: seq<string>, run: string, marks: map<string, Watermark>,
                        lookback: nat): map<string, Table> {
    Touched(Touched(before, names, |names|, Capturing(marks), run), names, |names|, Extracting(lookback), run)
  }

  /** The tables after one run has captured, extracted and loaded all of them. */
  function IngestedRun(before: map<string, Table>, names: seq<string>, run: string, marks: map<string, Watermark>,
                       lookback: nat): map<string, Table> {
    Touched(ExtractedRun(before, names, run, marks, lookback), names, |names|, Ingesting, run)
  }

  /** One table through capture, extract and load: its marker matches and its batch is of this capture. */
  lemma TableRun(t: Table, run: string, name: string, marks: map<string, Watermark>, lookback: nat)
    requires name in marks
    ensures var t' := Effect(Ingesting, run, name, Effect(Extracting(lookback), run, name, Effect(Capturing(marks), run, name, t)));
            MarkerMatches(t', run) && t'.captured[run].mark == marks[name] &&
            t'.source == t.source && t'.cursor == t.cursor &&
            run in t'.bronze && t'.bronze[run].capture.seen == t'.source.rows
  {
  }

  /** Ingestion has finished the first `n` tables and at most loaded the next one. */
  predicate StoppedAt(before: map<string, Table>, after: map<string, Table>, names: seq<string>, n: nat, run: string)
    requires n <= |names|
  {
    var ingested := Touched(before, names, n, Ingesting, run);
    after == ingested ||
    (n < |names| && names[n] in before && after == ingested[names[n] := LoadedTable(before[names[n]], run)])
  }

  /** The newest Bronze version of every source row is that row. */
  ghost predicate BronzeShowsSource(t: Table) {
    var view := NewestPerKey(AllBronze(t.bronze));
    forall pk :: pk in t.source.rows ==> pk in view && view[pk] == t.source.rows[pk]
  }

  ghost predicate TableDone(before: Table, after: Table, mark: Watermark) {
    after.source == before.source && BronzeShowsSource(after) &&
    after.cursor == if mark.at.Some? then Some(Cursor(mark.at.value, mark.pk)) else before.cursor
  }

  ghost predicate BatchDone(before: map<string, Table>, after: map<string, Table>, marks: map<string, Watermark>) {
    after.Keys == before.Keys && after.Keys <= marks.Keys &&
    forall name :: name in after ==> TableDone(before[name], after[name], marks[name])
  }

  lemma CapturedTablesAreReady(before: map<string, Table>, names: seq<string>, run: string, marks: map<string, Watermark>,
                               lookback: nat)
    requires (forall name :: name in names <==> name in before) && forall name :: name in names ==> name in marks
    ensures var after := Touched(before, names, |names|, Capturing(marks), run);
            forall i :: 0 <= i < |names| ==> names[i] in after && Ready(Extracting(lookback), run, names[i], after[names[i]])
  {
    TouchAll(before, names, Capturing(marks), run);
    assert forall i :: 0 <= i < |names| ==> names[i] in names;
  }

  lemma ExtractedTablesAreReady(before: map<string, Table>, names: seq<string>, run: string, marks: map<string, Watermark>,
                                lookback: nat)
    requires (forall name :: name in names <==> name in before) && forall name :: name in names ==> name in marks
    ensures var after := ExtractedRun(before, names, run, marks, lookback);
            forall i :: 0 <= i < |names| ==> names[i] in after && Ready(Ingesting, run, names[i], after[names[i]])
  {
    CapturedTablesAreReady(before, names, run, marks, lookback);
    var captured := Touched(before, names, |names|, Capturing(marks), run);
    TouchAll(before, names, Capturing(marks), run);
    TouchAll(captured, names, Extracting(lookback), run);
    forall i | 0 <= i < |names|
      ensures Ready(Ingesting, run, names[i], ExtractedRun(before, names, run, marks, lookback)[names[i]])
    {
      assert Ready(Extracting(lookback), run, names[i], captured[names[i]]);
    }
  }

  lemma IngestedRunTable(before: map<string, Table>, names: seq<string>, run: string, marks: map<string, Watermark>,
                         lookback: nat, name: string)
    requires (forall n :: n in names <==> n in before) && name in before && name in marks
    ensures var after := IngestedRun(before, names, run, marks, lookback);
            after.Keys == before.Keys && var t := after[name];
            MarkerMatches(t, run) && t.captured[run].mark == marks[name] &&
            t.source == before[name].source && t.cursor == before[name].cursor &&
            run in t.bronze && t.bronze[run].capture.seen == t.source.rows
  {
    var captured := Touched(before, names, |names|, Capturing(marks), run);
    TouchAll(before, names, Capturing(marks), run);
    TouchAll(captured, names, Extracting(lookback), run);
    var extracted := Touched(captured, names, |names|, Extracting(lookback), run);
    TouchAll(extracted, names, Ingesting, run);
    TableRun(before[name], run, name, marks, lookback);
  }

  lemma IngestedRunKeys(before: map<string, Table>, names: seq<string>, run: string, marks: map<string, Watermark>, lookback: nat)
    requires forall n :: n in names <==> n in before
    ensures IngestedRun(before, names, run, marks, lookback).Keys == before.Keys
  {
    TouchAll(before, names, Capturing(marks), run);
    TouchAll(Touched(before, names, |names|, Capturing(marks), run), names, Extracting(lookback), run);
    TouchAll(ExtractedRun(before, names, run, marks, lookback), names, Ingesting, run);
  }

  lemma MarkersMatchAfterIngest(before: map<string, Table>, names: seq<string>, run: string, marks: map<string, Watermark>,
                                lookback: nat, s: State)
    requires (forall n :: n in names <==> n in before) && forall n :: n in names ==> n in marks
    requires s.tables == IngestedRun(before, names, run, marks, lookback)
    ensures MarkersMatch(s, run)
  {
    IngestedRunKeys(before, names, run, marks, lookback);
    forall name | name in s.tables
      ensures MarkerMatches(s.tables[name], run)
    {
      IngestedRunTable(before, names, run, marks, lookback, name);
    }
  }

  lemma BatchIsDone(before: map<string, Table>, names: seq<string>, run: string, marks: map<string, Watermark>,
                    lookback: nat, s: State)
    requires (forall n :: n in names <==> n in before) && forall n :: n in names ==> n in marks
    requires s.tables == Touched(IngestedRun(before, names, run, marks, lookback), names, |names|, Publishing, run)
    requires Reachable(lookback, s)
    ensures BatchDone(before, s.tables, marks)
  {
    var ingested := IngestedRun(before, names, run, marks, lookback);
    IngestedRunKeys(before, names, run, marks, lookback);
    TouchAll(ingested, names, Publishing, run);
    forall name | name in s.tables
      ensures TableDone(before[name], s.tables[name], marks[name])
    {
      IngestedRunTable(before, names, run, marks, lookback, name);
      PublishingLeaves(ingested[name], run, name);
      LoadedRunAgreesWithSource(lookback, s, name, run);
    }
  }

  lemma PublishingLeaves(t: Table, run: string, name: string)
    requires run in t.captured
    ensures var t' := Effect(Publishing, run, name, t);
            t'.source == t.source && t'.bronze == t.bronze && t'.cursor == PublishedCursor(t.cursor, t.captured[run].mark)
  {
  }

  class Pipeline {
    const names: seq<string>
    const lookback: nat
    var now: int
    var tables: map<string, Table>
    ghost var sealed: set<string>

    ghost function View(): State
      reads this
    {
      State(now, tables, sealed)
    }

    /** The configuration lists each table once, and the system is in a reachable state. */
    ghost predicate Valid()
      reads this
    {
      Distinct(names) && (forall name :: name in names <==> name in tables) && Reachable(lookback, View())
    }

    constructor (names: seq<string>, lookback: nat, now: int, tables: map<string, Table>)
      requires Distinct(names) && forall name :: name in names <==> name in tables
      requires Initial(State(now, tables, {}))
      ensures Valid() && View() == State(now, tables, {}) && this.names == names && this.lookback == lookback
    {
      this.names, this.lookback, this.now, this.tables, this.sealed := names, lookback, now, tables, {};
      new;
      StaysReached(lookback, View());
    }

    /** One change of one table. */
    method Do(name: string, change: Change)
      requires Valid() && StepEnabled(lookback, View(), On(name, change))
      modifies this`tables
      ensures Valid() && tables == old(tables)[name := Apply(lookback, old(tables)[name], change)]
    {
      StepReaches(lookback, View(), On(name, change));
      tables := tables[name := Apply(lookback, tables[name], change)];
    }

    /** The tables before the i-th have been captured, now this one is too. */
    method CaptureOneTable(i: nat, run: string, marks: map<string, Watermark>, ghost before: map<string, Table>)
      requires Valid() && run !in sealed && i < |names| && names[i] in before && Answered(marks, names[i], before[names[i]])
      requires tables == Touched(before, names, i, Capturing(marks), run)
      modifies this`tables
      ensures Valid() && tables == Touched(before, names, i + 1, Capturing(marks), run)
    {
      NextIsUntouched(before, names, i, Capturing(marks), run);
      Do(names[i], CaptureMark(run, marks[names[i]]));
    }

    /** `capture_high_watermarks`; `marks` is what the database answers for each table. */
    method CaptureHighWatermarks(run: string, marks: map<string, Watermark>, dieAfter: nat) returns (finished: nat)
      requires Valid() && run !in sealed
      requires forall name :: name in names ==> Answered(marks, name, tables[name])
      modifies this`tables
      ensures Valid() && finished == Min(dieAfter, |names|)
      ensures tables == Touched(old(tables), names, finished, Capturing(marks), run)
      ensures FirstCaptured(old(tables), tables, names, finished, run, marks)
    {
      ghost var before := tables;
      finished := Min(dieAfter, |names|);
      for i := 0 to finished
        invariant Valid() && tables == Touched(before, names, i, Capturing(marks), run)
      {
        CaptureOneTable(i, run, marks, before);
      }
      assert forall i :: 0 <= i < |names| ==> Answered(marks, names[i], before[names[i]]);
      TouchedAreCaptured(before, names, finished, run, marks);
    }

    method ExtractOneTable(name: string, run: string)
      requires Valid() && run !in sealed && name in names && run in tables[name].captured
      modifies this`tables
      ensures Valid() && tables == old(tables)[name := Effect(Extracting(lookback), run, name, old(tables)[name])]
      ensures ExtractedNow(lookback, old(tables)[name], tables[name], run)
    {
      ReachableInvariant(lookback, View(), name);
      EffectExtracts(now, lookback, run, name, tables[name]);
      Do(name, Extract(run));
    }

    /** The tables before the i-th have been extracted; a missing watermark leaves it at that. */
    method ExtractNext(i: nat, run: string, ghost before: map<string, Table>) returns (extracted: bool)
      requires Valid() && run !in sealed && i < |names| && names[i] in before
      requires tables == Touched(before, names, i, Extracting(lookback), run)
      modifies this`tables
      ensures Valid() && (extracted <==> Ready(Extracting(lookback), run, names[i], before[names[i]]))
      ensures tables == Touched(before, names, if extracted then i + 1 else i, Extracting(lookback), run)
    {
      NextIsUntouched(before, names, i, Extracting(lookback), run);
      extracted := run in tables[names[i]].captured;
      if extracted {
        ExtractOneTable(names[i], run);
      }
    }

    /** `run_extract`: tables are read under their current cursors; a table without a captured watermark
        stops the task. */
    method RunExtract(run: string, dieAfter: nat) returns (finished: nat)
      requires Valid() && run !in sealed
      modifies this`tables
      ensures Valid() && finished <= |names|
      ensures finished < |names| ==>
                finished == dieAfter || !Ready(Extracting(lookback), run, names[finished], old(tables)[names[finished]])
      ensures tables == Touched(old(tables), names, finished, Extracting(lookback), run)
      ensures FirstExtracted(lookback, old(tables), tables, names, finished, run)
    {
      ghost var before := tables;
      ghost var start := View();
      finished := 0;
      while finished < |names| && finished != dieAfter
        invariant Valid() && finished <= |names|
        invariant tables == Touched(before, names, finished, Extracting(lookback), run)
        invariant AllReady(Extracting(lookback), run, before, names, finished)
      {
        var extracted := ExtractNext(finished, run, before);
        if !extracted { break; }
        finished := finished + 1;
      }
      TouchedAreExtracted(lookback, start, names, finished, run);
    }

    /** One table of `ingest_bronze_tables`: its marker is written only after its rows are in Bronze. */
    method IngestTable(name: string, run: string, die: bool)
      requires Valid() && run !in sealed && name in names && run in tables[name].landing
      modifies this`tables
      ensures Valid()
      ensures tables == old(tables)[name :=
                if die then LoadedTable(old(tables)[name], run) else Effect(Ingesting, run, name, old(tables)[name])]
    {
      Do(name, LoadBronze(run));
      if !die {
        Do(name, Mark(run));
      }
    }

    /** The tables before the i-th are complete; this one completes, or is left as it was or without a marker. */
    method IngestNext(i: nat, run: string, readable: bool, die: bool, ghost before: map<string, Table>)
      returns (complete: bool)
      requires Valid() && run !in sealed && i < |names| && names[i] in before
      requires tables == Touched(before, names, i, Ingesting, run)
      modifies this`tables
      ensures Valid() && (complete <==> !die && readable && Ready(Ingesting, run, names[i], before[names[i]]))
      ensures complete ==> tables == Touched(before, names, i + 1, Ingesting, run)
      ensures !complete ==> StoppedAt(before, tables, names, i, run)
    {
      NextIsUntouched(before, names, i, Ingesting, run);
      complete := readable && run in tables[names[i]].landing;
      if complete {
        IngestTable(names[i], run, die);
        complete := !die;
      }
    }

    method IngestTables(run: string, landed: Landed, dieAfter: nat) returns (finished: nat)
      requires Valid() && run !in sealed
      modifies this`tables
      ensures Valid() && finished <= |names|
      ensures AllReadable(landed, run, names, finished)
      ensures finished < |names| ==>
                finished == dieAfter || !Ready(Ingesting, run, names[finished], old(tables)[names[finished]]) ||
                !Readable(landed, run, names[finished])
      ensures StoppedAt(old(tables), tables, names, finished, run)
      ensures AllReady(Ingesting, run, old(tables), names, finished)
    {
      ghost var before := tables;
      finished := 0;
      while finished < |names|
        invariant Valid() && finished <= |names|
        invariant AllReadable(landed, run, names, finished)
        invariant tables == Touched(before, names, finished, Ingesting, run)
        invariant AllReady(Ingesting, run, before, names, finished)
      {
        var readable := ReadRunManifest(landed, run, names[finished]);
        var complete := IngestNext(finished, run, readable, finished == dieAfter, before);
        if !complete { break; }
        finished := finished + 1;
      }
    }

    /** `ingest_bronze_tables`: a missing or invalid manifest stops the task. Finished tables hold the
        run's rows and marker, at most one more holds rows without a marker, the rest are untouched. */
    method IngestBronzeTables(run: string, landed: Landed, dieAfter: nat) returns (finished: nat)
      requires Valid() && run !in sealed
      modifies this`tables
      ensures Valid() && finished <= |names|
      ensures AllReadable(landed, run, names, finished)
      ensures finished < |names| ==>
                finished == dieAfter || !Ready(Ingesting, run, names[finished], old(tables)[names[finished]]) ||
                !Readable(landed, run, names[finished])
      ensures StoppedAt(old(tables), tables, names, finished, run)
      ensures FirstIngested(old(tables), tables, names, finished, run)
    {
      ghost var before := tables;
      finished := IngestTables(run, landed, dieAfter);
      StoppedAreIngested(before, tables, names, finished, run);
    }

    /** Every table's completion marker, or nothing when one is missing. */
    method FetchCompletions(run: string) returns (completions: Option<map<string, Completion>>)
      requires Valid()
      ensures completions.None? <==> exists name :: name in names && run !in tables[name].markers
      ensures completions.Some? ==>
                forall name :: name in names ==>
                  name in completions.value && completions.value[name] == Completion(run, name, tables[name].markers[run])
    {
      var found: map<string, Completion> := map[];
      for i := 0 to |names|
        invariant forall j :: 0 <= j < i ==>
          run in tables[names[j]].markers &&
          names[j] in found && found[names[j]] == Completion(run, names[j], tables[names[j]].markers[run])
      {
        if run !in tables[names[i]].markers { return None; }
        found := found[names[i] := Completion(run, names[i], tables[names[i]].markers[run])];
      }
      return Some(found);
    }

    /** A table without a prepared cursor keeps the one it has. */
    method WriteCursor(name: string, run: string, prepared: bool)
      requires Valid() && run in sealed && name in names && run in tables[name].captured
      requires prepared <==> tables[name].captured[run].mark.at.Some?
      modifies this`tables
      ensures Valid() && tables == old(tables)[name := Effect(Publishing, run, name, old(tables)[name])]
    {
      if prepared {
        Do(name, Publish(run));
      } else {
        assert tables[name := tables[name]] == tables;
      }
    }

    /** Writes the prepared cursors one object at a time. */
    method WriteCursors(run: string, states: map<string, Cursor>, dieAfter: nat) returns (finished: nat)
      requires Valid() && run in sealed
      requires forall name :: name in names ==>
                 run in tables[name].captured && (name in states <==> tables[name].captured[run].mark.at.Some?)
      modifies this`tables
      ensures Valid() && finished == Min(dieAfter, |names|)
      ensures tables == Touched(old(tables), names, finished, Publishing, run)
      ensures FirstPublished(old(tables), tables, names, finished, run)
    {
      ghost var before := tables;
      finished := Min(dieAfter, |names|);
      for i := 0 to finished
        invariant Valid() && tables == Touched(before, names, i, Publishing, run)
      {
        NextIsUntouched(before, names, i, Publishing, run);
        WriteCursor(names[i], run, names[i] in states);
      }
      TouchedArePublished(before, names, finished, run);
    }

    method PublishVerified(run: string, dieAfter: nat) returns (finished: nat)
      requires Valid()
      modifies this`tables, this`sealed
      ensures Valid()
      ensures finished == if MarkersMatch(old(View()), run) then Min(dieAfter, |names|) else 0
      ensures sealed == old(sealed) + if MarkersMatch(old(View()), run) then {run} else {}
      ensures tables == Touched(old(tables), names, finished, Publishing, run)
    {
      var watermarks := map name | name in tables && run in tables[name].captured :: tables[name].captured[run].mark;
      var completions := FetchCompletions(run);
      if completions.None? {
        assert exists name :: name in tables && !MarkerMatches(tables[name], run);
        return 0;
      }
      var states := VerifiedCursorAdvancements(watermarks, completions.value, names, run);
      if states.Err? {
        assert !MarkerMatches(tables[states.error], run);
        return 0;
      }
      AllVerifiedMatch(watermarks, completions.value, run);
      StepReaches(lookback, View(), Verify(run));
      sealed := sealed + {run};
      finished := WriteCursors(run, states.value, dieAfter);
    }

    /** `commit_cursors`: markers are fetched and verified for every table before the first cursor is
        written. One mismatch moves no cursor; a crash leaves a prefix of the cursors published. */
    method CommitCursors(run: string, dieAfter: nat) returns (finished: nat)
      requires Valid()
      modifies this`tables, this`sealed
      ensures Valid()
      ensures finished == if MarkersMatch(old(View()), run) then Min(dieAfter, |names|) else 0
      ensures sealed == old(sealed) + if MarkersMatch(old(View()), run) then {run} else {}
      ensures tables == Touched(old(tables), names, finished, Publishing, run)
      ensures FirstPublished(old(tables), tables, names, finished, run)
    {
      ghost var before := View();
      finished := PublishVerified(run, dieAfter);
      CommittedArePublished(before, names, finished, run);
    }

    /** One uninterrupted DAG run over a source that stands still and intact landing files: every cursor becomes the captured
        watermark, and the newest Bronze version of every source row is that row, whatever earlier
        runs left behind. */
    method RunBatch(run: string, marks: map<string, Watermark>, landed: Landed)
      requires Valid() && run !in sealed && AllReadable(landed, run, names, |names|)
      requires forall name :: name in names ==> Answered(marks, name, tables[name])
      modifies this`tables, this`sealed
      ensures Valid() && BatchDone(old(tables), tables, marks)
    {
      LoadRun(run, marks, landed);
      MarkersMatchAfterIngest(old(tables), names, run, marks, lookback, View());
      var done := CommitCursors(run, |names|);
      BatchIsDone(old(tables), names, run, marks, lookback, View());
    }

    method ExtractRun(run: string, marks: map<string, Watermark>)
      requires Valid() && run !in sealed
      requires forall name :: name in names ==> Answered(marks, name, tables[name])
      modifies this`tables
      ensures Valid() && tables == ExtractedRun(old(tables), names, run, marks, lookback)
    {
      var done := CaptureHighWatermarks(run, marks, |names|);
      CapturedTablesAreReady(old(tables), names, run, marks, lookback);
      done := RunExtract(run, |names|);
    }

    method LoadRun(run: string, marks: map<string, Watermark>, landed: Landed)
      requires Valid() && run !in sealed && AllReadable(landed, run, names, |names|)
      requires forall name :: name in names ==> Answered(marks, name, tables[name])
      modifies this`tables
      ensures Valid() && tables == IngestedRun(old(tables), names, run, marks, lookback)
    {
      ExtractRun(run, marks);
      ExtractedTablesAreReady(old(tables), names, run, marks, lookback);
      IngestAll(run, landed);
    }

    method IngestAll(run: string, landed: Landed)
      requires Valid() && run !in sealed && AllReadable(landed, run, names, |names|)
      requires forall i :: 0 <= i < |names| ==> Ready(Ingesting, run, names[i], tables[names[i]])
      modifies this`tables
      ensures Valid() && tables == Touched(old(tables), names, |names|, Ingesting, run)
    {
      var finished := IngestTables(run, landed, |names|);
      if finished < |names| {
        AllReadableMeans(landed, run, names, |names|, finished);
      }
    }

    lemma AllVerifiedMatch(watermarks: map<string, Watermark>, completions: map<string, Completion>, run: string)
      requires Valid()
      requires forall name :: name in watermarks ==>
                 name in tables && run in tables[name].captured && watermarks[name] == tables[name].captured[run].mark
      requires forall name :: name in names ==>
                 run in tables[name].markers && name in completions &&
                 completions[name] == Completion(run, name, tables[name].markers[run])
      requires forall name :: name in names ==> Verified(watermarks, completions, name, run)
      ensures MarkersMatch(View(), run)
    {
      forall name | name in tables
        ensures MarkerMatches(tables[name], run)
      {
        assert Verified(watermarks, completions, name, run);
      }
    }
  }
}
