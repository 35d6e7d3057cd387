/** Bronze tables: one run's rows are replaced as a whole, the schema only grows. */
module Bronze {
  import opened Common

  const CORRUPT := "_corrupt_record"

  datatype Column = Column(name: string, kind: string)

  /** A value, or a null of the column's type. */
  datatype Cell = Value(text: string) | Null(kind: string)

  type Record = map<string, Cell>

  /** The rows read from a run's landing files; every record has exactly the frame's columns. */
  datatype Frame = Frame(columns: seq<Column>, rows: seq<Record>)

  datatype Stored = Stored(run: string, cells: Record)

  /** What the catalog holds for one table name; no columns until the table is created. */
  datatype Content = Absent | Present(columns: seq<Column>, rows: seq<Stored>)

  function Names(columns: seq<Column>): set<string> {
    set c | c in columns :: c.name
  }

  predicate DistinctNames(columns: seq<Column>) {
    forall i, j :: 0 <= i < j < |columns| ==> columns[i].name != columns[j].name
  }

  predicate WellFormed(f: Frame) {
    DistinctNames(f.columns) && forall r :: r in f.rows ==> r.Keys == Names(f.columns)
  }

  // ----- schema evolution -----

  /** The frame's columns that the table does not have yet, in frame order. */
  function Missing(have: set<string>, columns: seq<Column>): seq<Column> {
    if columns == [] then []
    else
      var rest := Missing(have, columns[..|columns| - 1]);
      var c := columns[|columns| - 1];
      if c.name in have then rest else rest + [c]
  }

  function Evolved(columns: seq<Column>, f: Frame): seq<Column> {
    columns + Missing(Names(columns), f.columns)
  }

  lemma NamesAppend(a: seq<Column>, b: seq<Column>)
    ensures Names(a + b) == Names(a) + Names(b)
  {
    assert forall c :: c in a + b <==> c in a || c in b;
    forall n | n in Names(a) + Names(b)
      ensures n in Names(a + b)
    {
      if n in Names(a) {
        var c :| c in a && c.name == n;
        assert c in a + b;
      } else {
        var c :| c in b && c.name == n;
        assert c in a + b;
      }
    }
  }

  lemma {:induction false} MissingIsFromFrame(have: set<string>, columns: seq<Column>)
    ensures forall c :: c in Missing(have, columns) <==> c in columns && c.name !in have
  {
    if columns != [] {
      var n := |columns| - 1;
      MissingIsFromFrame(have, columns[..n]);
      assert columns == columns[..n] + [columns[n]];
    }
  }

  /** After some of the missing columns were added, exactly the others are still missing. */
  lemma {:induction false} MissingAfterPrefix(have: set<string>, columns: seq<Column>, k: nat)
    requires DistinctNames(columns) && k <= |Missing(have, columns)|
    ensures Missing(have + Names(Missing(have, columns)[..k]), columns) == Missing(have, columns)[k..]
  {
    if columns != [] {
      var n := |columns| - 1;
      var rest := Missing(have, columns[..n]);
      if k <= |rest| {
        MissingAfterPrefix(have, columns[..n], k);
        LastStaysMissing(have, columns, k);
      } else {
        MissingAfterPrefix(have, columns[..n], |rest|);
        NothingMissingAfterAll(have, columns);
        assert Missing(have, columns)[..k] == Missing(have, columns);
      }
    }
  }

  lemma LastStaysMissing(have: set<string>, columns: seq<Column>, k: nat)
    requires DistinctNames(columns) && columns != [] && k <= |Missing(have, columns[..|columns| - 1])|
    requires var rest := Missing(have, columns[..|columns| - 1]);
             Missing(have + Names(rest[..k]), columns[..|columns| - 1]) == rest[k..]
    ensures Missing(have + Names(Missing(have, columns)[..k]), columns) == Missing(have, columns)[k..]
  {
    var n := |columns| - 1;
    var c := columns[n];
    var rest := Missing(have, columns[..n]);
    LastIsNotAmong(have, columns, k);
    assert Missing(have, columns)[..k] == rest[..k];
    assert Missing(have, columns)[k..] == if c.name in have then rest[k..] else rest[k..] + [c];
  }

  lemma LastIsNotAmong(have: set<string>, columns: seq<Column>, k: nat)
    requires DistinctNames(columns) && columns != [] && k <= |Missing(have, columns[..|columns| - 1])|
    ensures columns[|columns| - 1].name !in Names(Missing(have, columns[..|columns| - 1])[..k])
  {
    var n := |columns| - 1;
    var rest := Missing(have, columns[..n]);
    MissingIsFromFrame(have, columns[..n]);
    forall d | d in rest[..k]
      ensures d.name != columns[n].name
    {
      assert d in rest;
      var i :| 0 <= i < n && columns[..n][i] == d;
    }
  }

  lemma NothingMissingAfterAll(have: set<string>, columns: seq<Column>)
    requires columns != []
    requires var n := |columns| - 1;
             var rest := Missing(have, columns[..n]);
             Missing(have + Names(rest[..|rest|]), columns[..n]) == rest[|rest|..]
    ensures |Missing(have, columns)| > |Missing(have, columns[..|columns| - 1])| ==>
              Missing(have + Names(Missing(have, columns)), columns) == []
  {
    var n := |columns| - 1;
    var c := columns[n];
    var rest := Missing(have, columns[..n]);
    assert rest[..|rest|] == rest && rest[|rest|..] == [];
    NamesOfOneMore(have, rest, c);
    MissingSmaller(have + Names(rest), {c.name}, columns[..n]);
  }

  lemma NamesOfOneMore(have: set<string>, columns: seq<Column>, c: Column)
    ensures have + Names(columns + [c]) == have + Names(columns) + {c.name}
  {
    NamesAppend(columns, [c]);
    assert Names([c]) == {c.name} by { assert c in [c]; }
  }

  lemma EmptyOrMember(columns: seq<Column>)
    ensures columns == [] || exists c :: c in columns
  {
    if columns != [] {
      assert columns[0] in columns;
    }
  }

  lemma MissingSmaller(have: set<string>, more: set<string>, columns: seq<Column>)
    requires Missing(have, columns) == []
    ensures Missing(have + more, columns) == []
  {
    MissingIsFromFrame(have, columns);
    MissingIsFromFrame(have + more, columns);
    EmptyOrMember(Missing(have + more, columns));
  }

  // ----- replacing one run -----

  function Others(rows: seq<Stored>, run: string): seq<Stored> {
    if rows == [] then []
    else
      var rest := Others(rows[..|rows| - 1], run);
      if rows[|rows| - 1].run == run then rest else rest + [rows[|rows| - 1]]
  }

  function OfRun(rows: seq<Stored>, run: string): seq<Stored> {
    if rows == [] then []
    else
      var rest := OfRun(rows[..|rows| - 1], run);
      if rows[|rows| - 1].run == run then rest + [rows[|rows| - 1]] else rest
  }

  /** A source value where the frame has the column, a typed null where it is retired. */
  function Aligned(columns: seq<Column>, r: Record): Record {
    map c | c in columns :: c.name := if c.name in r then r[c.name] else KindOf(columns, c.name)
  }

  function KindOf(columns: seq<Column>, name: string): Cell {
    if columns == [] then Null("")
    else if columns[0].name == name then Null(columns[0].kind)
    else KindOf(columns[1..], name)
  }

  function Tagged(run: string, columns: seq<Column>, rows: seq<Record>): seq<Stored> {
    seq(|rows|, i requires 0 <= i < |rows| => Stored(run, Aligned(columns, rows[i])))
  }

  /** The content after a successful write of the run. */
  function Written(t: Content, run: string, f: Frame): Content {
    match t
    case Absent => Present(f.columns, Tagged(run, f.columns, f.rows))
    case Present(columns, rows) =>
      var evolved := Evolved(columns, f);
      Present(evolved, Others(rows, run) + Tagged(run, evolved, f.rows))
  }

  /** The content after an attempt that died having added `k` of the missing columns. */
  function Interrupted(t: Content, f: Frame, k: nat): Content {
    match t
    case Absent => Absent
    case Present(columns, rows) =>
      var missing := Missing(Names(columns), f.columns);
      Present(columns + missing[..Min(k, |missing|)], rows)
  }

  lemma OthersOfTagged(rows: seq<Stored>, run: string, added: seq<Stored>)
    requires forall s :: s in added ==> s.run == run
    ensures Others(rows + added, run) == Others(rows, run)
    ensures OfRun(rows + added, run) == OfRun(rows, run) + added
  {
    OthersSkip(rows, run, added);
    OfRunTakes(rows, run, added);
  }

  lemma {:induction false} OthersSkip(rows: seq<Stored>, run: string, added: seq<Stored>)
    requires forall s :: s in added ==> s.run == run
    ensures Others(rows + added, run) == Others(rows, run)
  {
    if added == [] {
      assert rows + added == rows;
    } else {
      var n := |added| - 1;
      OthersSkip(rows, run, added[..n]);
      assert (rows + added)[..|rows + added| - 1] == rows + added[..n];
      assert added[n] in added;
    }
  }

  lemma {:induction false} OfRunTakes(rows: seq<Stored>, run: string, added: seq<Stored>)
    requires forall s :: s in added ==> s.run == run
    ensures OfRun(rows + added, run) == OfRun(rows, run) + added
  {
    if added == [] {
      assert rows + added == rows;
    } else {
      var n := |added| - 1;
      OfRunTakes(rows, run, added[..n]);
      assert (rows + added)[..|rows + added| - 1] == rows + added[..n];
      assert added == added[..n] + [added[n]];
      assert added[n] in added;
    }
  }

  lemma {:induction false} OthersTwice(rows: seq<Stored>, run: string)
    ensures Others(Others(rows, run), run) == Others(rows, run)
    ensures OfRun(Others(rows, run), run) == []
  {
    if rows != [] {
      OthersTwice(rows[..|rows| - 1], run);
      var rest := Others(rows[..|rows| - 1], run);
      if rows[|rows| - 1].run != run {
        assert (rest + [rows[|rows| - 1]])[..|rest|] == rest;
      }
    }
  }

  lemma {:induction false} OthersKeepRun(rows: seq<Stored>, run: string, other: string)
    requires run != other
    ensures OfRun(Others(rows, run), other) == OfRun(rows, other)
  {
    if rows != [] {
      OthersKeepRun(rows[..|rows| - 1], run, other);
      var rest := Others(rows[..|rows| - 1], run);
      if rows[|rows| - 1].run != run {
        assert (rest + [rows[|rows| - 1]])[..|rest|] == rest;
      }
    }
  }

  lemma {:induction false} OfRunSkips(rows: seq<Stored>, added: seq<Stored>, run: string, other: string)
    requires run != other && forall s :: s in added ==> s.run == run
    ensures OfRun(rows + added, other) == OfRun(rows, other)
  {
    if added == [] {
      assert rows + added == rows;
    } else {
      var n := |added| - 1;
      OfRunSkips(rows, added[..n], run, other);
      assert (rows + added)[..|rows + added| - 1] == rows + added[..n];
      assert added[n] in added;
    }
  }

  /** A successful write leaves exactly the frame's rows, aligned to the evolved schema, for its run;
      no other run's rows change, no column goes away, and every column the frame no longer has reads
      as a null of that column's type. */
  lemma WrittenReplacesOnlyItsRun(columns: seq<Column>, rows: seq<Stored>, run: string, f: Frame, other: string)
    requires WellFormed(f) && DistinctNames(columns)
    ensures var t := Written(Present(columns, rows), run, f);
            columns <= t.columns && DistinctNames(t.columns) && Names(t.columns) == Names(columns) + Names(f.columns) &&
            OfRun(t.rows, run) == Tagged(run, t.columns, f.rows) &&
            (other != run ==> OfRun(t.rows, other) == OfRun(rows, other)) &&
            (forall c :: c in t.columns ==> c in columns || c in f.columns) &&
            forall i, c :: 0 <= i < |f.rows| && c in t.columns ==>
              c.name in Aligned(t.columns, f.rows[i]) &&
              Aligned(t.columns, f.rows[i])[c.name] == if c.name in Names(f.columns) then f.rows[i][c.name] else Null(c.kind)
  {
    var evolved := Evolved(columns, f);
    var added := Tagged(run, evolved, f.rows);
    OthersTwice(rows, run);
    OthersOfTagged(Others(rows, run), run, added);
    if other != run {
      OfRunSkips(Others(rows, run), added, run, other);
      OthersKeepRun(rows, run, other);
    }
    EvolvedNames(columns, f);
    MissingIsFromFrame(Names(columns), f.columns);
    forall i, c | 0 <= i < |f.rows| && c in evolved
      ensures c.name in Aligned(evolved, f.rows[i])
      ensures Aligned(evolved, f.rows[i])[c.name] == if c.name in Names(f.columns) then f.rows[i][c.name] else Null(c.kind)
    {
      KindOfColumn(evolved, c);
    }
  }

  lemma {:induction false} KindOfColumn(columns: seq<Column>, c: Column)
    requires DistinctNames(columns) && c in columns
    ensures KindOf(columns, c.name) == Null(c.kind)
  {
    if columns[0] != c {
      var i :| 0 <= i < |columns| && columns[i] == c;
      assert columns[1..][i - 1] == c;
      KindOfColumn(columns[1..], c);
    }
  }

  lemma EvolvedNames(columns: seq<Column>, f: Frame)
    requires DistinctNames(columns) && DistinctNames(f.columns)
    ensures DistinctNames(Evolved(columns, f)) && Names(Evolved(columns, f)) == Names(columns) + Names(f.columns)
  {
    var missing := Missing(Names(columns), f.columns);
    NamesAppend(columns, missing);
    MissingIsFromFrame(Names(columns), f.columns);
    MissingDistinct(Names(columns), f.columns);
    assert forall c :: c in columns ==> c.name in Names(columns);
    forall n | n in Names(f.columns)
      ensures n in Names(columns) + Names(missing)
    {
      var c :| c in f.columns && c.name == n;
      assert n !in Names(columns) ==> c in missing;
    }
    forall i, j | 0 <= i < j < |columns + missing|
      ensures (columns + missing)[i].name != (columns + missing)[j].name
    {
      if i < |columns| && j >= |columns| {
        assert missing[j - |columns|] in missing && columns[i] in columns;
      }
    }
  }

  lemma {:induction false} MissingDistinct(have: set<string>, columns: seq<Column>)
    requires DistinctNames(columns)
    ensures DistinctNames(Missing(have, columns))
  {
    if columns != [] {
      var n := |columns| - 1;
      MissingDistinct(have, columns[..n]);
      MissingIsFromFrame(have, columns[..n]);
      var rest := Missing(have, columns[..n]);
      forall i | 0 <= i < |rest|
        ensures rest[i].name != columns[n].name
      {
        assert rest[i] in rest;
        var j :| 0 <= j < n && columns[..n][j] == rest[i];
      }
    }
  }

  // ----- retries -----

  /** One attempt at loading a run: the frame it read, with its own ingestion time in the rows, and
      `Some(k)` if it died after adding k columns. */
  datatype Attempt = Attempt(frame: Frame, died: Option<nat>)

  function Attempts(t: Content, run: string, attempts: seq<Attempt>): Content {
    if attempts == [] then t
    else
      var before := Attempts(t, run, attempts[..|attempts| - 1]);
      var last := attempts[|attempts| - 1];
      match last.died
      case None => Written(before, run, last.frame)
      case Some(k) => Interrupted(before, last.frame, k)
  }

  lemma WriteAfterInterruption(t: Content, run: string, f: Frame, k: nat)
    requires WellFormed(f)
    ensures Written(Interrupted(t, f, k), run, f) == Written(t, run, f)
  {
    if t.Present? {
      var missing := Missing(Names(t.columns), f.columns);
      var added := missing[..Min(k, |missing|)];
      NamesAppend(t.columns, added);
      MissingAfterPrefix(Names(t.columns), f.columns, |added|);
      assert (t.columns + added) + missing[|added|..] == t.columns + missing;
    }
  }

  lemma NothingMissing(columns: seq<Column>, f: Frame)
    requires DistinctNames(f.columns) && Names(f.columns) <= Names(columns)
    ensures Evolved(columns, f) == columns
  {
    MissingIsFromFrame(Names(columns), f.columns);
    EmptyOrMember(Missing(Names(columns), f.columns));
  }

  /** A write of the run undoes an earlier one, whatever rows that had. */
  lemma WriteAfterWrite(t: Content, run: string, f: Frame, f': Frame)
    requires WellFormed(f) && f'.columns == f.columns
    ensures Written(Written(t, run, f'), run, f) == Written(t, run, f)
  {
    var w := Written(t, run, f');
    var base := if t.Absent? then [] else Others(t.rows, run);
    if t.Present? {
      var missing := Missing(Names(t.columns), f.columns);
      MissingAfterPrefix(Names(t.columns), f.columns, |missing|);
      assert missing[..|missing|] == missing;
      NamesAppend(t.columns, missing);
      assert w.columns + [] == w.columns;
      OthersTwice(t.rows, run);
    } else {
      NothingMissing(f.columns, f);
    }
    assert w.rows == base + Tagged(run, w.columns, f'.rows);
    OthersOfTagged(base, run, Tagged(run, w.columns, f'.rows));
  }

  /** Retry-idempotent Bronze: any number of interrupted or repeated attempts, each with rows of its own
      under the same columns, followed by a success leave the table exactly as that success alone would. */
  lemma {:induction false} RetriesEndAsOneWrite(t: Content, run: string, attempts: seq<Attempt>, f: Frame)
    requires WellFormed(f) && forall a :: a in attempts ==> a.frame.columns == f.columns
    ensures Written(Attempts(t, run, attempts), run, f) == Written(t, run, f)
  {
    if attempts != [] {
      var n := |attempts| - 1;
      var before := Attempts(t, run, attempts[..n]);
      RetriesEndAsOneWrite(t, run, attempts[..n], f);
      var last := attempts[n];
      match last.died
      case None => WriteAfterWrite(before, run, f, last.frame);
      case Some(k) =>
        WriteAfterInterruption(before, run, f, k);
        assert Interrupted(before, last.frame, k) == Interrupted(before, f, k);
    }
  }

  // ----- the table and the load -----

  class BronzeTable {
    var content: Content

    constructor ()
      ensures content == Absent
    {
      content := Absent;
    }

    /** `_append_iceberg_with_schema_evolution`; the attempt dies before its `dieBefore`-th ALTER TABLE
        or, when fewer columns are missing, not at all. */
    method ReplaceRun(run: string, f: Frame, dieBefore: Option<nat>) returns (ok: bool)
      requires WellFormed(f)
      modifies this
      ensures f.rows == [] || run == "" ==> !ok && content == old(content)
      ensures ok ==> content == Written(old(content), run, f)
      ensures !ok && f.rows != [] && run != "" ==>
                dieBefore.Some? && content == Interrupted(old(content), f, dieBefore.value)
      ensures dieBefore.None? ==> (ok <==> f.rows != [] && run != "")
    {
      if f.rows == [] || run == "" { return false; }
      if content.Absent? {
        if dieBefore == Some(0) { return false; }
        content := Present(f.columns, Tagged(run, f.columns, f.rows));
        return true;
      }
      var targetNames := Names(content.columns);
      var added: nat := 0;
      for i := 0 to |f.columns|
        invariant content.Present? && content.rows == old(content).rows
        invariant content.columns == old(content).columns + Missing(targetNames, f.columns[..i])
        invariant added == |Missing(targetNames, f.columns[..i])|
        invariant dieBefore.Some? ==> added <= dieBefore.value
      {
        assert f.columns[..i + 1][..i] == f.columns[..i];
        if f.columns[i].name !in targetNames {
          if dieBefore == Some(added) {
            MissingPrefix(targetNames, f.columns, i);
            return false;
          }
          content := content.(columns := content.columns + [f.columns[i]]);
          added := added + 1;
        }
      }
      assert f.columns[..|f.columns|] == f.columns;
      var aligned := Tagged(run, content.columns, f.rows);
      content := content.(rows := Others(content.rows, run) + aligned);
      return true;
    }
  }

  lemma {:induction false} MissingPrefix(have: set<string>, columns: seq<Column>, i: nat)
    requires i < |columns| && columns[i].name !in have
    ensures |Missing(have, columns[..i])| < |Missing(have, columns)|
    ensures Missing(have, columns)[..|Missing(have, columns[..i])|] == Missing(have, columns[..i])
    decreases |columns| - i
  {
    MissingGrows(have, columns, i + 1);
    assert columns[..i + 1][..i] == columns[..i];
  }

  lemma {:induction false} MissingGrows(have: set<string>, columns: seq<Column>, i: nat)
    requires i <= |columns|
    ensures Missing(have, columns[..i]) <= Missing(have, columns)
  {
    if i < |columns| {
      var n := |columns| - 1;
      MissingGrows(have, columns[..n], i);
      assert columns[..n][..i] == columns[..i];
    } else {
      assert columns[..i] == columns;
    }
  }

  predicate IsCorrupt(r: Record) {
    CORRUPT in r && r[CORRUPT].Value?
  }

  function Rows(rows: seq<Record>, corrupt: bool): seq<Record> {
    if rows == [] then []
    else
      var rest := Rows(rows[..|rows| - 1], corrupt);
      if IsCorrupt(rows[|rows| - 1]) == corrupt then rest + [rows[|rows| - 1]] else rest
  }

  function Without(columns: seq<Column>, name: string): seq<Column> {
    if columns == [] then []
    else
      var rest := Without(columns[..|columns| - 1], name);
      if columns[|columns| - 1].name == name then rest else rest + [columns[|columns| - 1]]
  }

  function DropColumn(rows: seq<Record>, name: string): seq<Record> {
    seq(|rows|, i requires 0 <= i < |rows| => rows[i] - {name})
  }

  function CorruptPart(f: Frame): Frame {
    Frame(f.columns, Rows(f.rows, true))
  }

  function ValidPart(f: Frame): Frame {
    if CORRUPT in Names(f.columns) then Frame(Without(f.columns, CORRUPT), DropColumn(Rows(f.rows, false), CORRUPT)) else f
  }

  lemma {:induction false} RowsSplit(rows: seq<Record>)
    ensures |Rows(rows, true)| + |Rows(rows, false)| == |rows|
    ensures multiset(Rows(rows, true)) + multiset(Rows(rows, false)) == multiset(rows)
    ensures forall r :: r in Rows(rows, true) ==> r in rows && IsCorrupt(r)
    ensures forall r :: r in Rows(rows, false) ==> r in rows && !IsCorrupt(r)
  {
    if rows != [] {
      var n := |rows| - 1;
      RowsSplit(rows[..n]);
      assert rows == rows[..n] + [rows[n]];
    }
  }

  lemma {:induction false} WithoutDrops(columns: seq<Column>, name: string)
    requires DistinctNames(columns)
    ensures DistinctNames(Without(columns, name)) && Names(Without(columns, name)) == Names(columns) - {name}
    ensures forall c :: c in Without(columns, name) ==> c in columns
  {
    if columns != [] {
      var n := |columns| - 1;
      WithoutDrops(columns[..n], name);
      var rest := Without(columns[..n], name);
      assert columns == columns[..n] + [columns[n]];
      NamesAppend(columns[..n], [columns[n]]);
      NamesAppend(rest, [columns[n]]);
      forall i | 0 <= i < |rest|
        ensures rest[i].name != columns[n].name
      {
        assert rest[i] in columns[..n];
        var j :| 0 <= j < n && columns[..n][j] == rest[i];
      }
    }
  }

  lemma PartsAreWellFormed(f: Frame)
    requires WellFormed(f)
    ensures WellFormed(CorruptPart(f)) && WellFormed(ValidPart(f))
  {
    RowsSplit(f.rows);
    WithoutDrops(f.columns, CORRUPT);
    var kept := Rows(f.rows, false);
    forall r | r in DropColumn(kept, CORRUPT)
      ensures r.Keys == Names(f.columns) - {CORRUPT}
    {
      var i :| 0 <= i < |kept| && r == kept[i] - {CORRUPT};
      assert kept[i] in f.rows;
    }
  }

  // ----- what is stored of a frame, row by row -----

  /** In order, the positions of exactly the rows whose marker holds a value, or does not. */
  ghost predicate Picks(positions: seq<nat>, rows: seq<Record>, corrupt: bool) {
    (forall k :: 0 <= k < |positions| ==> positions[k] < |rows|) &&
    (forall k, l :: 0 <= k < l < |positions| ==> positions[k] < positions[l]) &&
    (forall i: nat :: i < |rows| ==> (i in positions <==> ((CORRUPT in rows[i] && rows[i][CORRUPT].Value?) <==> corrupt)))
  }

  predicate At(positions: seq<nat>, rows: seq<Record>, picked: seq<Record>) {
    |positions| == |picked| && forall k :: 0 <= k < |picked| ==> positions[k] < |rows| && picked[k] == rows[positions[k]]
  }

  lemma OneMoreAt(positions: seq<nat>, rows: seq<Record>, picked: seq<Record>)
    requires rows != [] && At(positions, rows[..|rows| - 1], picked)
    ensures At(positions, rows, picked) && At(positions + [|rows| - 1], rows, picked + [rows[|rows| - 1]])
  {
  }

  lemma {:induction false} RowsArePicked(rows: seq<Record>, corrupt: bool) returns (positions: seq<nat>)
    ensures Picks(positions, rows, corrupt) && At(positions, rows, Rows(rows, corrupt))
  {
    positions := [];
    if rows != [] {
      var n := |rows| - 1;
      var earlier := RowsArePicked(rows[..n], corrupt);
      positions := if IsCorrupt(rows[n]) == corrupt then earlier + [n] else earlier;
      OneMorePicked(earlier, rows, corrupt);
      OneMoreAt(earlier, rows, Rows(rows[..n], corrupt));
    }
  }

  lemma OneMorePicked(earlier: seq<nat>, rows: seq<Record>, corrupt: bool)
    requires rows != [] && Picks(earlier, rows[..|rows| - 1], corrupt)
    ensures Picks(if IsCorrupt(rows[|rows| - 1]) == corrupt then earlier + [|rows| - 1] else earlier, rows, corrupt)
  {
    var n := |rows| - 1;
    var positions := if IsCorrupt(rows[n]) == corrupt then earlier + [n] else earlier;
    forall i: nat | i < |rows|
      ensures i in positions <==> ((CORRUPT in rows[i] && rows[i][CORRUPT].Value?) <==> corrupt)
    {
      if i < n {
        assert rows[..n][i] == rows[i];
      } else {
        assert i !in earlier;
      }
    }
  }

  /** The run's rows are those at the given positions, in order and with their values; a dropped column has none. */
  ghost predicate HoldsRows(t: Content, run: string, f: Frame, positions: seq<nat>, dropped: set<string>) {
    t.Present? &&
    var stored := OfRun(t.rows, run);
    |stored| == |positions| &&
    forall k, c :: 0 <= k < |positions| && c in f.columns ==> CellHolds(stored[k].cells, f, positions[k], c.name, dropped)
  }

  predicate CellHolds(cells: Record, f: Frame, position: nat, name: string, dropped: set<string>) {
    if name in dropped then name in cells ==> cells[name].Null?
    else position < |f.rows| && name in f.rows[position] && name in cells && cells[name] == f.rows[position][name]
  }

  lemma {:induction false} KindOfIsNull(columns: seq<Column>, name: string)
    ensures KindOf(columns, name).Null?
  {
    if columns != [] {
      KindOfIsNull(columns[1..], name);
    }
  }

  lemma WrittenColumns(t: Content, run: string, f: Frame)
    ensures Written(t, run, f).Present?
    ensures Names(f.columns) <= Names(Written(t, run, f).columns)
  {
    if t.Present? {
      NamesAppend(t.columns, Missing(Names(t.columns), f.columns));
      MissingIsFromFrame(Names(t.columns), f.columns);
    }
  }

  lemma WrittenRows(t: Content, run: string, f: Frame)
    ensures var w := Written(t, run, f);
            w.Present? && OfRun(w.rows, run) == Tagged(run, w.columns, f.rows)
  {
    var w := Written(t, run, f);
    var base := if t.Absent? then [] else Others(t.rows, run);
    if t.Present? {
      OthersTwice(t.rows, run);
    }
    OthersOfTagged(base, run, Tagged(run, w.columns, f.rows));
    assert base + Tagged(run, w.columns, f.rows) == w.rows;
  }

  /** A written cell is the frame's where the frame has the column, and a null elsewhere. */
  lemma WrittenCell(t: Content, run: string, f: Frame, i: nat, name: string)
    requires i < |f.rows|
    ensures var w := Written(t, run, f);
            w.Present? &&
            (name in Names(f.columns) && name in f.rows[i] ==>
               name in Aligned(w.columns, f.rows[i]) && Aligned(w.columns, f.rows[i])[name] == f.rows[i][name]) &&
            (name !in f.rows[i] && name in Aligned(w.columns, f.rows[i]) ==> Aligned(w.columns, f.rows[i])[name].Null?)
  {
    WrittenColumns(t, run, f);
    KindOfIsNull(Written(t, run, f).columns, name);
  }

  lemma QuarantineHolds(t: Content, run: string, f: Frame, positions: seq<nat>)
    requires WellFormed(f) && At(positions, f.rows, Rows(f.rows, true))
    ensures HoldsRows(Written(t, run, CorruptPart(f)), run, f, positions, {})
  {
    var part := CorruptPart(f);
    var w := Written(t, run, part);
    WrittenRows(t, run, part);
    forall k, c | 0 <= k < |positions| && c in f.columns
      ensures CellHolds(OfRun(w.rows, run)[k].cells, f, positions[k], c.name, {})
    {
      WrittenCell(t, run, part, k, c.name);
      assert f.rows[positions[k]] in f.rows && c.name in Names(f.columns);
    }
  }

  lemma ValidRows(f: Frame, positions: seq<nat>)
    requires WellFormed(f) && At(positions, f.rows, Rows(f.rows, false))
    ensures |ValidPart(f).rows| == |positions| && Names(ValidPart(f).columns) == Names(f.columns) - {CORRUPT}
    ensures forall k :: 0 <= k < |positions| ==> ValidPart(f).rows[k] == f.rows[positions[k]] - {CORRUPT}
  {
    if CORRUPT in Names(f.columns) {
      WithoutDrops(f.columns, CORRUPT);
    } else {
      NothingCorrupt(f.rows);
      NothingDropped(f.rows);
    }
  }

  lemma NothingDropped(rows: seq<Record>)
    requires forall r :: r in rows ==> CORRUPT !in r
    ensures forall k :: 0 <= k < |rows| ==> rows[k] - {CORRUPT} == rows[k]
  {
    forall k | 0 <= k < |rows|
      ensures rows[k] - {CORRUPT} == rows[k]
    {
      assert rows[k] in rows;
    }
  }

  lemma {:induction false} NothingCorrupt(rows: seq<Record>)
    requires forall r :: r in rows ==> CORRUPT !in r
    ensures Rows(rows, false) == rows
  {
    if rows != [] {
      NothingCorrupt(rows[..|rows| - 1]);
      assert rows[|rows| - 1] in rows;
    }
  }

  lemma TargetHolds(t: Content, run: string, f: Frame, positions: seq<nat>)
    requires WellFormed(f) && At(positions, f.rows, Rows(f.rows, false))
    ensures HoldsRows(Written(t, run, ValidPart(f)), run, f, positions, {CORRUPT})
  {
    var part := ValidPart(f);
    var w := Written(t, run, part);
    WrittenRows(t, run, part);
    ValidRows(f, positions);
    forall k, c | 0 <= k < |positions| && c in f.columns
      ensures CellHolds(OfRun(w.rows, run)[k].cells, f, positions[k], c.name, {CORRUPT})
    {
      WrittenCell(t, run, part, k, c.name);
      assert f.rows[positions[k]] in f.rows && c.name in Names(f.columns);
    }
  }

  /** Every row of the frame is stored once: in the target, without the marker, or in the quarantine, which
      otherwise stays as it is. */
  ghost predicate StoresExactly(target: Content, quarantine: Content, before: Content, run: string, f: Frame) {
    exists valid: seq<nat>, corrupt: seq<nat> ::
      Picks(valid, f.rows, false) && Picks(corrupt, f.rows, true) && |valid| + |corrupt| == |f.rows| &&
      HoldsRows(target, run, f, valid, {CORRUPT}) &&
      if corrupt == [] then quarantine == before else HoldsRows(quarantine, run, f, corrupt, {})
  }

  lemma IngestedStoresExactly(target: Content, quarantine: Content, run: string, f: Frame)
    requires WellFormed(f) && f.rows != []
    ensures StoresExactly(Ingested(target, run, f), Quarantined(quarantine, run, f), quarantine, run, f)
  {
    var valid := RowsArePicked(f.rows, false);
    var corrupt := RowsArePicked(f.rows, true);
    RowsSplit(f.rows);
    TargetHolds(target, run, f, valid);
    QuarantinedHolds(quarantine, run, f, corrupt);
    StoredWith(Ingested(target, run, f), Quarantined(quarantine, run, f), quarantine, run, f, valid, corrupt);
  }

  lemma StoredWith(target: Content, quarantine: Content, before: Content, run: string, f: Frame, valid: seq<nat>,
                   corrupt: seq<nat>)
    requires Picks(valid, f.rows, false) && Picks(corrupt, f.rows, true) && |valid| + |corrupt| == |f.rows|
    requires HoldsRows(target, run, f, valid, {CORRUPT})
    requires if corrupt == [] then quarantine == before else HoldsRows(quarantine, run, f, corrupt, {})
    ensures StoresExactly(target, quarantine, before, run, f)
  {
  }

  lemma QuarantinedHolds(quarantine: Content, run: string, f: Frame, corrupt: seq<nat>)
    requires WellFormed(f) && f.rows != [] && At(corrupt, f.rows, Rows(f.rows, true))
    ensures if corrupt == [] then Quarantined(quarantine, run, f) == quarantine
            else HoldsRows(Quarantined(quarantine, run, f), run, f, corrupt, {})
  {
    CorruptNeedsMarker(f);
    if corrupt != [] {
      QuarantineHolds(quarantine, run, f, corrupt);
    }
  }

  lemma CorruptNeedsMarker(f: Frame)
    requires WellFormed(f)
    ensures Rows(f.rows, true) != [] ==> CORRUPT in Names(f.columns)
  {
    RowsSplit(f.rows);
    if Rows(f.rows, true) != [] {
      assert Rows(f.rows, true)[0] in Rows(f.rows, true);
      assert Rows(f.rows, true)[0] in f.rows;
    }
  }

  lemma {:induction false} CorruptCount(rows: seq<Record>)
    ensures |Rows(rows, true)| == |set i | 0 <= i < |rows| && CORRUPT in rows[i] && rows[i][CORRUPT].Value?|
  {
    if rows != [] {
      var n := |rows| - 1;
      CorruptCount(rows[..n]);
      var earlier := set i | 0 <= i < n && CORRUPT in rows[..n][i] && rows[..n][i][CORRUPT].Value?;
      var all := set i | 0 <= i < |rows| && CORRUPT in rows[i] && rows[i][CORRUPT].Value?;
      assert all == if IsCorrupt(rows[n]) then earlier + {n} else earlier;
    }
  }

  predicate TooManyErrors(f: Frame, threshold: real)
    requires f.rows != []
  {
    CORRUPT in Names(f.columns) && |Rows(f.rows, true)| as real / |f.rows| as real >= threshold
  }

  predicate HasErrors(f: Frame) {
    CORRUPT in Names(f.columns) && Rows(f.rows, true) != []
  }

  predicate Rejected(run: string, f: Frame, threshold: real) {
    !(0.0 < threshold <= 1.0) || (f.rows != [] && (run == "" || TooManyErrors(f, threshold)))
  }

  /** What `ingest_to_bronze` makes of the quarantine. */
  function Quarantined(t: Content, run: string, f: Frame): Content {
    if f.rows != [] && HasErrors(f) then Written(t, run, CorruptPart(f)) else t
  }

  /** What it makes of the target. */
  function Ingested(t: Content, run: string, f: Frame): Content {
    if f.rows != [] then Written(t, run, ValidPart(f)) else t
  }

  /** Dying in the quarantine write leaves the target alone, dying in the target write a full quarantine. */
  ghost predicate LeftBehind(target: Content, quarantine: Content, target': Content, quarantine': Content, run: string,
                             f: Frame) {
    (HasErrors(f) && target' == target && exists k: nat :: quarantine' == Interrupted(quarantine, CorruptPart(f), k)) ||
    (quarantine' == Quarantined(quarantine, run, f) && exists k: nat :: target' == Interrupted(target, ValidPart(f), k))
  }

  datatype Outcome = Refused | Died | Accepted

  /** `ingest_to_bronze`: every row of an accepted frame ends up either in the run's quarantine rows or,
      without the marker column, in the run's Bronze rows; a rejected frame changes nothing. Either write
      may die between two added columns. */
  method IngestToBronze(run: string, f: Frame, threshold: real, target: BronzeTable, quarantine: BronzeTable,
                        dieInQuarantine: Option<nat>, dieInTarget: Option<nat>)
    returns (outcome: Outcome)
    requires WellFormed(f) && target != quarantine
    modifies target, quarantine
    ensures outcome == Refused <==> Rejected(run, f, threshold)
    ensures outcome == Refused <==>
              !(0.0 < threshold <= 1.0) ||
              (f.rows != [] &&
               (run == "" ||
                (CORRUPT in Names(f.columns) &&
                 |set i | 0 <= i < |f.rows| && CORRUPT in f.rows[i] && f.rows[i][CORRUPT].Value?| as real / |f.rows| as real
                   >= threshold)))
    ensures outcome == Accepted && f.rows != [] ==>
              StoresExactly(target.content, quarantine.content, old(quarantine.content), run, f)
    ensures outcome == Refused ==> target.content == old(target.content) && quarantine.content == old(quarantine.content)
    ensures outcome == Accepted ==>
              target.content == Ingested(old(target.content), run, f) &&
              quarantine.content == Quarantined(old(quarantine.content), run, f)
    ensures outcome == Died ==>
              f.rows != [] && (dieInQuarantine.Some? || dieInTarget.Some?) &&
              LeftBehind(old(target.content), old(quarantine.content), target.content, quarantine.content, run, f)
  {
    CorruptCount(f.rows);
    if !(0.0 < threshold <= 1.0) { return Refused; }
    if f.rows == [] { return Accepted; }
    if run == "" { return Refused; }
    PartsAreWellFormed(f);
    RowsSplit(f.rows);
    if CORRUPT in Names(f.columns) {
      var errors := |Rows(f.rows, true)|;
      if errors as real / |f.rows| as real >= threshold { return Refused; }
      FewErrorsLeaveRows(errors, |f.rows|, threshold);
      if errors > 0 {
        var kept := quarantine.ReplaceRun(run, CorruptPart(f), dieInQuarantine);
        if !kept { return Died; }
      }
    }
    IngestedStoresExactly(target.content, old(quarantine.content), run, f);
    var written := target.ReplaceRun(run, ValidPart(f), dieInTarget);
    return if written then Accepted else Died;
  }

  /** An attempt that stores the run after one that died stores what it would have stored at first. */
  lemma StoredAfterDeath(target: Content, quarantine: Content, target': Content, quarantine': Content, run: string,
                         f: Frame, f': Frame)
    requires WellFormed(f) && WellFormed(f') && f'.columns == f.columns && f.rows != [] && f'.rows != []
    requires LeftBehind(target, quarantine, target', quarantine', run, f') && (HasErrors(f') ==> HasErrors(f))
    ensures Ingested(target', run, f) == Ingested(target, run, f)
    ensures Quarantined(quarantine', run, f) == Quarantined(quarantine, run, f)
  {
    PartsAreWellFormed(f);
    var valid, corrupt := ValidPart(f), CorruptPart(f);
    if k: nat :| target' == Interrupted(target, ValidPart(f'), k) {
      assert Interrupted(target, ValidPart(f'), k) == Interrupted(target, valid, k);
      WriteAfterInterruption(target, run, valid, k);
    }
    if HasErrors(f) {
      WriteAfterWrite(quarantine, run, corrupt, CorruptPart(f'));
      if k: nat :| quarantine' == Interrupted(quarantine, CorruptPart(f'), k) {
        assert Interrupted(quarantine, CorruptPart(f'), k) == Interrupted(quarantine, corrupt, k);
        WriteAfterInterruption(quarantine, run, corrupt, k);
      }
    }
  }

  lemma FewErrorsLeaveRows(errors: nat, total: nat, threshold: real)
    requires 0 < total && errors <= total && threshold <= 1.0
    requires errors as real / total as real < threshold
    ensures errors < total
  {
    assert total as real / total as real == 1.0;
  }
}
