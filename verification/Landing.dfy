/** Landing manifests: what the extractor records, what `validate_manifest` accepts, and which run a
    manifest file belongs to. */
module Landing {
  import opened Common
  import opened CursorWindow
  import opened Text

  const MANIFEST_VERSION := "1.0.0"

  datatype RunPaths = RunPaths(bucket: string, table: string, extractDate: string, runId: string)

  datatype ManifestFile = ManifestFile(path: string, rows: int, md5: string)

  datatype FileStats = FileStats(size: int, rows: int, md5: string)

  datatype Manifest = Manifest(
    version: string,
    runId: string,
    table: string,
    committed: Option<Cursor>,
    high: Watermark,
    minAt: Option<int>,
    maxAt: Option<int>,
    rows: int,
    empty: bool,
    files: seq<ManifestFile>,
    lookbackMinutes: int)

  datatype Violation =
    | UnsupportedVersion
    | EmptyListsFiles
    | EmptyHasRows
    | NoFiles
    | MissingObject(path: string)
    | ChecksumMismatch(path: string)
    | EmptyObject(path: string)
    | RowMismatch(path: string)
    | TotalMismatch
    | TooEarly
    | TooLate
    | WrongIdentity
    | OutsideRun

  // ----- what a valid manifest is -----

  predicate FileMatches(f: ManifestFile, stats: Option<FileStats>) {
    stats.Some? && stats.value.md5 == f.md5 && stats.value.size > 0 && stats.value.rows == f.rows
  }

  /** The oldest timestamp the recorded window allows. */
  function LowerLimit(m: Manifest): Option<int> {
    if m.committed.None? then None
    else Some(m.committed.value.at - if m.lookbackMinutes > 0 then m.lookbackMinutes * MINUTE else 0)
  }

  predicate WithinWindow(m: Manifest) {
    (LowerLimit(m).Some? && m.minAt.Some? ==> m.minAt.value >= LowerLimit(m).value) &&
    (m.high.at.Some? && m.maxAt.Some? ==> m.maxAt.value <= m.high.at.value)
  }

  function RecordedRows(files: seq<ManifestFile>): seq<int> {
    seq(|files|, i requires 0 <= i < |files| => files[i].rows)
  }

  predicate Acceptable(m: Manifest, stats: string -> Option<FileStats>) {
    m.version == MANIFEST_VERSION &&
    if m.empty then m.files == [] && m.rows == 0
    else
      m.files != [] &&
      (forall f :: f in m.files ==> FileMatches(f, stats(f.path))) &&
      Sum(RecordedRows(m.files)) == m.rows &&
      WithinWindow(m)
  }

  // ----- validate_manifest -----

  predicate AllMatch(files: seq<ManifestFile>, stats: string -> Option<FileStats>) {
    forall f :: f in files ==> FileMatches(f, stats(f.path))
  }

  /** Every file is looked at; a mismatch anywhere is reported, and no report means every file matches
      and the rows found add up to the rows recorded per file. */
  method CheckFiles(files: seq<ManifestFile>, stats: string -> Option<FileStats>)
    returns (violations: seq<Violation>, totalRows: int)
    ensures violations == [] <==> AllMatch(files, stats)
    ensures violations == [] ==> totalRows == Sum(RecordedRows(files))
    ensures forall f :: f in files && stats(f.path).None? ==> MissingObject(f.path) in violations
    ensures forall f :: f in files && stats(f.path).Some? && stats(f.path).value.md5 != f.md5 ==>
              ChecksumMismatch(f.path) in violations
    ensures forall f :: f in files && stats(f.path).Some? && stats(f.path).value.size <= 0 ==> EmptyObject(f.path) in violations
    ensures forall f :: f in files && stats(f.path).Some? && stats(f.path).value.rows != f.rows ==>
              RowMismatch(f.path) in violations
  {
    violations, totalRows := [], 0;
    for i := 0 to |files|
      invariant violations == [] <==> AllMatch(files[..i], stats)
      invariant violations == [] ==> totalRows == Sum(RecordedRows(files[..i]))
      invariant forall f :: f in files[..i] && stats(f.path).None? ==> MissingObject(f.path) in violations
      invariant forall f :: f in files[..i] && stats(f.path).Some? && stats(f.path).value.md5 != f.md5 ==>
        ChecksumMismatch(f.path) in violations
      invariant forall f :: f in files[..i] && stats(f.path).Some? && stats(f.path).value.size <= 0 ==>
        EmptyObject(f.path) in violations
      invariant forall f :: f in files[..i] && stats(f.path).Some? && stats(f.path).value.rows != f.rows ==>
        RowMismatch(f.path) in violations
    {
      var f := files[i];
      var found := stats(f.path);
      assert files[..i + 1] == files[..i] + [f];
      assert RecordedRows(files[..i + 1])[..i] == RecordedRows(files[..i]);
      if found.None? {
        violations := violations + [MissingObject(f.path)];
        continue;
      }
      if found.value.md5 != f.md5 {
        violations := violations + [ChecksumMismatch(f.path)];
      }
      if found.value.size <= 0 {
        violations := violations + [EmptyObject(f.path)];
      }
      if found.value.rows != f.rows {
        violations := violations + [RowMismatch(f.path)];
      }
      totalRows := totalRows + found.value.rows;
    }
    assert files[..|files|] == files;
  }

  method ValidateManifest(m: Manifest, stats: string -> Option<FileStats>) returns (violations: seq<Violation>)
    ensures violations == [] <==> Acceptable(m, stats)
  {
    violations := [];
    if m.version != MANIFEST_VERSION {
      violations := violations + [UnsupportedVersion];
    }
    if m.empty {
      if m.files != [] {
        violations := violations + [EmptyListsFiles];
      }
      if m.rows != 0 {
        violations := violations + [EmptyHasRows];
      }
      return;
    }
    if m.files == [] {
      violations := violations + [NoFiles];
      return;
    }
    var fileViolations, totalRows := CheckFiles(m.files, stats);
    violations := violations + fileViolations;
    if totalRows != m.rows {
      violations := violations + [TotalMismatch];
    }
    if m.committed.Some? && m.minAt.Some? {
      var lower := m.committed.value.at - if m.lookbackMinutes > 0 then m.lookbackMinutes * MINUTE else 0;
      if m.minAt.value < lower {
        violations := violations + [TooEarly];
      }
    }
    if m.maxAt.Some? && m.high.at.Some? && m.maxAt.value > m.high.at.value {
      violations := violations + [TooLate];
    }
  }

  // ----- agreement with the extractor -----

  /** The (timestamp, key) pairs that the extractor's aggregate query sees. */
  type Keys = seq<(int, int)>

  function Earliest(keys: Keys): (at: int)
    requires keys != []
    ensures exists i :: 0 <= i < |keys| && keys[i].0 == at
    ensures forall i :: 0 <= i < |keys| ==> at <= keys[i].0
  {
    if |keys| == 1 then keys[0].0 else Min(keys[0].0, Earliest(keys[1..]))
  }

  function Latest(keys: Keys): (at: int)
    requires keys != []
    ensures exists i :: 0 <= i < |keys| && keys[i].0 == at
    ensures forall i :: 0 <= i < |keys| ==> at >= keys[i].0
  {
    if |keys| == 1 then keys[0].0 else Max(keys[0].0, Latest(keys[1..]))
  }

  /** The manifest `extract_one_table` writes: files as written, rows and bounds from a second query. */
  function ExtractedManifest(paths: RunPaths, committed: Option<Cursor>, high: Watermark, lookbackMinutes: nat,
                             keys: Keys, files: seq<ManifestFile>): Manifest {
    if keys == [] then
      Manifest(MANIFEST_VERSION, paths.runId, paths.table, committed, high, None, None, 0, true, [], lookbackMinutes)
    else
      Manifest(MANIFEST_VERSION, paths.runId, paths.table, committed, high, Some(Earliest(keys)), Some(Latest(keys)),
               |keys|, false, files, lookbackMinutes)
  }

  predicate AllInWindow(committed: Option<Cursor>, high: Watermark, lookbackMinutes: nat, keys: Keys) {
    forall i :: 0 <= i < |keys| ==> InWindow(committed, high, lookbackMinutes, keys[i].0, keys[i].1)
  }

  /** A window extract is accepted exactly when its files are as recorded and hold as many rows as the
      aggregate query counted. */
  lemma ExtractAcceptedIffFilesAgree(paths: RunPaths, committed: Option<Cursor>, high: Watermark, lookbackMinutes: nat,
                                     keys: Keys, files: seq<ManifestFile>, stats: string -> Option<FileStats>)
    requires AllInWindow(committed, high, lookbackMinutes, keys)
    ensures Acceptable(ExtractedManifest(paths, committed, high, lookbackMinutes, keys, files), stats) <==>
            keys == [] || (files != [] && AllMatch(files, stats) && Sum(RecordedRows(files)) == |keys|)
    ensures var m := ExtractedManifest(paths, committed, high, lookbackMinutes, keys, files);
            m.runId == paths.runId && m.table == paths.table && m.committed == committed && m.high == high &&
            m.lookbackMinutes == lookbackMinutes && m.rows == |keys| && (m.empty <==> keys == []) &&
            m.files == (if keys == [] then [] else files)
  {
    if keys != [] {
      var m := ExtractedManifest(paths, committed, high, lookbackMinutes, keys, files);
      forall i | 0 <= i < |keys|
        ensures Selected(committed, lookbackMinutes, keys[i].0, keys[i].1) && AtOrBelow(high, keys[i].0, keys[i].1)
      {
        WindowMeaning(committed, high, lookbackMinutes, keys[i].0, keys[i].1);
      }
      assert WithinWindow(m);
    }
  }

  /** Whatever an accepted manifest records, its counted rows lie between the lookback limit and the
      watermark's timestamp. */
  lemma AcceptedRowsAreBounded(paths: RunPaths, committed: Option<Cursor>, high: Watermark, lookbackMinutes: nat,
                               keys: Keys, files: seq<ManifestFile>, stats: string -> Option<FileStats>, i: nat)
    requires Acceptable(ExtractedManifest(paths, committed, high, lookbackMinutes, keys, files), stats) && i < |keys|
    ensures committed.Some? ==> keys[i].0 >= committed.value.at - lookbackMinutes * MINUTE
    ensures high.at.Some? ==> keys[i].0 <= high.at.value
    ensures Sum(RecordedRows(files)) == |keys|
  {
    var m := ExtractedManifest(paths, committed, high, lookbackMinutes, keys, files);
    assert m.minAt == Some(Earliest(keys)) && m.maxAt == Some(Latest(keys));
  }

  // ----- identity and path scope -----

  /** The path segments of a run's data directory. */
  function Segments(p: RunPaths): seq<string> {
    ["landing", "oltp", p.table, "extract_date=" + p.extractDate, "run_id=" + p.runId, "data"]
  }

  function DataPrefix(p: RunPaths): string {
    Join(Segments(p), "/")
  }

  predicate InScope(p: RunPaths, path: string) {
    DataPrefix(p) + "/" <= path && ".." !in Split(path, '/')
  }

  /** `validate_manifest_on_s3` and `read_run_manifest`: identity, then scope, then contents. */
  predicate AcceptedFor(p: RunPaths, m: Manifest, stats: string -> Option<FileStats>) {
    m.runId == p.runId && m.table == p.table && (forall f :: f in m.files ==> InScope(p, f.path)) && Acceptable(m, stats)
  }

  lemma DataPrefixIs(p: RunPaths)
    ensures DataPrefix(p) + "/" ==
              "landing/oltp/" + p.table + "/extract_date=" + p.extractDate + "/run_id=" + p.runId + "/data/"
  {
    var date, run := "extract_date=" + p.extractDate, "run_id=" + p.runId;
    JoinStep("run_id=" + p.runId, ["data"]);
    JoinStep(date, [run, "data"]);
    JoinStep(p.table, [date, run, "data"]);
    JoinStep("oltp", [p.table, date, run, "data"]);
    JoinStep("landing", ["oltp", p.table, date, run, "data"]);
    assert Segments(p) == ["landing"] + ["oltp", p.table, date, run, "data"];
    Flattened(p.table, p.extractDate, p.runId);
  }

  lemma JoinStep(first: string, rest: seq<string>)
    requires rest != []
    ensures Join([first] + rest, "/") == first + "/" + Join(rest, "/")
  {
  }

  lemma Flattened(table: string, date: string, run: string)
    ensures "landing" + "/" + ("oltp" + "/" + (table + "/" + ("extract_date=" + date + "/" + ("run_id=" + run + "/" + "data")))) + "/"
            == "landing/oltp/" + table + "/extract_date=" + date + "/run_id=" + run + "/data/"
  {
  }

  /** What the check asks of a manifest, condition by condition. */
  lemma AcceptedForIff(p: RunPaths, m: Manifest, stats: string -> Option<FileStats>)
    ensures AcceptedFor(p, m, stats) <==>
              m.runId == p.runId && m.table == p.table && m.version == "1.0.0" &&
              (forall f :: f in m.files ==>
                 "landing/oltp/" + p.table + "/extract_date=" + p.extractDate + "/run_id=" + p.runId + "/data/" <= f.path &&
                 ".." !in Split(f.path, '/')) &&
              (m.empty ==> m.files == [] && m.rows == 0) &&
              (!m.empty ==>
                 m.files != [] && Sum(seq(|m.files|, i requires 0 <= i < |m.files| => m.files[i].rows)) == m.rows &&
                 (forall f :: f in m.files ==>
                    stats(f.path).Some? && stats(f.path).value.md5 == f.md5 && stats(f.path).value.rows == f.rows &&
                    stats(f.path).value.size > 0) &&
                 (m.committed.Some? && m.minAt.Some? ==>
                    m.minAt.value >= m.committed.value.at - if m.lookbackMinutes > 0 then m.lookbackMinutes * 60_000_000 else 0) &&
                 (m.maxAt.Some? && m.high.at.Some? ==> m.maxAt.value <= m.high.at.value))
  {
    DataPrefixIs(p);
    assert RecordedRows(m.files) == seq(|m.files|, i requires 0 <= i < |m.files| => m.files[i].rows);
  }

  /** `validate_manifest_on_s3` for a manifest that could be loaded. */
  method ValidateManifestOnS3(p: RunPaths, m: Manifest, stats: string -> Option<FileStats>)
    returns (violations: seq<Violation>)
    ensures violations == [] <==> AcceptedFor(p, m, stats)
  {
    if m.runId != p.runId || m.table != p.table {
      return [WrongIdentity];
    }
    for i := 0 to |m.files|
      invariant forall j :: 0 <= j < i ==> InScope(p, m.files[j].path)
    {
      if !InScope(p, m.files[i].path) {
        return [OutsideRun];
      }
    }
    violations := ValidateManifest(m, stats);
  }

  /** `validate_run` and the verdict of `validate_landing_manifests`: the first manifest that cannot be loaded stops
      the task, otherwise it passes exactly if every table's manifest is accepted for this run. */
  method ValidateRun(bucket: string, tables: seq<string>, extractDate: string, runId: string,
                     manifests: string -> Option<Manifest>, stats: string -> Option<FileStats>)
    returns (found: Option<map<string, seq<Violation>>>, passed: bool)
    ensures found.None? <==> exists i :: 0 <= i < |tables| && manifests(tables[i]).None?
    ensures found.Some? ==> found.value.Keys == set i | 0 <= i < |tables| :: tables[i]
    ensures found.Some? ==> forall t :: t in found.value ==>
              manifests(t).Some? &&
              (found.value[t] == [] <==> AcceptedFor(RunPaths(bucket, t, extractDate, runId), manifests(t).value, stats))
    ensures passed <==> found.Some? && forall t :: t in found.value ==> found.value[t] == []
  {
    var byTable: map<string, seq<Violation>> := map[];
    passed := true;
    for i := 0 to |tables|
      invariant byTable.Keys == set k | 0 <= k < i :: tables[k]
      invariant forall k :: 0 <= k < i ==> manifests(tables[k]).Some?
      invariant forall t :: t in byTable ==>
                  manifests(t).Some? &&
                  (byTable[t] == [] <==> AcceptedFor(RunPaths(bucket, t, extractDate, runId), manifests(t).value, stats))
      invariant passed <==> forall t :: t in byTable ==> byTable[t] == []
    {
      var m := manifests(tables[i]);
      if m.None? {
        return None, false;
      }
      var violations := ValidateManifestOnS3(RunPaths(bucket, tables[i], extractDate, runId), m.value, stats);
      byTable := byTable[tables[i] := violations];
      passed := passed && violations == [];
    }
    return Some(byTable), passed;
  }

  /** A table name, date or run id is a single path segment. */
  predicate OneSegment(s: string) {
    '/' !in s
  }

  predicate PlainPaths(p: RunPaths) {
    OneSegment(p.table) && OneSegment(p.extractDate) && OneSegment(p.runId)
  }

  lemma PrefixSegments(p: RunPaths)
    requires PlainPaths(p)
    ensures Split(DataPrefix(p), '/') == Segments(p)
  {
    forall s | s in Segments(p)
      ensures '/' !in s
    {
      var i :| 0 <= i < |Segments(p)| && Segments(p)[i] == s;
      if i == 3 || i == 4 {
        assert '/' !in "extract_date=" && '/' !in "run_id=";
      }
    }
    SplitJoin(Segments(p), '/');
  }

  lemma ScopedSegments(p: RunPaths, path: string)
    requires PlainPaths(p) && InScope(p, path)
    ensures Segments(p) <= Split(path, '/')
  {
    PrefixSegments(p);
    var rest := path[|DataPrefix(p)| + 1..];
    assert path == DataPrefix(p) + ['/'] + rest;
    SplitAtSeparator(DataPrefix(p), '/', rest);
  }

  /** A landing file can be claimed by the manifest of one run of one table only. */
  lemma FileBelongsToOneRun(p: RunPaths, q: RunPaths, path: string)
    requires PlainPaths(p) && PlainPaths(q) && InScope(p, path) && InScope(q, path)
    ensures p.table == q.table && p.extractDate == q.extractDate && p.runId == q.runId
  {
    ScopedSegments(p, path);
    ScopedSegments(q, path);
    var s := Split(path, '/');
    assert s[2] == p.table && s[2] == q.table;
    assert s[3] == "extract_date=" + p.extractDate && s[3] == "extract_date=" + q.extractDate;
    assert s[4] == "run_id=" + p.runId && s[4] == "run_id=" + q.runId;
    SamePrefix("extract_date=", p.extractDate, q.extractDate);
    SamePrefix("run_id=", p.runId, q.runId);
  }

  lemma SamePrefix(prefix: string, a: string, b: string)
    requires prefix + a == prefix + b
    ensures a == b
  {
    assert a == (prefix + a)[|prefix|..];
    assert b == (prefix + b)[|prefix|..];
  }

  /** Path resolution: empty and "." segments vanish, ".." leaves a directory. */
  function Resolve(segments: seq<string>): seq<string> {
    if segments == [] then []
    else
      var dir := Resolve(segments[..|segments| - 1]);
      var last := segments[|segments| - 1];
      if last == "" || last == "." then dir
      else if last == ".." then if dir == [] then [] else dir[..|dir| - 1]
      else dir + [last]
  }

  lemma {:induction false} ResolveBelow(dir: seq<string>, rest: seq<string>)
    requires ".." !in rest
    ensures Resolve(dir) <= Resolve(dir + rest)
  {
    if rest == [] {
      assert dir + rest == dir;
    } else {
      var n := |rest| - 1;
      ResolveBelow(dir, rest[..n]);
      assert (dir + rest)[..|dir + rest| - 1] == dir + rest[..n];
    }
  }

  /** A path in scope resolves to somewhere below the run's own data directory. */
  lemma ScopedPathStaysBelowRun(p: RunPaths, path: string)
    requires PlainPaths(p) && InScope(p, path)
    ensures Resolve(Split(DataPrefix(p), '/')) <= Resolve(Split(path, '/'))
  {
    PrefixSegments(p);
    ScopedSegments(p, path);
    var s := Split(path, '/');
    var rest := s[|Segments(p)|..];
    assert s == Segments(p) + rest;
    ResolveBelow(Segments(p), rest);
  }
}
