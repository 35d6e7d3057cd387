/** How rows become batched INSERT statements, whatever prints one row. */
module SqlWriter {
  import opened Common
  import opened Text

  /** What a printer makes of every row. */
  function Texts<R>(rows: seq<R>, printer: R -> string): seq<string> {
    seq(|rows|, i requires 0 <= i < |rows| => printer(rows[i]))
  }

  function Backticked(names: seq<string>): seq<string> {
    seq(|names|, i requires 0 <= i < |names| => "`" + names[i] + "`")
  }

  function InsertHead(table: string, columns: seq<string>): string {
    "INSERT INTO `" + table + "` (" + Join(Backticked(columns), ", ") + ") VALUES\n"
  }

  function InsertText(table: string, columns: seq<string>, texts: seq<string>): string {
    if texts == [] then ""
    else InsertHead(table, columns) + Join(texts, ",\n") + ";\n\n"
  }

  /** The slice `values[start : start + size]`, which Python cuts at the end. */
  function Chunk<T>(values: seq<T>, size: nat, start: nat): seq<T>
    requires start < |values|
  {
    values[start..Min(start + size, |values|)]
  }

  /** The inserts for the chunks that begin at `start`, `start + size`, ... */
  function ChunksText(table: string, columns: seq<string>, texts: seq<string>, size: nat, start: nat): string
    requires size > 0
    decreases |texts| - start
  {
    if start >= |texts| then ""
    else InsertText(table, columns, Chunk(texts, size, start)) + ChunksText(table, columns, texts, size, start + size)
  }

  function Suffix(count: nat, i: nat): string {
    if i == count - 1 then ";\n\n" else ",\n"
  }

  function Suffixed(texts: seq<string>, n: nat): string
    requires n <= |texts|
  {
    if n == 0 then "" else Suffixed(texts, n - 1) + (texts[n - 1] + Suffix(|texts|, n - 1))
  }

  lemma {:induction false} SuffixedIsJoined(texts: seq<string>, n: nat)
    requires 0 < n <= |texts|
    ensures Suffixed(texts, n) == Join(texts[..n], ",\n") + Suffix(|texts|, n - 1)
  {
    var last := texts[n - 1];
    if n == 1 {
      assert texts[..1] == [last];
      assert Suffixed(texts, 1) == last + Suffix(|texts|, 0);
    } else {
      SuffixedIsJoined(texts, n - 1);
      var earlier := texts[..n - 1];
      JoinAppend(earlier, ",\n", last);
      assert texts[..n] == earlier + [last];
      assert Suffix(|texts|, n - 2) == ",\n";
      Regroup(Join(earlier, ",\n") + ",\n", last, Suffix(|texts|, n - 1));
    }
  }

  lemma Regroup(a: string, b: string, c: string)
    ensures a + (b + c) == a + b + c
  {
  }

  lemma {:induction false} JoinAppend(parts: seq<string>, sep: string, last: string)
    requires parts != []
    ensures Join(parts + [last], sep) == Join(parts, sep) + sep + last
  {
    if |parts| > 1 {
      JoinAppend(parts[1..], sep, last);
      assert (parts + [last])[1..] == parts[1..] + [last];
    }
  }

  /** The text stream the exporter writes to. */
  datatype Stream = Stream(text: string)

  function Write(stream: Stream, text: string): Stream {
    Stream(stream.text + text)
  }

  /** `_write_insert`; `printer` prints one row. */
  method WriteInsert<R>(stream: Stream, table: string, columns: seq<string>, rows: seq<R>, printer: R -> string)
    returns (written: Stream)
    ensures written == Write(stream, InsertText(table, columns, Texts(rows, printer)))
  {
    if rows == [] {
      assert stream.text + "" == stream.text;
      return stream;
    }
    ghost var texts := Texts(rows, printer);
    var text := stream.text;
    var head := InsertHead(table, columns);
    written := Write(stream, head);
    for i := 0 to |rows|
      invariant written.text == text + head + Suffixed(texts, i)
    {
      var line := printer(rows[i]) + Suffix(|rows|, i);
      Regroup(text + head, Suffixed(texts, i), line);
      written := Write(written, line);
    }
    SuffixedIsJoined(texts, |texts|);
    assert texts[..|texts|] == texts;
    InsertTextParts(table, columns, texts, text);
  }

  lemma InsertTextParts(table: string, columns: seq<string>, texts: seq<string>, stream: string)
    requires texts != []
    ensures stream + InsertText(table, columns, texts) ==
            stream + InsertHead(table, columns) + (Join(texts, ",\n") + ";\n\n")
  {
    Regroup(InsertHead(table, columns), Join(texts, ",\n"), ";\n\n");
    Regroup(stream, InsertHead(table, columns), Join(texts, ",\n") + ";\n\n");
  }

  /** What a call of `_write_batched` is to write. */
  datatype Job = Job(table: string, columns: seq<string>, texts: seq<string>, size: nat)

  function Rest(job: Job, start: nat): string {
    if job.size == 0 then "" else ChunksText(job.table, job.columns, job.texts, job.size, start)
  }

  lemma RestNext(stream: Stream, job: Job, start: nat, all: Stream)
    requires job.size > 0 && start < |job.texts| && Write(stream, Rest(job, start)) == all
    ensures Write(Write(stream, InsertText(job.table, job.columns, Chunk(job.texts, job.size, start))),
                  Rest(job, start + job.size)) == all
  {
    Regroup(stream.text, InsertText(job.table, job.columns, Chunk(job.texts, job.size, start)),
            Rest(job, start + job.size));
  }

  lemma RestIsEmpty(stream: Stream, job: Job, start: nat, all: Stream)
    requires start >= |job.texts| && Write(stream, Rest(job, start)) == all
    ensures stream == all
  {
    assert stream.text + "" == stream.text;
  }

  lemma ChunkOfTexts<R>(rows: seq<R>, printer: R -> string, size: nat, start: nat)
    requires start < |rows|
    ensures Texts(Chunk(rows, size, start), printer) == Chunk(Texts(rows, printer), size, start)
  {
  }

  /** One turn of the loop over the chunks. */
  method WriteChunk<R>(stream: Stream, table: string, columns: seq<string>, rows: seq<R>, printer: R -> string,
                       size: nat, start: nat, ghost job: Job, ghost all: Stream) returns (written: Stream)
    requires size > 0 && start < |rows| && job == Job(table, columns, Texts(rows, printer), size)
    requires Write(stream, Rest(job, start)) == all
    ensures Write(written, Rest(job, start + size)) == all
  {
    RestNext(stream, job, start, all);
    ChunkOfTexts(rows, printer, size, start);
    written := WriteInsert(stream, table, columns, Chunk(rows, size, start), printer);
  }

  /** `_write_batched` over `_chunks`. */
  method WriteBatched<R>(stream: Stream, table: string, columns: seq<string>, rows: seq<R>, printer: R -> string,
                         size: nat) returns (written: Stream)
    requires size > 0
    ensures written == Write(stream, Rest(Job(table, columns, Texts(rows, printer), size), 0))
  {
    ghost var job := Job(table, columns, Texts(rows, printer), size);
    ghost var all := Write(stream, Rest(job, 0));
    written := stream;
    var start := 0;
    while start < |rows|
      invariant Write(written, Rest(job, start)) == all
    {
      written := WriteChunk(written, table, columns, rows, printer, size, start, job, all);
      start := start + size;
    }
    RestIsEmpty(written, job, start, all);
  }
}
