/** The storefront's CSV export against the grammar of RFC 4180 section 2. */
module CsvText {
  import opened Common
  import opened Text

  // ----- the printer -----

  /** `String(cell)`, or null/undefined. */
  type Cell = Option<string>

  function Shown(cell: Cell): string {
    if cell.None? then "" else cell.value
  }

  /** `text.replace(/"/g, '""')` */
  function DoubleQuotes(text: string): string {
    if text == "" then ""
    else (if text[0] == '"' then "\"\"" else [text[0]]) + DoubleQuotes(text[1..])
  }

  function EscapeCell(cell: Cell): string {
    if cell.None? then "\"\""
    else if '"' in cell.value || ',' in cell.value || '\n' in cell.value || '\r' in cell.value
      then "\"" + DoubleQuotes(cell.value) + "\""
    else "\"" + cell.value + "\""
  }

  function EscapeAll(row: seq<Cell>): seq<string> {
    seq(|row|, i requires 0 <= i < |row| => EscapeCell(row[i]))
  }

  function Line(row: seq<Cell>): string {
    Join(EscapeAll(row), ",")
  }

  function Lines(rows: seq<seq<Cell>>): seq<string> {
    seq(|rows|, i requires 0 <= i < |rows| => Line(rows[i]))
  }

  function Header(headers: seq<string>): seq<Cell> {
    seq(|headers|, i requires 0 <= i < |headers| => Some(headers[i]))
  }

  /** The text after the byte order mark. */
  function CsvBody(headers: seq<string>, rows: seq<seq<Cell>>): string {
    Join(Lines([Header(headers)] + rows), "\r\n")
  }

  // ----- RFC 4180 section 2 -----

  /** What follows an opening quote: content up to the closing quote, with doubled quotes undone. */
  function Quoted(s: string): (r: Option<(string, string)>)
    ensures r.Some? ==> |r.value.1| < |s|
  {
    if s == "" then None
    else if s[0] == '"' then
      if |s| > 1 && s[1] == '"' then
        var r := Quoted(s[2..]);
        if r.None? then None else Some((['"'] + r.value.0, r.value.1))
      else Some(("", s[1..]))
    else
      var r := Quoted(s[1..]);
      if r.None? then None else Some(([s[0]] + r.value.0, r.value.1))
  }

  function Plain(s: string): (r: Option<(string, string)>)
    ensures r.Some? ==> |r.value.1| <= |s|
  {
    if s == "" || s[0] == ',' || s[0] == '\r' || s[0] == '\n' then Some(("", s))
    else if s[0] == '"' then None
    else
      var r := Plain(s[1..]);
      if r.None? then None else Some(([s[0]] + r.value.0, r.value.1))
  }

  function Field(s: string): (r: Option<(string, string)>)
    ensures r.Some? ==> |r.value.1| <= |s|
  {
    if s != "" && s[0] == '"' then Quoted(s[1..]) else Plain(s)
  }

  /** One or more fields separated by commas. */
  function Record(s: string): (r: Option<(seq<string>, string)>)
    ensures r.Some? ==> |r.value.1| <= |s| && r.value.0 != []
    decreases |s|
  {
    var f := Field(s);
    if f.None? then None
    else
      var (text, rest) := f.value;
      if rest != "" && rest[0] == ',' then
        var r := Record(rest[1..]);
        if r.None? then None else Some(([text] + r.value.0, r.value.1))
      else Some(([text], rest))
  }

  /** Records separated by CRLF; the last one may have its own line break. */
  function File(s: string): (r: Option<seq<seq<string>>>)
    ensures r.Some? ==> forall record :: record in r.value ==> record != []
    decreases |s|
  {
    var f := Record(s);
    if f.None? then None
    else
      var (record, rest) := f.value;
      if rest == "" || rest == "\r\n" then Some([record])
      else if "\r\n" <= rest then
        var r := File(rest[2..]);
        if r.None? then None else Some([record] + r.value)
      else None
  }

  // ----- round trip -----

  lemma {:induction false} QuotedUndoesDoubling(text: string, rest: string)
    requires rest == "" || rest[0] != '"'
    ensures Quoted(DoubleQuotes(text) + "\"" + rest) == Some((text, rest))
  {
    if text == "" {
      assert DoubleQuotes(text) + "\"" + rest == "\"" + rest;
      assert ("\"" + rest)[1..] == rest;
    } else {
      var tail := DoubleQuotes(text[1..]) + "\"" + rest;
      QuotedUndoesDoubling(text[1..], rest);
      assert [text[0]] + text[1..] == text;
      if text[0] == '"' {
        assert DoubleQuotes(text) + "\"" + rest == "\"\"" + tail;
        assert ("\"\"" + tail)[2..] == tail;
      } else {
        assert DoubleQuotes(text) + "\"" + rest == [text[0]] + tail;
        assert ([text[0]] + tail)[1..] == tail;
      }
    }
  }

  lemma {:induction false} NothingToDouble(text: string)
    requires '"' !in text
    ensures DoubleQuotes(text) == text
  {
    if text != "" {
      NothingToDouble(text[1..]);
      assert [text[0]] + text[1..] == text;
    }
  }

  lemma FieldReadsCell(cell: Cell, rest: string)
    requires rest == "" || rest[0] != '"'
    ensures Field(EscapeCell(cell) + rest) == Some((Shown(cell), rest))
  {
    var text := Shown(cell);
    if '"' !in text {
      NothingToDouble(text);
    }
    QuotedUndoesDoubling(text, rest);
    var body := DoubleQuotes(text) + "\"" + rest;
    assert EscapeCell(cell) + rest == "\"" + body;
    assert ("\"" + body)[1..] == body;
  }

  function ShownAll(row: seq<Cell>): seq<string> {
    seq(|row|, i requires 0 <= i < |row| => Shown(row[i]))
  }

  lemma LastField(s: string, text: string, rest: string)
    requires Field(s) == Some((text, rest)) && (rest == "" || rest[0] != ',')
    ensures Record(s) == Some(([text], rest))
  {
  }

  lemma NextField(s: string, text: string, tail: string, texts: seq<string>, rest: string)
    requires Field(s) == Some((text, "," + tail)) && Record(tail) == Some((texts, rest))
    ensures Record(s) == Some(([text] + texts, rest))
  {
    assert ("," + tail)[1..] == tail;
  }

  lemma LineSplits(row: seq<Cell>)
    requires |row| > 1
    ensures Line(row) == EscapeCell(row[0]) + ("," + Line(row[1..]))
  {
    assert EscapeAll(row[1..]) == EscapeAll(row)[1..];
    assert EscapeAll(row)[0] == EscapeCell(row[0]);
  }

  lemma Regroup(a: string, b: string, c: string, d: string)
    ensures a + (b + c) + d == a + (b + (c + d))
  {
  }

  lemma {:induction false} RecordReadsLine(row: seq<Cell>, rest: string)
    requires row != [] && (rest == "" || rest[0] == '\r')
    ensures Record(Line(row) + rest) == Some((ShownAll(row), rest))
  {
    if |row| == 1 {
      FieldReadsCell(row[0], rest);
      assert EscapeAll(row) == [EscapeCell(row[0])];
      LastField(Line(row) + rest, Shown(row[0]), rest);
      assert ShownAll(row) == [Shown(row[0])];
    } else {
      RecordReadsLine(row[1..], rest);
      RecordReadsOneMore(row, rest);
    }
  }

  lemma RecordReadsOneMore(row: seq<Cell>, rest: string)
    requires |row| > 1 && Record(Line(row[1..]) + rest) == Some((ShownAll(row[1..]), rest))
    ensures Record(Line(row) + rest) == Some((ShownAll(row), rest))
  {
    var tail := Line(row[1..]) + rest;
    FieldReadsCell(row[0], "," + tail);
    LineSplits(row);
    Regroup(EscapeCell(row[0]), ",", Line(row[1..]), rest);
    NextField(Line(row) + rest, Shown(row[0]), tail, ShownAll(row[1..]), rest);
    assert ShownAll(row) == [Shown(row[0])] + ShownAll(row[1..]);
  }

  function Strings(rows: seq<seq<Cell>>): seq<seq<string>> {
    seq(|rows|, i requires 0 <= i < |rows| => ShownAll(rows[i]))
  }

  predicate NoEmptyRow(rows: seq<seq<Cell>>) {
    forall i :: 0 <= i < |rows| ==> rows[i] != []
  }

  lemma LineStartsWithQuote(row: seq<Cell>)
    requires row != []
    ensures Line(row) != "" && Line(row)[0] == '"'
  {
    assert EscapeAll(row)[0] == EscapeCell(row[0]);
  }

  lemma LastRecord(s: string, record: seq<string>)
    requires Record(s) == Some((record, ""))
    ensures File(s) == Some([record])
  {
  }

  lemma NextRecord(s: string, record: seq<string>, tail: string, records: seq<seq<string>>)
    requires Record(s) == Some((record, "\r\n" + tail)) && File(tail) == Some(records) && tail != ""
    ensures File(s) == Some([record] + records)
  {
    assert ("\r\n" + tail)[2..] == tail;
  }

  lemma LinesSplit(rows: seq<seq<Cell>>)
    requires |rows| > 1
    ensures Join(Lines(rows), "\r\n") == Line(rows[0]) + ("\r\n" + Join(Lines(rows[1..]), "\r\n"))
  {
    assert Lines(rows[1..]) == Lines(rows)[1..];
    assert Lines(rows)[0] == Line(rows[0]);
  }

  lemma {:induction false} FileReadsLines(rows: seq<seq<Cell>>)
    requires rows != [] && NoEmptyRow(rows)
    ensures File(Join(Lines(rows), "\r\n")) == Some(Strings(rows))
    ensures Join(Lines(rows), "\r\n") != ""
  {
    LineStartsWithQuote(rows[0]);
    if |rows| == 1 {
      RecordReadsLine(rows[0], "");
      assert Line(rows[0]) + "" == Line(rows[0]);
      assert Lines(rows) == [Line(rows[0])];
      LastRecord(Line(rows[0]), ShownAll(rows[0]));
      assert Strings(rows) == [ShownAll(rows[0])];
    } else {
      var tail := Join(Lines(rows[1..]), "\r\n");
      FileReadsLines(rows[1..]);
      LinesSplit(rows);
      RecordReadsLine(rows[0], "\r\n" + tail);
      NextRecord(Join(Lines(rows), "\r\n"), ShownAll(rows[0]), tail, Strings(rows[1..]));
      assert Strings(rows) == [ShownAll(rows[0])] + Strings(rows[1..]);
    }
  }

  /** CSV round trip: an RFC 4180 reader recovers exactly the header and row strings, whatever quotes,
      commas or line breaks they hold, if and only if there is at least one header and no row is empty. */
  lemma CsvRoundTrip(headers: seq<string>, rows: seq<seq<Cell>>)
    ensures File(CsvBody(headers, rows)) == Some([headers] + Strings(rows)) <==>
            headers != [] && NoEmptyRow(rows)
  {
    var all := [Header(headers)] + rows;
    assert ShownAll(Header(headers)) == headers;
    assert Strings(all) == [headers] + Strings(rows);
    if headers != [] && NoEmptyRow(rows) {
      FileReadsLines(all);
    } else if headers == [] {
      assert ([headers] + Strings(rows))[0] == [];
      assert [] in [headers] + Strings(rows);
    } else {
      var i :| 0 <= i < |rows| && rows[i] == [];
      assert ([headers] + Strings(rows))[i + 1] == [];
      assert [] in [headers] + Strings(rows);
    }
  }
}
