/** The dataset's INSERT statements against a reader with MySQL's lexical rules: backslash escapes on,
    doubled quotes inside quoted text. */
module SqlText {
  import opened Common
  import opened SqlWriter
  import opened Text

  // ----- the printer -----

  /** Values the exporter writes; `Uuid(t)` is the expression UUID_TO_BIN('t'). */
  datatype SqlValue = Null | Str(text: string) | Number(n: int) | Flag(b: bool) | Uuid(hex: string)

  /** `s.replace(old, new)` for a one-character `old`. */
  function Replaced(s: string, old_: char, new_: string): string {
    if s == "" then "" else (if s[0] == old_ then new_ else [s[0]]) + Replaced(s[1..], old_, new_)
  }

  function Escaped(s: string): string {
    Replaced(Replaced(s, '\\', "\\\\"), '\'', "''")
  }

  function Digit(d: nat): char
    requires d < 10
  {
    "0123456789"[d]
  }

  function Digits(n: nat): string {
    if n < 10 then [Digit(n)] else Digits(n / 10) + [Digit(n % 10)]
  }

  function NumberText(n: int): string {
    if n < 0 then "-" + Digits(-n) else Digits(n)
  }

  /** `_sql_literal` */
  function Literal(v: SqlValue): string {
    match v
    case Null => "NULL"
    case Flag(b) => if b then "1" else "0"
    case Number(n) => NumberText(n)
    case Uuid(hex) => "UUID_TO_BIN('" + hex + "')"
    case Str(text) => "'" + Escaped(text) + "'"
  }

  type Row = seq<SqlValue>

  function Literals(row: Row): seq<string> {
    seq(|row|, i requires 0 <= i < |row| => Literal(row[i]))
  }

  function RowText(row: Row): string {
    "  (" + Join(Literals(row), ", ") + ")"
  }

  function RowTexts(rows: seq<Row>): seq<string> {
    seq(|rows|, i requires 0 <= i < |rows| => RowText(rows[i]))
  }

  /** The dataset's rows, printed and batched. */
  method WriteRows(stream: Stream, table: string, columns: seq<string>, rows: seq<Row>, size: nat)
    returns (written: Stream)
    requires size > 0
    ensures written == Write(stream, ChunksText(table, columns, RowTexts(rows), size, 0))
  {
    PrintedRows(rows);
    written := WriteBatched(stream, table, columns, rows, RowText, size);
  }

  lemma PrintedRows(rows: seq<Row>)
    ensures Texts(rows, RowText) == RowTexts(rows)
  {
  }

  // ----- the lexer -----

  datatype Token = Word(word: string) | Name(name: string) | Quote(text: string) | Int(n: int) | Punct(c: char)

  predicate IsSpace(c: char) {
    c == ' ' || c == '\n' || c == '\t' || c == '\r'
  }

  predicate IsDigit(c: char) {
    '0' <= c <= '9'
  }

  predicate IsWordChar(c: char) {
    IsDigit(c) || 'a' <= c <= 'z' || 'A' <= c <= 'Z' || c == '_'
  }

  /** MySQL string escapes; `\%` and `\_` keep their backslash. */
  function Unescaped(c: char): string {
    match c
    case '0' => [0 as char]
    case 'b' => [8 as char]
    case 'n' => "\n"
    case 'r' => "\r"
    case 't' => "\t"
    case 'Z' => [26 as char]
    case '%' => "\\%"
    case '_' => "\\_"
    case _ => [c]
  }

  /** Content up to the closing quote `q`, and what follows it. */
  function Body(s: string, q: char, escapes: bool): (r: Option<(string, string)>)
    ensures r.Some? ==> |r.value.1| < |s|
  {
    if s == "" then None
    else if s[0] == q && !(|s| > 1 && s[1] == q) then Some(("", s[1..]))
    else if escapes && s[0] == '\\' && |s| == 1 then None
    else
      var (piece, width) :=
        if s[0] == q then ([q], 2) else if escapes && s[0] == '\\' then (Unescaped(s[1]), 2) else ([s[0]], 1);
      var r := Body(s[width..], q, escapes);
      if r.None? then None else Some((piece + r.value.0, r.value.1))
  }

  function DigitRun(s: string): (n: nat)
    ensures n <= |s| && (forall i :: 0 <= i < n ==> IsDigit(s[i])) && (n < |s| ==> !IsDigit(s[n]))
  {
    if s == "" || !IsDigit(s[0]) then 0
    else
      var n := DigitRun(s[1..]) + 1;
      assert forall i :: 0 < i < n ==> s[i] == s[1..][i - 1];
      n
  }

  function WordRun(s: string): (n: nat)
    ensures n <= |s| && (forall i :: 0 <= i < n ==> IsWordChar(s[i])) && (n < |s| ==> !IsWordChar(s[n]))
  {
    if s == "" || !IsWordChar(s[0]) then 0
    else
      var n := WordRun(s[1..]) + 1;
      assert forall i :: 0 < i < n ==> s[i] == s[1..][i - 1];
      n
  }

  function Decimal(s: string): int {
    if s == "" then 0 else 10 * Decimal(s[..|s| - 1]) + (s[|s| - 1] as int - '0' as int)
  }

  /** The first token, none for a blank, and the rest of the text. */
  function NextToken(s: string): (r: Option<(seq<Token>, string)>)
    requires s != ""
    ensures r.Some? ==> |r.value.1| < |s|
  {
    var c := s[0];
    if IsSpace(c) then Some(([], s[1..]))
    else if c == '(' || c == ')' || c == ',' || c == ';' then Some(([Punct(c)], s[1..]))
    else if c == '\'' then
      var r := Body(s[1..], '\'', true);
      if r.None? then None else Some(([Quote(r.value.0)], r.value.1))
    else if c == '`' then
      var r := Body(s[1..], '`', false);
      if r.None? then None else Some(([Name(r.value.0)], r.value.1))
    else if IsDigit(c) then
      var n := DigitRun(s);
      assert n > 0;
      Some(([Int(Decimal(s[..n]))], s[n..]))
    else if c == '-' then
      var n := DigitRun(s[1..]);
      if n == 0 then None else Some(([Int(-Decimal(s[1..][..n]))], s[1..][n..]))
    else if IsWordChar(c) then
      var n := WordRun(s);
      assert n > 0;
      Some(([Word(s[..n])], s[n..]))
    else None
  }

  function Before(tokens: seq<Token>, rest: Option<seq<Token>>): Option<seq<Token>> {
    if rest.None? then None else Some(tokens + rest.value)
  }

  function Lex(s: string): Option<seq<Token>>
    decreases |s|
  {
    if s == "" then Some([])
    else
      var r := NextToken(s);
      if r.None? then None else Before(r.value.0, Lex(r.value.1))
  }

  // ----- the statement grammar -----

  datatype Statement = Statement(table: string, columns: seq<string>, rows: seq<Row>)

  /** What follows the expected token. */
  function Expect(ts: Option<seq<Token>>, token: Token): (rest: Option<seq<Token>>)
    ensures rest.Some? ==> ts.Some? && |rest.value| < |ts.value|
  {
    if ts.Some? && ts.value != [] && ts.value[0] == token then Some(ts.value[1..]) else None
  }

  /** UUID_TO_BIN of one string, after the function name. */
  function ReadUuid(ts: seq<Token>): (r: Option<(SqlValue, seq<Token>)>)
    ensures r.Some? ==> |r.value.1| < |ts|
  {
    var inner := Expect(Some(ts), Punct('('));
    if inner.None? || inner.value == [] || !inner.value[0].Quote? then None
    else
      var rest := Expect(Some(inner.value[1..]), Punct(')'));
      if rest.None? then None else Some((Uuid(inner.value[0].text), rest.value))
  }

  /** One value: NULL, a number, a string, or UUID_TO_BIN of a string. */
  function ReadValue(ts: seq<Token>): (r: Option<(SqlValue, seq<Token>)>)
    ensures r.Some? ==> |r.value.1| < |ts|
  {
    if ts == [] then None
    else
      match ts[0]
      case Quote(text) => Some((Str(text), ts[1..]))
      case Int(n) => Some((Number(n), ts[1..]))
      case Word(w) => if w == "NULL" then Some((Null, ts[1..])) else if w == "UUID_TO_BIN" then ReadUuid(ts[1..]) else None
      case _ => None
  }

  /** Values separated by commas up to the closing parenthesis. */
  function ReadValues(ts: seq<Token>): (r: Option<(Row, seq<Token>)>)
    ensures r.Some? ==> |r.value.1| < |ts|
    decreases |ts|
  {
    var v := ReadValue(ts);
    if v.None? then None
    else
      var (value, rest) := v.value;
      var closed := Expect(Some(rest), Punct(')'));
      if closed.Some? then Some(([value], closed.value))
      else
        var further := Expect(Some(rest), Punct(','));
        if further.None? then None
        else
          var more := ReadValues(further.value);
          if more.None? then None else Some(([value] + more.value.0, more.value.1))
  }

  /** Rows separated by commas up to the semicolon. */
  function ReadRows(ts: seq<Token>): (r: Option<(seq<Row>, seq<Token>)>)
    ensures r.Some? ==> |r.value.1| < |ts|
    decreases |ts|
  {
    var inside := Expect(Some(ts), Punct('('));
    if inside.None? then None
    else
      var v := ReadValues(inside.value);
      if v.None? then None
      else
        var (row, rest) := v.value;
        var closed := Expect(Some(rest), Punct(';'));
        if closed.Some? then Some(([row], closed.value))
        else
          var further := Expect(Some(rest), Punct(','));
          if further.None? then None
          else
            var more := ReadRows(further.value);
            if more.None? then None else Some(([row] + more.value.0, more.value.1))
  }

  function ReadNames(ts: seq<Token>): (r: Option<(seq<string>, seq<Token>)>)
    ensures r.Some? ==> |r.value.1| < |ts|
    decreases |ts|
  {
    if ts == [] || !ts[0].Name? then None
    else
      var rest := ts[1..];
      var closed := Expect(Some(rest), Punct(')'));
      if closed.Some? then Some(([ts[0].name], closed.value))
      else
        var further := Expect(Some(rest), Punct(','));
        if further.None? then None
        else
          var more := ReadNames(further.value);
          if more.None? then None else Some(([ts[0].name] + more.value.0, more.value.1))
  }

  /** INSERT INTO name (names) VALUES rows; */
  function ReadStatement(ts: seq<Token>): (r: Option<(Statement, seq<Token>)>)
    ensures r.Some? ==> |r.value.1| < |ts|
  {
    var target := Expect(Expect(Some(ts), Word("INSERT")), Word("INTO"));
    if target.None? || target.value == [] || !target.value[0].Name? then None
    else
      var inside := Expect(Some(target.value[1..]), Punct('('));
      if inside.None? then None
      else
        var names := ReadNames(inside.value);
        if names.None? then None
        else
          var values := Expect(Some(names.value.1), Word("VALUES"));
          if values.None? then None
          else
            var rows := ReadRows(values.value);
            if rows.None? then None
            else Some((Statement(target.value[0].name, names.value.0, rows.value.0), rows.value.1))
  }

  function ReadStatements(ts: seq<Token>): Option<seq<Statement>>
    decreases |ts|
  {
    if ts == [] then Some([])
    else
      var first := ReadStatement(ts);
      if first.None? then None
      else
        var more := ReadStatements(first.value.1);
        if more.None? then None else Some([first.value.0] + more.value)
  }

  function Read(sql: string): Option<seq<Statement>> {
    var tokens := Lex(sql);
    if tokens.None? then None else ReadStatements(tokens.value)
  }

  // ----- tokens of printed pieces -----

  /** Text that may follow a literal. */
  predicate Bounded(rest: string) {
    rest != "" && (rest[0] == ',' || rest[0] == ')')
  }

  function EscapedOnce(s: string): string {
    if s == "" then ""
    else EscapedChar(s[0]) + EscapedOnce(s[1..])
  }

  lemma {:induction false} ReplacedAppend(a: string, b: string, old_: char, new_: string)
    ensures Replaced(a + b, old_, new_) == Replaced(a, old_, new_) + Replaced(b, old_, new_)
  {
    if a == "" {
      assert a + b == b;
    } else {
      ReplacedAppend(a[1..], b, old_, new_);
      assert (a + b)[0] == a[0] && (a + b)[1..] == a[1..] + b;
      Regroup(if a[0] == old_ then new_ else [a[0]], Replaced(a[1..], old_, new_), Replaced(b, old_, new_));
    }
  }

  lemma {:induction false} EscapedInOnePass(s: string)
    ensures Escaped(s) == EscapedOnce(s)
  {
    if s != "" {
      var first := if s[0] == '\\' then "\\\\" else [s[0]];
      ReplacedAppend(first, Replaced(s[1..], '\\', "\\\\"), '\'', "''");
      EscapedInOnePass(s[1..]);
      if s[0] == '\\' {
        assert Replaced("\\\\", '\'', "''") == "\\" + Replaced("\\", '\'', "''");
        assert Replaced("\\", '\'', "''") == "\\";
      } else {
        assert Replaced([s[0]], '\'', "''") == if s[0] == '\'' then "''" else [s[0]];
      }
    }
  }

  function EscapedChar(c: char): string {
    if c == '\\' then "\\\\" else if c == '\'' then "''" else [c]
  }

  /** A piece `e` of one or two characters that stands for `c` is read as `c`. */
  lemma BodyOfPiece(e: string, c: char, tail: string)
    requires Body(tail, '\'', true).Some? && 1 <= |e| <= 2
    requires if |e| == 1 then e[0] == c && c != '\'' && c != '\\'
             else e[0] == e[1] == c && (c == '\'' || c == '\\')
    ensures Body(e + tail, '\'', true) ==
            Some(([c] + Body(tail, '\'', true).value.0, Body(tail, '\'', true).value.1))
  {
    var s := e + tail;
    assert s[|e|..] == tail && s[0] == e[0];
    if |e| == 2 {
      assert s[1] == e[1];
    }
  }

  lemma BodyOfChar(c: char, tail: string)
    requires Body(tail, '\'', true).Some?
    ensures Body(EscapedChar(c) + tail, '\'', true) ==
            Some(([c] + Body(tail, '\'', true).value.0, Body(tail, '\'', true).value.1))
  {
    BodyOfPiece(EscapedChar(c), c, tail);
  }

  lemma {:induction false} BodyUndoesEscape(s: string, rest: string)
    requires rest == "" || rest[0] != '\''
    ensures Body(EscapedOnce(s) + "'" + rest, '\'', true) == Some((s, rest))
  {
    if s == "" {
      assert EscapedOnce(s) + "'" + rest == "'" + rest;
      assert ("'" + rest)[1..] == rest;
    } else {
      var tail := EscapedOnce(s[1..]) + "'" + rest;
      BodyUndoesEscape(s[1..], rest);
      BodyOfChar(s[0], tail);
      Regroup(EscapedChar(s[0]), EscapedOnce(s[1..]), "'");
      Regroup(EscapedChar(s[0]), EscapedOnce(s[1..]) + "'", rest);
      assert [s[0]] + s[1..] == s;
    }
  }

  lemma QuoteToken(text: string, rest: string)
    requires rest == "" || rest[0] != '\''
    ensures NextToken("'" + Escaped(text) + "'" + rest) == Some(([Quote(text)], rest))
  {
    EscapedInOnePass(text);
    BodyUndoesEscape(text, rest);
    var body := EscapedOnce(text) + "'" + rest;
    assert "'" + Escaped(text) + "'" + rest == "'" + body by {
      Regroup("'", Escaped(text), "'");
      Regroup("'", Escaped(text) + "'", rest);
    }
    assert ("'" + body)[1..] == body;
  }

  lemma {:induction false} BodyOfName(name: string, rest: string)
    requires '`' !in name && (rest == "" || rest[0] != '`')
    ensures Body(name + "`" + rest, '`', false) == Some((name, rest))
  {
    if name == "" {
      assert name + "`" + rest == "`" + rest;
      assert ("`" + rest)[1..] == rest;
    } else {
      BodyOfName(name[1..], rest);
      assert (name + "`" + rest)[1..] == name[1..] + "`" + rest;
      assert [name[0]] + name[1..] == name;
    }
  }

  lemma NameToken(name: string, rest: string)
    requires '`' !in name && (rest == "" || rest[0] != '`')
    ensures NextToken("`" + name + "`" + rest) == Some(([Name(name)], rest))
  {
    BodyOfName(name, rest);
    var body := name + "`" + rest;
    Regroup("`", name, "`");
    Regroup("`", name + "`", rest);
    assert ("`" + body)[1..] == body;
  }

  predicate AllDigits(d: string) {
    forall i :: 0 <= i < |d| ==> IsDigit(d[i])
  }

  lemma DecimalNext(d: string, c: char)
    ensures Decimal(d + [c]) == 10 * Decimal(d) + (c as int - '0' as int)
  {
    assert (d + [c])[..|d|] == d;
  }

  lemma DigitValue(d: nat)
    requires d < 10
    ensures IsDigit(Digit(d)) && Digit(d) as int - '0' as int == d
  {
  }

  lemma {:induction false} DigitsAreDigits(n: nat)
    ensures Digits(n) != "" && AllDigits(Digits(n))
  {
    DigitValue(n % 10);
    if n >= 10 {
      DigitsAreDigits(n / 10);
    }
  }

  lemma {:induction false} DigitsRead(n: nat)
    ensures Decimal(Digits(n)) == n
  {
    DigitValue(n % 10);
    if n < 10 {
      assert Digits(n) == [] + [Digit(n)];
      DecimalNext([], Digit(n));
    } else {
      DigitsRead(n / 10);
      DecimalNext(Digits(n / 10), Digit(n % 10));
    }
  }

  lemma RunOfDigits(d: string, rest: string)
    requires AllDigits(d) && (rest == "" || !IsDigit(rest[0]))
    ensures DigitRun(d + rest) == |d|
  {
    var s := d + rest;
    assert forall i :: 0 <= i < |d| ==> s[i] == d[i];
    assert |d| < |s| ==> s[|d|] == rest[0];
  }

  lemma DigitsToken(d: string, rest: string)
    requires d != "" && AllDigits(d) && Bounded(rest)
    ensures NextToken(d + rest) == Some(([Int(Decimal(d))], rest))
  {
    RunOfDigits(d, rest);
    assert (d + rest)[0] == d[0];
    assert (d + rest)[..|d|] == d && (d + rest)[|d|..] == rest;
  }

  lemma MinusToken(s: string)
    requires s != "" && s[0] == '-' && DigitRun(s[1..]) > 0
    ensures NextToken(s) == Some(([Int(-Decimal(s[1..][..DigitRun(s[1..])]))], s[1..][DigitRun(s[1..])..]))
  {
  }

  lemma MinusFirst(t: string)
    ensures ("-" + t)[0] == '-' && ("-" + t)[1..] == t
  {
  }

  lemma NegativeToken(d: string, rest: string)
    requires d != "" && AllDigits(d) && Bounded(rest)
    ensures NextToken("-" + (d + rest)) == Some(([Int(-Decimal(d))], rest))
  {
    RunOfDigits(d, rest);
    MinusFirst(d + rest);
    MinusToken("-" + (d + rest));
    assert (d + rest)[..|d|] == d && (d + rest)[|d|..] == rest;
  }

  lemma NumberToken(n: int, rest: string)
    requires Bounded(rest)
    ensures NextToken(NumberText(n) + rest) == Some(([Int(n)], rest))
  {
    if n < 0 {
      DigitsRead(-n);
      DigitsAreDigits(-n);
      NegativeToken(Digits(-n), rest);
      Regroup("-", Digits(-n), rest);
    } else {
      DigitsRead(n);
      DigitsAreDigits(n);
      DigitsToken(Digits(n), rest);
    }
  }

  lemma WordToken(w: string, rest: string)
    requires w != "" && (forall i :: 0 <= i < |w| ==> IsWordChar(w[i])) && !IsDigit(w[0])
    requires rest == "" || !IsWordChar(rest[0])
    ensures NextToken(w + rest) == Some(([Word(w)], rest))
  {
    var s := w + rest;
    assert forall i :: 0 <= i < |w| ==> s[i] == w[i];
    assert |w| < |s| ==> s[|w|] == rest[0];
    assert WordRun(s) == |w|;
    assert s[..|w|] == w && s[|w|..] == rest;
  }

  /** Before this text, the printed piece `w` lexes to `ts`. */
  predicate Lexes(w: string, ts: seq<Token>, rest: string) {
    Lex(w + rest) == Before(ts, Lex(rest))
  }

  lemma Then(w: string, ts: seq<Token>, w': string, ts': seq<Token>, rest: string)
    requires Lexes(w, ts, w' + rest) && Lexes(w', ts', rest)
    ensures Lexes(w + w', ts + ts', rest)
  {
    Regroup(w, w', rest);
    if Lex(rest).Some? {
      assert ts + (ts' + Lex(rest).value) == (ts + ts') + Lex(rest).value;
    }
  }

  lemma OneToken(w: string, ts: seq<Token>, rest: string)
    requires w != "" && NextToken(w + rest) == Some((ts, rest))
    ensures Lexes(w, ts, rest)
  {
  }

  lemma LexMark(c: char, rest: string)
    requires c == '(' || c == ')' || c == ',' || c == ';'
    ensures Lexes([c], [Punct(c)], rest)
  {
    assert ([c] + rest)[1..] == rest;
    OneToken([c], [Punct(c)], rest);
  }

  /** Blanks leave no token. */
  lemma LexBlank(c: char, w: string, ts: seq<Token>, rest: string)
    requires IsSpace(c) && Lexes(w, ts, rest)
    ensures Lexes([c] + w, ts, rest)
  {
    assert ([c] + w + rest)[1..] == w + rest;
    var tokens := Lex(w + rest);
    if tokens.Some? {
      assert [] + tokens.value == tokens.value;
    }
  }

  lemma LexNothing(rest: string)
    ensures Lexes("", [], rest)
  {
    assert "" + rest == rest;
    if Lex(rest).Some? {
      assert [] + Lex(rest).value == Lex(rest).value;
    }
  }

  lemma LexWord(w: string, rest: string)
    requires w != "" && (forall i :: 0 <= i < |w| ==> IsWordChar(w[i])) && !IsDigit(w[0])
    requires rest == "" || !IsWordChar(rest[0])
    ensures Lexes(w, [Word(w)], rest)
  {
    WordToken(w, rest);
    OneToken(w, [Word(w)], rest);
  }

  lemma LexQuote(text: string, rest: string)
    requires rest == "" || rest[0] != '\''
    ensures Lexes("'" + Escaped(text) + "'", [Quote(text)], rest)
  {
    QuoteToken(text, rest);
    OneToken("'" + Escaped(text) + "'", [Quote(text)], rest);
  }

  lemma LexName(name: string, rest: string)
    requires '`' !in name && (rest == "" || rest[0] != '`')
    ensures Lexes("`" + name + "`", [Name(name)], rest)
  {
    NameToken(name, rest);
    OneToken("`" + name + "`", [Name(name)], rest);
  }

  lemma LexNumber(n: int, rest: string)
    requires Bounded(rest)
    ensures Lexes(NumberText(n), [Int(n)], rest)
  {
    NumberToken(n, rest);
    DigitsRead(if n < 0 then -n else n);
    OneToken(NumberText(n), [Int(n)], rest);
  }

  /** A comma and a blank, or a comma and a line break, before a piece. */
  lemma LexComma(blank: char, w: string, ts: seq<Token>, rest: string)
    requires IsSpace(blank) && Lexes(w, ts, rest)
    ensures Lexes([',', blank] + w, [Punct(',')] + ts, rest)
  {
    LexBlank(blank, w, ts, rest);
    LexMark(',', [blank] + w + rest);
    Then([','], [Punct(',')], [blank] + w, ts, rest);
    assert [','] + ([blank] + w) == [',', blank] + w;
  }

  // ----- what a printed value reads as -----

  predicate PlainUuid(v: SqlValue) {
    v.Uuid? ==> '\'' !in v.hex && '\\' !in v.hex
  }

  /** Booleans are written, and read back, as 1 and 0. */
  function Meaning(v: SqlValue): SqlValue {
    if v.Flag? then Number(if v.b then 1 else 0) else v
  }

  function ValueTokens(v: SqlValue): seq<Token> {
    match Meaning(v)
    case Null => [Word("NULL")]
    case Number(n) => [Int(n)]
    case Str(text) => [Quote(text)]
    case Uuid(hex) => [Word("UUID_TO_BIN")] + ([Punct('(')] + ([Quote(hex)] + [Punct(')')]))
  }

  lemma {:induction false} NothingToEscape(s: string)
    requires '\'' !in s && '\\' !in s
    ensures EscapedOnce(s) == s
  {
    if s != "" {
      NothingToEscape(s[1..]);
      assert [s[0]] + s[1..] == s;
    }
  }

  lemma FlagText(b: bool)
    ensures (if b then "1" else "0") == NumberText(if b then 1 else 0)
  {
  }

  lemma LexUuidArgument(hex: string, rest: string)
    requires '\'' !in hex && '\\' !in hex
    ensures Lexes("(" + ("'" + hex + "'" + ")"), [Punct('(')] + ([Quote(hex)] + [Punct(')')]), rest)
  {
    NothingToEscape(hex);
    EscapedInOnePass(hex);
    var quoted := "'" + hex + "'";
    LexMark(')', rest);
    LexQuote(hex, ")" + rest);
    Then(quoted, [Quote(hex)], ")", [Punct(')')], rest);
    LexMark('(', quoted + ")" + rest);
    Then("(", [Punct('(')], quoted + ")", [Quote(hex)] + [Punct(')')], rest);
  }

  lemma UuidText(hex: string)
    ensures "UUID_TO_BIN('" + hex + "')" == "UUID_TO_BIN" + ("(" + ("'" + hex + "'" + ")"))
  {
    assert "UUID_TO_BIN('" == "UUID_TO_BIN" + "('";
    assert "')" == "'" + ")";
    assert "('" == "(" + "'";
  }

  lemma LexUuid(hex: string, rest: string)
    requires '\'' !in hex && '\\' !in hex
    ensures Lexes("UUID_TO_BIN('" + hex + "')", ValueTokens(Uuid(hex)), rest)
  {
    var argument := "(" + ("'" + hex + "'" + ")");
    var tokens := [Punct('(')] + ([Quote(hex)] + [Punct(')')]);
    UuidText(hex);
    LexUuidArgument(hex, rest);
    assert (argument + rest)[0] == '(';
    LexWord("UUID_TO_BIN", argument + rest);
    Then("UUID_TO_BIN", [Word("UUID_TO_BIN")], argument, tokens, rest);
  }

  lemma LexLiteral(v: SqlValue, rest: string)
    requires PlainUuid(v) && Bounded(rest)
    ensures Lexes(Literal(v), ValueTokens(v), rest)
  {
    match v
    case Null => LexWord("NULL", rest);
    case Flag(b) =>
      FlagText(b);
      LexNumber(if b then 1 else 0, rest);
    case Number(n) => LexNumber(n, rest);
    case Str(text) => LexQuote(text, rest);
    case Uuid(hex) => LexUuid(hex, rest);
  }

  function ValuesTokens(row: Row): seq<Token> {
    if row == [] then [] else if |row| == 1 then ValueTokens(row[0])
    else ValueTokens(row[0]) + ([Punct(',')] + ValuesTokens(row[1..]))
  }

  predicate PlainRow(row: Row) {
    row != [] && forall i :: 0 <= i < |row| ==> PlainUuid(row[i])
  }

  lemma {:induction false} LexValues(row: Row, rest: string)
    requires PlainRow(row) && Bounded(rest)
    ensures Lexes(Join(Literals(row), ", "), ValuesTokens(row), rest)
  {
    if |row| == 1 {
      LexLiteral(row[0], rest);
    } else {
      var tail := Join(Literals(row[1..]), ", ");
      assert Literals(row)[1..] == Literals(row[1..]);
      LexValues(row[1..], rest);
      LexComma(' ', tail, ValuesTokens(row[1..]), rest);
      LexLiteral(row[0], ", " + tail + rest);
      Then(Literal(row[0]), ValueTokens(row[0]), ", " + tail, [Punct(',')] + ValuesTokens(row[1..]), rest);
      Regroup(Literal(row[0]), ", ", tail);
    }
  }

  function RowTokens(row: Row): seq<Token> {
    [Punct('(')] + (ValuesTokens(row) + [Punct(')')])
  }

  lemma LexRow(row: Row, rest: string)
    requires PlainRow(row)
    ensures Lexes(RowText(row), RowTokens(row), rest)
  {
    var values := Join(Literals(row), ", ");
    LexMark(')', rest);
    LexValues(row, ")" + rest);
    Then(values, ValuesTokens(row), ")", [Punct(')')], rest);
    LexMark('(', values + ")" + rest);
    Then("(", [Punct('(')], values + ")", ValuesTokens(row) + [Punct(')')], rest);
    LexBlank(' ', "(" + (values + ")"), RowTokens(row), rest);
    LexBlank(' ', " " + ("(" + (values + ")")), RowTokens(row), rest);
    assert RowText(row) == " " + (" " + ("(" + (values + ")")));
  }

  function RowsTokens(rows: seq<Row>): seq<Token> {
    if rows == [] then [] else if |rows| == 1 then RowTokens(rows[0])
    else RowTokens(rows[0]) + ([Punct(',')] + RowsTokens(rows[1..]))
  }

  predicate PlainRows(rows: seq<Row>) {
    forall i :: 0 <= i < |rows| ==> PlainRow(rows[i])
  }

  lemma {:induction false} LexRows(rows: seq<Row>, rest: string)
    requires rows != [] && PlainRows(rows)
    ensures Lexes(Join(RowTexts(rows), ",\n"), RowsTokens(rows), rest)
  {
    if |rows| == 1 {
      LexRow(rows[0], rest);
    } else {
      var tail := Join(RowTexts(rows[1..]), ",\n");
      assert RowTexts(rows)[1..] == RowTexts(rows[1..]);
      LexRows(rows[1..], rest);
      LexComma('\n', tail, RowsTokens(rows[1..]), rest);
      LexRow(rows[0], ",\n" + tail + rest);
      Then(RowText(rows[0]), RowTokens(rows[0]), ",\n" + tail, [Punct(',')] + RowsTokens(rows[1..]), rest);
      Regroup(RowText(rows[0]), ",\n", tail);
    }
  }

  function NamesTokens(names: seq<string>): seq<Token> {
    if names == [] then [] else if |names| == 1 then [Name(names[0])]
    else [Name(names[0])] + ([Punct(',')] + NamesTokens(names[1..]))
  }

  predicate PlainNames(names: seq<string>) {
    names != [] && forall i :: 0 <= i < |names| ==> '`' !in names[i]
  }

  lemma {:induction false} LexNames(names: seq<string>, rest: string)
    requires PlainNames(names) && Bounded(rest)
    ensures Lexes(Join(Backticked(names), ", "), NamesTokens(names), rest)
  {
    if |names| == 1 {
      LexName(names[0], rest);
    } else {
      var tail := Join(Backticked(names[1..]), ", ");
      assert Backticked(names)[1..] == Backticked(names[1..]);
      LexNames(names[1..], rest);
      LexComma(' ', tail, NamesTokens(names[1..]), rest);
      LexName(names[0], ", " + tail + rest);
      Then("`" + names[0] + "`", [Name(names[0])], ", " + tail, [Punct(',')] + NamesTokens(names[1..]), rest);
      Regroup("`" + names[0] + "`", ", ", tail);
    }
  }

  /** A word, a blank, and a piece. */
  lemma LexWordBlank(word: string, blank: char, w: string, ts: seq<Token>, rest: string)
    requires word != "" && (forall i :: 0 <= i < |word| ==> IsWordChar(word[i])) && !IsDigit(word[0])
    requires IsSpace(blank) && Lexes(w, ts, rest)
    ensures Lexes(word + ([blank] + w), [Word(word)] + ts, rest)
  {
    LexBlank(blank, w, ts, rest);
    LexWord(word, [blank] + w + rest);
    Then(word, [Word(word)], [blank] + w, ts, rest);
  }

  lemma LexClosing(rest: string)
    ensures Lexes(") VALUES\n", [Punct(')')] + ([Word("VALUES")] + []), rest)
  {
    LexNothing(rest);
    LexWordBlank("VALUES", '\n', "", [], rest);
    var values := "VALUES" + (['\n'] + "");
    LexBlank(' ', values, [Word("VALUES")] + [], rest);
    LexMark(')', [' '] + values + rest);
    Then(")", [Punct(')')], [' '] + values, [Word("VALUES")] + [], rest);
    assert ")" + ([' '] + values) == ") VALUES\n";
  }

  lemma LexTarget(table: string, rest: string)
    requires '`' !in table
    ensures Lexes("`" + table + "` (", [Name(table)] + [Punct('(')], rest)
  {
    LexMark('(', rest);
    LexBlank(' ', "(", [Punct('(')], rest);
    LexName(table, [' '] + "(" + rest);
    Then("`" + table + "`", [Name(table)], [' '] + "(", [Punct('(')], rest);
    assert "`" + table + "`" + ([' '] + "(") == "`" + table + "` (";
  }

  lemma LexOpening(table: string, rest: string)
    requires '`' !in table
    ensures Lexes("INSERT INTO `" + table + "` (", [Word("INSERT")] + ([Word("INTO")] + ([Name(table)] + [Punct('(')])), rest)
  {
    var target := "`" + table + "` (";
    LexTarget(table, rest);
    LexWordBlank("INTO", ' ', target, [Name(table)] + [Punct('(')], rest);
    var into := "INTO" + ([' '] + target);
    LexWordBlank("INSERT", ' ', into, [Word("INTO")] + ([Name(table)] + [Punct('(')]), rest);
    assert "INSERT" + ([' '] + into) == "INSERT INTO `" + table + "` (";
  }

  function HeadTokens(table: string, columns: seq<string>): seq<Token> {
    [Word("INSERT")] + ([Word("INTO")] + ([Name(table)] + [Punct('(')])) +
    (NamesTokens(columns) + ([Punct(')')] + ([Word("VALUES")] + [])))
  }

  lemma LexHead(table: string, columns: seq<string>, rest: string)
    requires '`' !in table && PlainNames(columns)
    ensures Lexes(InsertHead(table, columns), HeadTokens(table, columns), rest)
  {
    var names := Join(Backticked(columns), ", ");
    var opening := "INSERT INTO `" + table + "` (";
    LexClosing(rest);
    LexNames(columns, ") VALUES\n" + rest);
    Then(names, NamesTokens(columns), ") VALUES\n", [Punct(')')] + ([Word("VALUES")] + []), rest);
    LexOpening(table, names + ") VALUES\n" + rest);
    Then(opening, [Word("INSERT")] + ([Word("INTO")] + ([Name(table)] + [Punct('(')])), names + ") VALUES\n",
         NamesTokens(columns) + ([Punct(')')] + ([Word("VALUES")] + [])), rest);
    Regroup(opening, names, ") VALUES\n");
  }

  function InsertTokens(table: string, columns: seq<string>, rows: seq<Row>): seq<Token> {
    HeadTokens(table, columns) + (RowsTokens(rows) + ([Punct(';')] + []))
  }

  lemma LexEnd(rest: string)
    ensures Lexes(";\n\n", [Punct(';')] + [], rest)
  {
    LexNothing(rest);
    LexBlank('\n', "", [], rest);
    LexBlank('\n', ['\n'] + "", [], rest);
    var blanks := ['\n'] + (['\n'] + "");
    LexMark(';', blanks + rest);
    Then(";", [Punct(';')], blanks, [], rest);
    assert ";" + blanks == ";\n\n";
  }

  lemma LexInsert(table: string, columns: seq<string>, rows: seq<Row>, rest: string)
    requires '`' !in table && PlainNames(columns) && rows != [] && PlainRows(rows)
    ensures Lexes(InsertText(table, columns, RowTexts(rows)), InsertTokens(table, columns, rows), rest)
  {
    var body := Join(RowTexts(rows), ",\n");
    LexEnd(rest);
    LexRows(rows, ";\n\n" + rest);
    Then(body, RowsTokens(rows), ";\n\n", [Punct(';')] + [], rest);
    LexHead(table, columns, body + ";\n\n" + rest);
    Then(InsertHead(table, columns), HeadTokens(table, columns), body + ";\n\n", RowsTokens(rows) + ([Punct(';')] + []), rest);
    Regroup(InsertHead(table, columns), body, ";\n\n");
  }

  // ----- reading the tokens -----

  function MeaningOf(row: Row): Row {
    seq(|row|, i requires 0 <= i < |row| => Meaning(row[i]))
  }

  function Meanings(rows: seq<Row>): seq<Row> {
    seq(|rows|, i requires 0 <= i < |rows| => MeaningOf(rows[i]))
  }

  lemma Take(token: Token, rest: seq<Token>)
    ensures ([token] + rest)[0] == token && ([token] + rest)[1..] == rest && Expect(Some([token] + rest), token) == Some(rest)
    ensures forall other :: other != token ==> Expect(Some([token] + rest), other) == None
  {
  }

  lemma Group(a: seq<Token>, b: seq<Token>, c: seq<Token>)
    ensures a + b + c == a + (b + c)
  {
  }

  lemma MeaningsOfFirst(rows: seq<Row>)
    requires rows != []
    ensures Meanings(rows) == [MeaningOf(rows[0])] + Meanings(rows[1..])
  {
  }

  lemma ReadUuidCall(hex: string, rest: seq<Token>)
    ensures ReadValue([Word("UUID_TO_BIN")] + ([Punct('(')] + ([Quote(hex)] + ([Punct(')')] + rest)))) ==
              Some((Uuid(hex), rest))
  {
    var close := [Punct(')')] + rest;
    var inner := [Quote(hex)] + close;
    Take(Punct(')'), rest);
    Take(Quote(hex), close);
    Take(Punct('('), inner);
    Take(Word("UUID_TO_BIN"), [Punct('(')] + inner);
    assert |"UUID_TO_BIN"| != |"NULL"|;
  }

  lemma UuidTokens(hex: string, rest: seq<Token>)
    ensures ValueTokens(Uuid(hex)) + rest ==
              [Word("UUID_TO_BIN")] + ([Punct('(')] + ([Quote(hex)] + ([Punct(')')] + rest)))
  {
    Group([Word("UUID_TO_BIN")], [Punct('(')] + ([Quote(hex)] + [Punct(')')]), rest);
    Group([Punct('(')], [Quote(hex)] + [Punct(')')], rest);
    Group([Quote(hex)], [Punct(')')], rest);
  }

  lemma ReadOneValue(v: SqlValue, rest: seq<Token>)
    ensures ReadValue(ValueTokens(v) + rest) == Some((Meaning(v), rest))
  {
    if v.Uuid? {
      UuidTokens(v.hex, rest);
      ReadUuidCall(v.hex, rest);
    } else {
      Take(ValueTokens(v)[0], rest);
      assert ValueTokens(v) == [ValueTokens(v)[0]];
    }
  }

  lemma {:induction false} ReadAllValues(row: Row, rest: seq<Token>)
    requires row != []
    ensures ReadValues(ValuesTokens(row) + ([Punct(')')] + rest)) == Some((MeaningOf(row), rest))
  {
    var close := [Punct(')')] + rest;
    if |row| == 1 {
      Take(Punct(')'), rest);
      ReadOneValue(row[0], close);
      assert MeaningOf(row) == [Meaning(row[0])];
    } else {
      var tail := ValuesTokens(row[1..]) + close;
      ReadAllValues(row[1..], rest);
      ReadOneValue(row[0], [Punct(',')] + tail);
      Take(Punct(','), tail);
      Group(ValueTokens(row[0]), [Punct(',')] + ValuesTokens(row[1..]), close);
      Group([Punct(',')], ValuesTokens(row[1..]), close);
      assert MeaningOf(row) == [Meaning(row[0])] + MeaningOf(row[1..]);
    }
  }

  lemma RowThen(row: Row, rest: seq<Token>)
    requires row != []
    ensures var inside := Expect(Some(RowTokens(row) + rest), Punct('('));
            inside.Some? && ReadValues(inside.value) == Some((MeaningOf(row), rest))
  {
    ReadAllValues(row, rest);
    Group([Punct('(')], ValuesTokens(row) + [Punct(')')], rest);
    Group(ValuesTokens(row), [Punct(')')], rest);
    Take(Punct('('), ValuesTokens(row) + ([Punct(')')] + rest));
  }

  lemma {:induction false} ReadAllRows(rows: seq<Row>, rest: seq<Token>)
    requires rows != [] && PlainRows(rows)
    ensures ReadRows(RowsTokens(rows) + ([Punct(';')] + rest)) == Some((Meanings(rows), rest))
  {
    var end := [Punct(';')] + rest;
    if |rows| == 1 {
      RowThen(rows[0], end);
      Take(Punct(';'), rest);
      MeaningsOfFirst(rows);
      assert Meanings(rows) == [MeaningOf(rows[0])];
    } else {
      var tail := RowsTokens(rows[1..]) + end;
      ReadAllRows(rows[1..], rest);
      RowThen(rows[0], [Punct(',')] + tail);
      Take(Punct(','), tail);
      Group(RowTokens(rows[0]), [Punct(',')] + RowsTokens(rows[1..]), end);
      Group([Punct(',')], RowsTokens(rows[1..]), end);
      MeaningsOfFirst(rows);
    }
  }

  lemma {:induction false} ReadAllNames(names: seq<string>, rest: seq<Token>)
    requires names != []
    ensures ReadNames(NamesTokens(names) + ([Punct(')')] + rest)) == Some((names, rest))
  {
    var close := [Punct(')')] + rest;
    if |names| == 1 {
      Take(Name(names[0]), close);
      Take(Punct(')'), rest);
      assert names == [names[0]];
    } else {
      var tail := NamesTokens(names[1..]) + close;
      ReadAllNames(names[1..], rest);
      Take(Name(names[0]), [Punct(',')] + tail);
      Take(Punct(','), tail);
      Group([Name(names[0])], [Punct(',')] + NamesTokens(names[1..]), close);
      Group([Punct(',')], NamesTokens(names[1..]), close);
      assert names == [names[0]] + names[1..];
    }
  }

  lemma NestTokens(table: string, columns: seq<string>, rows: seq<Row>, rest: seq<Token>)
    ensures InsertTokens(table, columns, rows) + rest ==
            [Word("INSERT")] + ([Word("INTO")] + ([Name(table)] + ([Punct('(')] + (NamesTokens(columns) +
              ([Punct(')')] + ([Word("VALUES")] + (RowsTokens(rows) + ([Punct(';')] + rest))))))))
  {
    var names, body := NamesTokens(columns), RowsTokens(rows) + ([Punct(';')] + rest);
    assert RowsTokens(rows) + ([Punct(';')] + []) + rest == body;
    Group(HeadTokens(table, columns), RowsTokens(rows) + ([Punct(';')] + []), rest);
    var opening := [Word("INSERT")] + ([Word("INTO")] + ([Name(table)] + [Punct('(')]));
    var close := [Punct(')')] + ([Word("VALUES")] + []);
    Group(opening, names + close, body);
    Group(names, close, body);
    assert close + body == [Punct(')')] + ([Word("VALUES")] + body);
    var inner := names + ([Punct(')')] + ([Word("VALUES")] + body));
    assert opening + inner == [Word("INSERT")] + ([Word("INTO")] + ([Name(table)] + ([Punct('(')] + inner)));
  }

  lemma ReadOneStatement(table: string, columns: seq<string>, rows: seq<Row>, rest: seq<Token>)
    requires columns != [] && rows != [] && PlainRows(rows)
    ensures ReadStatement(InsertTokens(table, columns, rows) + rest) == Some((Statement(table, columns, Meanings(rows)), rest))
  {
    NestTokens(table, columns, rows, rest);
    var body := RowsTokens(rows) + ([Punct(';')] + rest);
    var values := [Word("VALUES")] + body;
    var names := NamesTokens(columns) + ([Punct(')')] + values);
    var inside := [Punct('(')] + names;
    var target := [Name(table)] + inside;
    Take(Word("INSERT"), [Word("INTO")] + target);
    Take(Word("INTO"), target);
    Take(Name(table), inside);
    Take(Punct('('), names);
    ReadAllNames(columns, values);
    Take(Word("VALUES"), body);
    ReadAllRows(rows, rest);
  }

  // ----- round trip -----

  function AllRows(statements: seq<Statement>): seq<Row> {
    if statements == [] then [] else statements[0].rows + AllRows(statements[1..])
  }

  predicate Targets(statements: seq<Statement>, table: string, columns: seq<string>, size: nat) {
    forall i :: 0 <= i < |statements| ==>
      statements[i].table == table && statements[i].columns == columns && 0 < |statements[i].rows| <= size
  }

  /** What the reader makes of the text: these statements for the table, holding these rows. */
  predicate ReadsBack(sql: string, table: string, columns: seq<string>, rows: seq<Row>, size: nat) {
    var statements := Read(sql);
    statements.Some? && Targets(statements.value, table, columns, size) && AllRows(statements.value) == Meanings(rows)
  }

  lemma InsertReads(table: string, columns: seq<string>, rows: seq<Row>, rest: string)
    requires '`' !in table && PlainNames(columns) && rows != [] && PlainRows(rows) && Read(rest).Some?
    ensures Read(InsertText(table, columns, RowTexts(rows)) + rest) == Some([Statement(table, columns, Meanings(rows))] + Read(rest).value)
  {
    LexInsert(table, columns, rows, rest);
    ReadOneStatement(table, columns, rows, Lex(rest).value);
  }

  lemma InsertReadsBack(table: string, columns: seq<string>, rows: seq<Row>, more: seq<Row>, rest: string, size: nat)
    requires '`' !in table && PlainNames(columns) && 0 < |rows| <= size && PlainRows(rows)
    requires ReadsBack(rest, table, columns, more, size)
    ensures ReadsBack(InsertText(table, columns, RowTexts(rows)) + rest, table, columns, rows + more, size)
  {
    InsertReads(table, columns, rows, rest);
    MeaningsAppend(rows, more);
    FirstStatement(Statement(table, columns, Meanings(rows)), Read(rest).value, table, columns, size);
  }

  lemma MeaningsAppend(rows: seq<Row>, more: seq<Row>)
    ensures Meanings(rows + more) == Meanings(rows) + Meanings(more)
  {
  }

  lemma FirstStatement(s: Statement, later: seq<Statement>, table: string, columns: seq<string>, size: nat)
    requires s.table == table && s.columns == columns && 0 < |s.rows| <= size && Targets(later, table, columns, size)
    ensures Targets([s] + later, table, columns, size) && AllRows([s] + later) == s.rows + AllRows(later)
  {
    assert ([s] + later)[1..] == later;
  }

  lemma NothingReads(table: string, columns: seq<string>, size: nat)
    ensures ReadsBack("", table, columns, [], size)
  {
    assert Lex("") == Some([]);
  }

  /** The chunks from `start` on read back as the rows from `start` on. */
  predicate ReadsFrom(table: string, columns: seq<string>, rows: seq<Row>, size: nat, start: nat)
    requires size > 0
  {
    ReadsBack(ChunksText(table, columns, RowTexts(rows), size, start), table, columns, rows[Min(start, |rows|)..], size)
  }

  lemma ChunkReadsBack(table: string, columns: seq<string>, rows: seq<Row>, size: nat, start: nat)
    requires size > 0 && '`' !in table && PlainNames(columns) && PlainRows(rows) && start < |rows|
    requires ReadsFrom(table, columns, rows, size, start + size)
    ensures ReadsFrom(table, columns, rows, size, start)
  {
    ChunkBeforeTail(table, columns, rows, size, start, ChunksText(table, columns, RowTexts(rows), size, start + size));
  }

  lemma ChunkBeforeTail(table: string, columns: seq<string>, rows: seq<Row>, size: nat, start: nat, tail: string)
    requires size > 0 && '`' !in table && PlainNames(columns) && PlainRows(rows) && start < |rows|
    requires ReadsBack(tail, table, columns, rows[Min(start + size, |rows|)..], size)
    ensures ReadsBack(InsertText(table, columns, Chunk(RowTexts(rows), size, start)) + tail, table, columns,
                      rows[start..], size)
  {
    var chunk := Chunk(rows, size, start);
    InsertReadsBack(table, columns, chunk, rows[Min(start + size, |rows|)..], tail, size);
    ChunkOfRows(rows, size, start);
    ChunkFirst(rows, size, start);
  }

  lemma ChunkOfRows(rows: seq<Row>, size: nat, start: nat)
    requires start < |rows|
    ensures RowTexts(Chunk(rows, size, start)) == Chunk(RowTexts(rows), size, start)
  {
  }

  lemma ChunkFirst(rows: seq<Row>, size: nat, start: nat)
    requires start < |rows|
    ensures rows[start..] == Chunk(rows, size, start) + rows[Min(start + size, |rows|)..]
  {
  }

  /** SQL round trip: for every batch size, what MySQL reads from the emitted statements is exactly the
      original rows in order, in batches of at most that size for the same table and columns. */
  lemma SqlRoundTrip(table: string, columns: seq<string>, rows: seq<Row>, size: nat)
    requires size > 0 && '`' !in table && PlainNames(columns) && PlainRows(rows)
    ensures ReadsBack(ChunksText(table, columns, RowTexts(rows), size, 0), table, columns, rows, size)
  {
    ChunksReadBack(table, columns, rows, size);
    WholeReadsBack(table, columns, rows, size);
  }

  lemma ChunksReadBack(table: string, columns: seq<string>, rows: seq<Row>, size: nat)
    requires size > 0 && '`' !in table && PlainNames(columns) && PlainRows(rows)
    ensures ReadsFrom(table, columns, rows, size, 0)
  {
    EndsReadBack(table, columns, rows, size);
    StepsReadBack(table, columns, rows, size);
    ByChunks(|rows|, size, 0, (start: nat) => ReadsFrom(table, columns, rows, size, start));
  }

  lemma EndsReadBack(table: string, columns: seq<string>, rows: seq<Row>, size: nat)
    requires size > 0
    ensures forall start: nat :: start >= |rows| ==> ReadsFrom(table, columns, rows, size, start)
  {
    forall start: nat | start >= |rows|
      ensures ReadsFrom(table, columns, rows, size, start)
    {
      EndReadsBack(table, columns, rows, size, start);
    }
  }

  lemma StepsReadBack(table: string, columns: seq<string>, rows: seq<Row>, size: nat)
    requires size > 0 && '`' !in table && PlainNames(columns) && PlainRows(rows)
    ensures forall start: nat :: start < |rows| && ReadsFrom(table, columns, rows, size, start + size) ==>
              ReadsFrom(table, columns, rows, size, start)
  {
    forall start: nat | start < |rows| && ReadsFrom(table, columns, rows, size, start + size)
      ensures ReadsFrom(table, columns, rows, size, start)
    {
      ChunkReadsBack(table, columns, rows, size, start);
    }
  }

  lemma EndReadsBack(table: string, columns: seq<string>, rows: seq<Row>, size: nat, start: nat)
    requires size > 0 && start >= |rows|
    ensures ReadsFrom(table, columns, rows, size, start)
  {
    NothingReads(table, columns, size);
  }

  lemma WholeReadsBack(table: string, columns: seq<string>, rows: seq<Row>, size: nat)
    requires size > 0 && ReadsFrom(table, columns, rows, size, 0)
    ensures ReadsBack(ChunksText(table, columns, RowTexts(rows), size, 0), table, columns, rows, size)
  {
    assert rows[0..] == rows;
  }

  /** Induction over the starts of the chunks, from the last one to the first. */
  lemma {:induction false} ByChunks(n: nat, size: nat, start: nat, good: nat -> bool)
    requires size > 0 && (forall i: nat :: i >= n ==> good(i)) && (forall i: nat :: i < n && good(i + size) ==> good(i))
    ensures good(start)
    decreases n - start
  {
    if start < n {
      ByChunks(n, size, start + size, good);
    }
  }
}
