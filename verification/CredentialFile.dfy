/** The credential file: one printer, and the three readers that must recover what it wrote. */
module CredentialFile {
  import opened Common

  // ----- character classes of Python's str -----

  type Ranges = seq<(int, int)>

  predicate Among(n: int, ranges: Ranges) {
    ranges != [] && (ranges[0].0 <= n <= ranges[0].1 || Among(n, ranges[1..]))
  }

  /** Boundaries of `str.splitlines`. */
  const BREAKS: Ranges := [(10, 13), (28, 30), (0x85, 0x85), (0x2028, 0x2029)]

  /** Characters removed by `str.strip`, besides the boundaries. */
  const BLANKS: Ranges := [(9, 9), (31, 32), (0xA0, 0xA0), (0x1680, 0x1680), (0x2000, 0x200A), (0x202F, 0x202F),
                           (0x205F, 0x205F), (0x3000, 0x3000)]

  predicate IsBreak(c: char) {
    Among(c as int, BREAKS)
  }

  predicate IsSpace(c: char) {
    IsBreak(c) || Among(c as int, BLANKS)
  }

  lemma {:induction false} OutsideAll(n: int, ranges: Ranges)
    requires forall i :: 0 <= i < |ranges| ==> !(ranges[i].0 <= n <= ranges[i].1)
    ensures !Among(n, ranges)
  {
    if ranges != [] {
      OutsideAll(n, ranges[1..]);
    }
  }

  /** The characters the file format itself uses. */
  lemma FormatCharacters()
    ensures IsBreak('\n')
    ensures !IsSpace('=') && !IsSpace('\'') && !IsSpace('#')
  {
    OutsideAll('=' as int, BREAKS);
    OutsideAll('=' as int, BLANKS);
    OutsideAll('\'' as int, BREAKS);
    OutsideAll('\'' as int, BLANKS);
    OutsideAll('#' as int, BREAKS);
    OutsideAll('#' as int, BLANKS);
  }

  predicate NoBreak(s: string) {
    forall i :: 0 <= i < |s| ==> !IsBreak(s[i])
  }

  // ----- the printer -----

  function Entry(key: string, value: string): string {
    key + "='" + value + "'"
  }

  /** `_write_private_env`: a comment line, then one entry per key, each ended by a newline. */
  function Content(comment: string, keys: seq<string>, creds: map<string, string>): string
    requires forall k :: k in keys ==> k in creds
  {
    if keys == [] then comment + "\n"
    else Content(comment, keys[..|keys| - 1], creds) + (Entry(keys[|keys| - 1], creds[keys[|keys| - 1]]) + "\n")
  }

  predicate IsComment(comment: string) {
    comment != "" && comment[0] == '#' && NoBreak(comment)
  }

  // ----- the readers -----

  /** Up to the first line boundary; `\r\n` counts as one. */
  function FirstBreak(s: string): (i: nat)
    ensures i <= |s| && (forall j :: 0 <= j < i ==> !IsBreak(s[j])) && (i < |s| ==> IsBreak(s[i]))
  {
    if s == "" || IsBreak(s[0]) then 0
    else
      var i := FirstBreak(s[1..]) + 1;
      assert forall j :: 0 < j < i ==> s[j] == s[1..][j - 1];
      i
  }

  function SplitLines(s: string): seq<string>
    decreases |s|
  {
    if s == "" then []
    else
      var i := FirstBreak(s);
      if i == |s| then [s]
      else [s[..i]] + SplitLines(s[i + if s[i] == '\r' && i + 1 < |s| && s[i + 1] == '\n' then 2 else 1..])
  }

  /** The number of leading spaces. */
  function Leading(s: string): (i: nat)
    ensures i <= |s| && (i < |s| ==> !IsSpace(s[i]))
  {
    if s == "" || !IsSpace(s[0]) then 0 else Leading(s[1..]) + 1
  }

  /** The length without trailing spaces. */
  function Kept(s: string): (j: nat)
    ensures j <= |s| && (j > 0 ==> !IsSpace(s[j - 1]))
  {
    if s == "" then 0
    else if IsSpace(s[|s| - 1]) then Kept(s[..|s| - 1])
    else |s|
  }

  function Strip(s: string): (r: string)
    ensures Trimmed(r)
  {
    var left := s[Leading(s)..];
    left[..Kept(left)]
  }

  predicate Trimmed(s: string) {
    s == "" || (!IsSpace(s[0]) && !IsSpace(s[|s| - 1]))
  }

  function IndexOf(s: string, c: char): (i: nat)
    requires c in s
    ensures i < |s| && s[i] == c && forall j :: 0 <= j < i ==> s[j] != c
  {
    if s[0] == c then 0
    else
      assert c in s[1..];
      var i := IndexOf(s[1..], c) + 1;
      assert forall j :: 0 < j < i ==> s[j] == s[1..][j - 1];
      i
  }

  function Unquoted(v: string): string {
    if |v| >= 2 && v[0] == v[|v| - 1] && (v[0] == '\'' || v[0] == '"') then v[1..|v| - 1] else v
  }

  /** The two sides of the first equals sign. */
  function LeftPart(t: string): string
    requires '=' in t
  {
    t[..IndexOf(t, '=')]
  }

  function RightPart(t: string): string
    requires '=' in t
  {
    t[IndexOf(t, '=') + 1..]
  }

  function KeyOf(t: string): string
    requires '=' in t
  {
    Strip(LeftPart(t))
  }

  function ValueOf(t: string): string
    requires '=' in t
  {
    Unquoted(Strip(RightPart(t)))
  }

  /** The bootstrap job strips each line first; the Spark and Flink jobs share a simpler loop. */
  datatype Reader = Bootstrap | Service

  function Considered(reader: Reader, line: string): string {
    if reader.Bootstrap? then Strip(line) else line
  }

  predicate Carries(t: string) {
    t != "" && t[0] != '#' && '=' in t
  }

  /** What one line adds to the credentials read so far. */
  function ReadLine(reader: Reader, earlier: map<string, string>, line: string): map<string, string> {
    var t := Considered(reader, line);
    if Carries(t) then earlier[KeyOf(t) := ValueOf(t)] else earlier
  }

  function ReadLines(reader: Reader, lines: seq<string>): map<string, string> {
    if lines == [] then map[] else ReadLine(reader, ReadLines(reader, lines[..|lines| - 1]), lines[|lines| - 1])
  }

  function Parsed(reader: Reader, text: string): map<string, string> {
    ReadLines(reader, SplitLines(text))
  }

  method Unquote(v: string) returns (val: string)
    ensures val == Unquoted(v)
  {
    val := v;
    if |val| >= 2 && val[0] == val[|val| - 1] && (val[0] == '\'' || val[0] == '"') {
      val := val[1..|val| - 1];
    }
  }

  /** The partition, strip and unquote steps that all three loops share. */
  method ReadPair(t: string) returns (key: string, val: string)
    requires '=' in t
    ensures key == KeyOf(t) && val == ValueOf(t)
  {
    key := Strip(LeftPart(t));
    val := Unquote(Strip(RightPart(t)));
  }

  /** `load_saved_credentials`. */
  method LoadSavedCredentials(text: string) returns (creds: map<string, string>)
    ensures creds == Parsed(Bootstrap, text)
  {
    creds := map[];
    var lines := SplitLines(text);
    for i := 0 to |lines|
      invariant creds == ReadLines(Bootstrap, lines[..i])
    {
      assert lines[..i + 1][..i] == lines[..i];
      var line := Strip(lines[i]);
      if line == "" || line[0] == '#' || '=' !in line { continue; }
      var key, val := ReadPair(line);
      creds := creds[key := val];
    }
    assert lines[..|lines|] == lines;
  }

  /** The loop shared by `polaris_flink_credentials` and `_polaris_credentials`. */
  method ReadServiceCredentials(text: string) returns (env: map<string, string>)
    ensures env == Parsed(Service, text)
  {
    env := map[];
    var lines := SplitLines(text);
    for i := 0 to |lines|
      invariant env == ReadLines(Service, lines[..i])
    {
      assert lines[..i + 1][..i] == lines[..i];
      if '=' in lines[i] && lines[i][0] != '#' {
        var key, val := ReadPair(lines[i]);
        env := env[key := val];
      }
    }
    assert lines[..|lines|] == lines;
  }

  // ----- what the readers can return -----

  /** A key the file format can carry. */
  predicate GoodKey(k: string) {
    '=' !in k && NoBreak(k) && Trimmed(k) && Readable(k)
  }

  /** Not taken for a comment. */
  predicate Readable(k: string) {
    k == "" || k[0] != '#'
  }

  lemma TrimmedStays(s: string)
    requires Trimmed(s)
    ensures Strip(s) == s
  {
  }

  lemma StripKeeps(s: string)
    ensures NoBreak(s) ==> NoBreak(Strip(s))
    ensures '=' !in s ==> '=' !in Strip(s)
  {
    var r := Strip(s);
    assert forall i :: 0 <= i < |r| ==> r[i] == s[Leading(s) + i];
  }

  predicate Clean(key: string, value: string) {
    '=' !in key && NoBreak(key) && Trimmed(key) && NoBreak(value)
  }

  lemma KeyIsClean(t: string)
    requires NoBreak(t) && '=' in t
    ensures '=' !in KeyOf(t) && NoBreak(KeyOf(t)) && Trimmed(KeyOf(t))
  {
    var prefix := LeftPart(t);
    assert '=' !in prefix;
    StripKeeps(prefix);
  }

  lemma ValueIsClean(t: string)
    requires NoBreak(t) && '=' in t
    ensures NoBreak(ValueOf(t))
  {
    var suffix := RightPart(t);
    StripKeeps(suffix);
    UnquotedKeeps(Strip(suffix));
  }

  lemma UnquotedKeeps(v: string)
    requires NoBreak(v)
    ensures NoBreak(Unquoted(v))
  {
  }

  predicate AllClean(m: map<string, string>) {
    forall k :: k in m ==> Clean(k, m[k])
  }

  lemma LineKeepsClean(reader: Reader, line: string, m: map<string, string>)
    requires NoBreak(line) && AllClean(m)
    ensures AllClean(ReadLine(reader, m, line))
  {
    StripKeeps(line);
    var t := Considered(reader, line);
    if Carries(t) {
      KeyIsClean(t);
      ValueIsClean(t);
    }
  }

  lemma {:induction false} ReadLinesAreClean(reader: Reader, lines: seq<string>)
    requires forall i :: 0 <= i < |lines| ==> NoBreak(lines[i])
    ensures AllClean(ReadLines(reader, lines))
  {
    if lines != [] {
      var n := |lines| - 1;
      ReadLinesAreClean(reader, lines[..n]);
      LineKeepsClean(reader, lines[n], ReadLines(reader, lines[..n]));
    }
  }

  lemma {:induction false} LinesHaveNoBreak(s: string)
    ensures forall i :: 0 <= i < |SplitLines(s)| ==> NoBreak(SplitLines(s)[i])
    decreases |s|
  {
    if s != "" {
      var i := FirstBreak(s);
      if i < |s| {
        LinesHaveNoBreak(s[i + if s[i] == '\r' && i + 1 < |s| && s[i + 1] == '\n' then 2 else 1..]);
      }
    }
  }

  // ----- what the printer's text splits into -----

  predicate Writable(keys: seq<string>, creds: map<string, string>) {
    forall k :: k in keys ==> k in creds && NoBreak(k) && NoBreak(creds[k])
  }

  function EntryLines(comment: string, keys: seq<string>, creds: map<string, string>): seq<string>
    requires forall k :: k in keys ==> k in creds
  {
    [comment] + seq(|keys|, i requires 0 <= i < |keys| => Entry(keys[i], creds[keys[i]]))
  }

  lemma FirstBreakAfter(line: string, rest: string)
    requires NoBreak(line)
    ensures FirstBreak(line + "\n" + rest) == |line|
  {
    FormatCharacters();
    var s := line + "\n" + rest;
    assert s[|line|] == '\n' && forall j :: 0 <= j < |line| ==> s[j] == line[j];
  }

  lemma SplitFirstLine(line: string, rest: string)
    requires NoBreak(line)
    ensures SplitLines(line + "\n" + rest) == [line] + SplitLines(rest)
  {
    var s := line + "\n" + rest;
    FirstBreakAfter(line, rest);
    assert s[..|line|] == line && s[|line| + 1..] == rest;
  }

  function Ended(lines: seq<string>): string {
    if lines == [] then "" else lines[0] + "\n" + Ended(lines[1..])
  }

  lemma {:induction false} EndedLinesSplit(lines: seq<string>)
    requires forall i :: 0 <= i < |lines| ==> NoBreak(lines[i])
    ensures SplitLines(Ended(lines)) == lines
  {
    if lines != [] {
      EndedLinesSplit(lines[1..]);
      SplitFirstLine(lines[0], Ended(lines[1..]));
    }
  }

  lemma {:induction false} EndedAppend(lines: seq<string>, line: string)
    ensures Ended(lines + [line]) == Ended(lines) + (line + "\n")
  {
    if lines == [] {
      assert Ended([line]) == line + "\n" + Ended([line][1..]);
      assert Ended([]) + (line + "\n") == line + "\n";
    } else {
      EndedAppend(lines[1..], line);
      assert (lines + [line])[1..] == lines[1..] + [line];
    }
  }

  lemma {:induction false} ContentIsEnded(comment: string, keys: seq<string>, creds: map<string, string>)
    requires forall k :: k in keys ==> k in creds
    ensures Content(comment, keys, creds) == Ended(EntryLines(comment, keys, creds))
  {
    if keys == [] {
      EndedAppend([], comment);
      assert EntryLines(comment, keys, creds) == [] + [comment];
    } else {
      var n := |keys| - 1;
      ContentIsEnded(comment, keys[..n], creds);
      EndedAppend(EntryLines(comment, keys[..n], creds), Entry(keys[n], creds[keys[n]]));
      assert EntryLines(comment, keys, creds) == EntryLines(comment, keys[..n], creds) + [Entry(keys[n], creds[keys[n]])];
    }
  }

  lemma EntryHasNoBreak(key: string, value: string)
    requires NoBreak(key) && NoBreak(value)
    ensures NoBreak(Entry(key, value))
  {
    FormatCharacters();
    forall i | 0 <= i < |Entry(key, value)|
      ensures !IsBreak(Entry(key, value)[i])
    {
      if i < |key| {
        assert Entry(key, value)[i] == key[i];
      } else if |key| + 2 <= i < |key| + 2 + |value| {
        assert Entry(key, value)[i] == value[i - |key| - 2];
      }
    }
  }

  lemma ContentSplits(comment: string, keys: seq<string>, creds: map<string, string>)
    requires IsComment(comment) && Writable(keys, creds)
    ensures SplitLines(Content(comment, keys, creds)) == EntryLines(comment, keys, creds)
  {
    var lines := EntryLines(comment, keys, creds);
    forall i | 0 <= i < |lines|
      ensures NoBreak(lines[i])
    {
      if i > 0 {
        assert keys[i - 1] in keys;
        EntryHasNoBreak(keys[i - 1], creds[keys[i - 1]]);
      }
    }
    ContentIsEnded(comment, keys, creds);
    EndedLinesSplit(lines);
  }

  // ----- round trip -----

  lemma IndexAfter(key: string, rest: string)
    requires '=' !in key
    ensures IndexOf(key + "=" + rest, '=') == |key|
  {
    var s := key + "=" + rest;
    assert s[|key|] == '=' && forall j :: 0 <= j < |key| ==> s[j] == key[j];
    assert forall j :: 0 <= j < |key| ==> key[j] in key;
  }

  lemma EntryParts(key: string, value: string)
    requires '=' !in key
    ensures '=' in Entry(key, value)
    ensures LeftPart(Entry(key, value)) == key && RightPart(Entry(key, value)) == "'" + value + "'"
  {
    var line := Entry(key, value);
    assert line == key + "=" + ("'" + value + "'");
    IndexAfter(key, "'" + value + "'");
    assert line[|key|] == '=' && line[..|key|] == key && line[|key| + 1..] == "'" + value + "'";
  }

  lemma EntryIsConsidered(reader: Reader, key: string, value: string)
    requires '=' !in key && Trimmed(key)
    ensures Considered(reader, Entry(key, value)) == Entry(key, value)
    ensures Carries(Entry(key, value)) <==> Readable(key)
  {
    var line := Entry(key, value);
    FormatCharacters();
    assert line[|line| - 1] == '\'' && line[0] == if key == "" then '=' else key[0];
    assert line[|key|] == '=';
    TrimmedStays(line);
  }

  lemma EntryKey(key: string, value: string)
    requires '=' !in key && Trimmed(key)
    ensures '=' in Entry(key, value) && KeyOf(Entry(key, value)) == key
  {
    EntryParts(key, value);
    TrimmedStays(key);
  }

  lemma EntryValue(key: string, value: string)
    requires '=' !in key && Trimmed(key)
    ensures '=' in Entry(key, value) && ValueOf(Entry(key, value)) == value
  {
    EntryParts(key, value);
    UnquoteQuoted(value);
  }

  lemma EntryPair(key: string, value: string)
    requires '=' !in key && Trimmed(key)
    ensures '=' in Entry(key, value) && KeyOf(Entry(key, value)) == key && ValueOf(Entry(key, value)) == value
  {
    EntryKey(key, value);
    EntryValue(key, value);
  }

  lemma UnquoteQuoted(value: string)
    ensures Unquoted(Strip("'" + value + "'")) == value
  {
    var quoted := "'" + value + "'";
    FormatCharacters();
    TrimmedStays(quoted);
    assert quoted[1..|quoted| - 1] == value;
  }

  function Chosen(keys: seq<string>, creds: map<string, string>): map<string, string>
    requires forall k :: k in keys ==> k in creds
  {
    map k | k in keys :: creds[k]
  }

  function Legible(keys: seq<string>, creds: map<string, string>): map<string, string>
    requires forall k :: k in keys ==> k in creds
  {
    map k | k in keys && Readable(k) :: creds[k]
  }

  lemma LegibleStep(keys: seq<string>, creds: map<string, string>)
    requires keys != [] && forall k :: k in keys ==> k in creds
    ensures var n := |keys| - 1;
            Legible(keys, creds) ==
              if Readable(keys[n]) then Legible(keys[..n], creds)[keys[n] := creds[keys[n]]] else Legible(keys[..n], creds)
  {
    var n := |keys| - 1;
    assert keys == keys[..n] + [keys[n]];
  }

  /** What is read back of the entries: those whose key is not taken for a comment. */
  lemma {:induction false} EntriesReadBack(reader: Reader, comment: string, keys: seq<string>, creds: map<string, string>)
    requires IsComment(comment) && forall k :: k in keys ==> k in creds && '=' !in k && Trimmed(k)
    ensures ReadLines(reader, EntryLines(comment, keys, creds)) == Legible(keys, creds)
  {
    if keys == [] {
      CommentIsSkipped(reader, comment);
      ReadLinesNext(reader, [], comment);
      assert EntryLines(comment, keys, creds) == [] + [comment];
    } else {
      var n := |keys| - 1;
      EntriesReadBack(reader, comment, keys[..n], creds);
      EntryAdds(reader, comment, keys, creds);
      LegibleStep(keys, creds);
    }
  }

  lemma EntryLinesNext(comment: string, keys: seq<string>, creds: map<string, string>)
    requires keys != [] && forall k :: k in keys ==> k in creds
    ensures var n := |keys| - 1;
            EntryLines(comment, keys, creds) == EntryLines(comment, keys[..n], creds) + [Entry(keys[n], creds[keys[n]])]
  {
  }

  /** The last entry adds its pair to what the earlier lines give. */
  lemma EntryAdds(reader: Reader, comment: string, keys: seq<string>, creds: map<string, string>)
    requires keys != [] && forall k :: k in keys ==> k in creds && '=' !in k && Trimmed(k)
    ensures var n := |keys| - 1;
            var earlier := ReadLines(reader, EntryLines(comment, keys[..n], creds));
            ReadLines(reader, EntryLines(comment, keys, creds)) ==
              if Readable(keys[n]) then earlier[keys[n] := creds[keys[n]]] else earlier
  {
    var n := |keys| - 1;
    var lines := EntryLines(comment, keys[..n], creds);
    assert keys[n] in keys;
    EntryLinesNext(comment, keys, creds);
    ReadLinesNext(reader, lines, Entry(keys[n], creds[keys[n]]));
    EntryReads(reader, ReadLines(reader, lines), keys[n], creds[keys[n]]);
  }

  lemma ReadLinesNext(reader: Reader, lines: seq<string>, line: string)
    ensures ReadLines(reader, lines + [line]) == ReadLine(reader, ReadLines(reader, lines), line)
  {
    assert (lines + [line])[..|lines|] == lines;
  }

  lemma EntryReads(reader: Reader, earlier: map<string, string>, key: string, value: string)
    requires '=' !in key && Trimmed(key)
    ensures ReadLine(reader, earlier, Entry(key, value)) == if Readable(key) then earlier[key := value] else earlier
  {
    EntryIsConsidered(reader, key, value);
    EntryPair(key, value);
  }

  lemma CommentIsSkipped(reader: Reader, comment: string)
    requires IsComment(comment)
    ensures !Carries(Considered(reader, comment))
  {
    FormatCharacters();
    assert Leading(comment) == 0 && comment[0..] == comment;
    var t := Strip(comment);
    assert t == "" || t[0] == comment[0];
  }

  /** Credential-file round trip: every reader recovers exactly the written credentials if and only if
      each key is one the format can carry and no value contains a line break. */
  lemma CredentialRoundTrip(reader: Reader, comment: string, keys: seq<string>, creds: map<string, string>)
    requires IsComment(comment) && forall k :: k in keys ==> k in creds
    ensures Parsed(reader, Content(comment, keys, creds)) == Chosen(keys, creds) <==>
            forall k :: k in keys ==> GoodKey(k) && NoBreak(creds[k])
  {
    if forall k :: k in keys ==> GoodKey(k) && NoBreak(creds[k]) {
      GoodEntriesComeBack(reader, comment, keys, creds);
    }
    if Parsed(reader, Content(comment, keys, creds)) == Chosen(keys, creds) {
      OnlyGoodEntriesComeBack(reader, comment, keys, creds);
    }
  }

  lemma GoodEntriesComeBack(reader: Reader, comment: string, keys: seq<string>, creds: map<string, string>)
    requires IsComment(comment) && forall k :: k in keys ==> k in creds
    requires forall k :: k in keys ==> GoodKey(k) && NoBreak(creds[k])
    ensures Parsed(reader, Content(comment, keys, creds)) == Chosen(keys, creds)
  {
    ContentSplits(comment, keys, creds);
    EntriesReadBack(reader, comment, keys, creds);
    AllLegible(keys, creds);
  }

  lemma AllLegible(keys: seq<string>, creds: map<string, string>)
    requires forall k :: k in keys ==> k in creds && Readable(k)
    ensures Legible(keys, creds) == Chosen(keys, creds)
  {
  }

  lemma OnlyGoodEntriesComeBack(reader: Reader, comment: string, keys: seq<string>, creds: map<string, string>)
    requires IsComment(comment) && forall k :: k in keys ==> k in creds
    requires Parsed(reader, Content(comment, keys, creds)) == Chosen(keys, creds)
    ensures forall k :: k in keys ==> GoodKey(k) && NoBreak(creds[k])
  {
    var text := Content(comment, keys, creds);
    LinesHaveNoBreak(text);
    ReadLinesAreClean(reader, SplitLines(text));
    forall k | k in keys
      ensures Clean(k, creds[k])
    {
      assert k in Chosen(keys, creds);
    }
    ContentSplits(comment, keys, creds);
    EntriesReadBack(reader, comment, keys, creds);
    forall k | k in keys
      ensures Readable(k)
    {
      assert k in Chosen(keys, creds);
    }
  }
}
