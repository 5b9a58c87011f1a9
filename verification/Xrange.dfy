/** The relay reads a stream as plain text, one line for each id, field name and
    value, and rebuilds the entries from the lines. */
module Xrange {
  // ----- characters, as Python classifies them

  predicate IsSpace(c: char) {
    || '\U{9}' <= c <= '\U{d}' || '\U{1c}' <= c <= ' ' || c == '\U{85}' || c == '\U{a0}' || c == '\U{1680}'
    || '\U{2000}' <= c <= '\U{200a}' || c == '\U{2028}' || c == '\U{2029}' || c == '\U{202f}' || c == '\U{205f}'
    || c == '\U{3000}'
  }

  predicate IsBreak(c: char) {
    || '\n' <= c <= '\r' || '\U{1c}' <= c <= '\U{1e}' || c == '\U{85}' || c == '\U{2028}' || c == '\U{2029}'
  }

  predicate IsDigit(c: char) {
    '0' <= c <= '9'
  }

  /** The three classes by code point: Python's white space, its line boundaries, which
      are all white space, and the ASCII digits. */
  lemma ClassesExactly(c: char)
    ensures var n := c as int;
            && (IsSpace(c) <==> n in {9, 10, 11, 12, 13, 28, 29, 30, 31, 32, 133, 160, 5760, 8192, 8193, 8194, 8195, 8196, 8197,
                                      8198, 8199, 8200, 8201, 8202, 8232, 8233, 8239, 8287, 12288})
            && (IsBreak(c) <==> n in {10, 11, 12, 13, 28, 29, 30, 133, 8232, 8233})
            && (IsDigit(c) <==> n in {48, 49, 50, 51, 52, 53, 54, 55, 56, 57})
    ensures IsBreak(c) ==> IsSpace(c)
  {
  }

  function Strip(s: string): (r: string)
    ensures Trimmed(r)
    ensures Trimmed(s) ==> r == s
    decreases |s|
  {
    if s == "" then ""
    else if IsSpace(s[0]) then Strip(s[1..])
    else if IsSpace(s[|s| - 1]) then Strip(s[..|s| - 1])
    else s
  }

  lemma {:induction false} StripKeepsLine(s: string)
    requires OneLine(s)
    ensures OneLine(Strip(s))
    decreases |s|
  {
    if s != "" {
      StripKeepsLine(s[1..]);
      StripKeepsLine(s[..|s| - 1]);
    }
  }

  predicate Trimmed(s: string) {
    s == "" || (!IsSpace(s[0]) && !IsSpace(s[|s| - 1]))
  }

  predicate OneLine(s: string) {
    forall c | c in s :: !IsBreak(c)
  }

  predicate Clean(s: string) {
    Trimmed(s) && OneLine(s)
  }

  // ----- entries as read

  type Fields = map<string, string>

  datatype Entry = Entry(id: string, fields: Fields)

  predicate StartsEntry(line: string) {
    line != "" && (IsDigit(line[0]) || '-' in line)
  }

  /** A line at which a field name is expected but the next id is found. */
  predicate IdShaped(line: string) {
    line != "" && IsDigit(line[0]) && '-' in line
  }

  /** Which lines start an entry, and which end the fields of one: a digit in front or a
      dash anywhere, and both. */
  lemma HeadersExactly(line: string)
    ensures StartsEntry(line) <==> line != "" && ('0' <= line[0] <= '9' || exists k :: 0 <= k < |line| && line[k] == '-')
    ensures IdShaped(line) <==> line != "" && '0' <= line[0] <= '9' && exists k :: 0 <= k < |line| && line[k] == '-'
    ensures IdShaped(line) ==> StartsEntry(line)
  {
  }

  function StripAll(lines: seq<string>): (r: seq<string>)
    ensures |r| == |lines| && forall i | 0 <= i < |lines| :: r[i] == Strip(lines[i])
  {
    seq(|lines|, i requires 0 <= i < |lines| => Strip(lines[i]))
  }

  /** Of stripped lines: fields up to the next id-shaped line or the end, and what
      follows them. */
  function ParseFields(lines: seq<string>, fields: Fields): (r: (Fields, seq<string>))
    ensures |r.1| <= |lines|
    decreases |lines|
  {
    if lines == [] then (fields, [])
    else if lines[0] == "" then ParseFields(lines[1..], fields)
    else if IdShaped(lines[0]) || |lines| < 2 then (fields, lines)
    else ParseFields(lines[2..], fields[lines[0] := lines[1]])
  }

  function ParseEntries(lines: seq<string>): seq<Entry>
    decreases |lines|
  {
    if lines == [] then []
    else if StartsEntry(lines[0]) then
      var r := ParseFields(lines[1..], map[]);
      [Entry(lines[0], r.0)] + ParseEntries(r.1)
    else ParseEntries(lines[1..])
  }

  /** The same reading by position: the fields, and where they end. */
  function FieldsFrom(lines: seq<string>, next: nat, fields: Fields): (r: (Fields, nat))
    requires next <= |lines|
    ensures next <= r.1 <= |lines|
    decreases |lines| - next
  {
    if next == |lines| then (fields, next)
    else if lines[next] == "" then FieldsFrom(lines, next + 1, fields)
    else if IdShaped(lines[next]) || next + 1 == |lines| then (fields, next)
    else FieldsFrom(lines, next + 2, fields[lines[next] := lines[next + 1]])
  }

  lemma {:induction false} PositionsAgree(lines: seq<string>, next: nat, fields: Fields)
    requires next <= |lines|
    ensures var r := FieldsFrom(lines, next, fields);
            ParseFields(lines[next..], fields) == (r.0, lines[r.1..])
    decreases |lines| - next
  {
    var rest := lines[next..];
    if next < |lines| {
      assert rest[0] == lines[next];
      if lines[next] == "" {
        assert rest[1..] == lines[next + 1..];
        PositionsAgree(lines, next + 1, fields);
      } else if !IdShaped(lines[next]) && next + 1 < |lines| {
        assert rest[2..] == lines[next + 2..] && rest[1] == lines[next + 1];
        PositionsAgree(lines, next + 2, fields[lines[next] := lines[next + 1]]);
      }
    }
  }

  /** The inner loop: name and value lines taken in pairs from position `start`. */
  method ParseRow(lines: seq<string>, start: nat) returns (fields: Fields, next: nat)
    requires start <= |lines|
    ensures (fields, next) == FieldsFrom(StripAll(lines), start, map[])
  {
    fields, next := map[], start;
    ghost var stripped := StripAll(lines);
    while next < |lines|
      invariant start <= next <= |lines|
      invariant FieldsFrom(stripped, next, fields) == FieldsFrom(stripped, start, map[])
    {
      var peek := Strip(lines[next]);
      if peek == "" {
        next := next + 1;
        continue;
      }
      if IdShaped(peek) || next + 1 >= |lines| {
        return;
      }
      fields := fields[peek := Strip(lines[next + 1])];
      next := next + 2;
    }
  }

  /** The relay's parser: an index into the lines, moved by two nested loops. */
  method ParseXrangeEntry(lines: seq<string>) returns (entries: seq<Entry>)
    ensures entries == ParseEntries(StripAll(lines))
  {
    entries := [];
    var i := 0;
    ghost var stripped := StripAll(lines);
    while i < |lines|
      invariant i <= |lines|
      invariant entries + ParseEntries(stripped[i..]) == ParseEntries(stripped)
    {
      var line := Strip(lines[i]);
      assert stripped[i..][1..] == stripped[i + 1..];
      if StartsEntry(line) {
        var fields, next := ParseRow(lines, i + 1);
        PositionsAgree(stripped, i + 1, map[]);
        assert ParseEntries(stripped[i..]) == [Entry(line, fields)] + ParseEntries(stripped[next..]);
        entries, i := entries + [Entry(line, fields)], next;
      } else {
        i := i + 1;
      }
    }
    assert stripped[|lines|..] == [];
  }

  // ----- text

  /** Python's `splitlines`: a carriage return and line feed together end one line. */
  function SplitLines(text: string): seq<string>
    decreases |text|
  {
    if text == "" then []
    else
      var n := LineEnd(text);
      if n == |text| then [text]
      else if text[n] == '\r' && n + 1 < |text| && text[n + 1] == '\n' then [text[..n]] + SplitLines(text[n + 2..])
      else [text[..n]] + SplitLines(text[n + 1..])
  }

  function LineEnd(text: string): (n: nat)
    ensures n <= |text|
    ensures forall k | 0 <= k < n :: !IsBreak(text[k])
    ensures n < |text| ==> IsBreak(text[n])
  {
    if text == "" || IsBreak(text[0]) then 0 else 1 + LineEnd(text[1..])
  }

  function Join(lines: seq<string>): string {
    if lines == [] then "" else lines[0] + "\n" + Join(lines[1..])
  }

  lemma SplitFirst(line: string, rest: string)
    requires OneLine(line)
    ensures SplitLines(line + "\n" + rest) == [line] + SplitLines(rest)
  {
    var text := line + "\n" + rest;
    assert text[|line|] == '\n' && forall k | 0 <= k < |line| :: text[k] == line[k];
    var n := LineEnd(text);
    assert n >= |line|;
    assert text[..|line|] == line && text[|line| + 1..] == rest;
  }

  lemma {:induction false} SplitJoin(lines: seq<string>)
    requires forall l | l in lines :: OneLine(l)
    ensures SplitLines(Join(lines)) == lines
  {
    if lines != [] {
      SplitJoin(lines[1..]);
      SplitFirst(lines[0], Join(lines[1..]));
    }
  }

  lemma {:induction false} SplitGivesLines(text: string)
    ensures forall l | l in SplitLines(text) :: OneLine(l)
    decreases |text|
  {
    if text != "" {
      var n := LineEnd(text);
      assert OneLine(text[..n]);
      if n < |text| {
        SplitGivesLines(text[n + 1..]);
        if n + 2 <= |text| {
          SplitGivesLines(text[n + 2..]);
        }
      }
    }
  }

  // ----- entries as stored, and how they print

  datatype Field = Field(name: string, value: string)

  datatype Stored = Stored(id: string, row: seq<Field>)

  /** Ids as the stream assigns them, and field names as the writers choose them. */
  predicate WellFormed(e: Stored) {
    && Clean(e.id) && IdShaped(e.id)
    && forall f | f in e.row :: GoodName(f.name)
  }

  predicate GoodName(name: string) {
    Clean(name) && name != "" && !IdShaped(name)
  }

  /** What the parser needs of a field once its lines are trimmed. */
  predicate Parseable(f: Field) {
    f.name != "" && !IdShaped(f.name)
  }

  predicate DistinctNames(row: seq<Field>) {
    forall i, j | 0 <= i < j < |row| :: row[i].name != row[j].name
  }

  predicate CleanValues(e: Stored) {
    forall f | f in e.row :: Clean(f.value)
  }

  function FieldMap(row: seq<Field>, fields: Fields): Fields {
    if row == [] then fields else FieldMap(row[1..], fields[row[0].name := row[0].value])
  }

  function Contents(stored: seq<Stored>): (r: seq<Entry>)
    ensures |r| == |stored|
  {
    if stored == [] then []
    else [Entry(stored[0].id, FieldMap(stored[0].row, map[]))] + Contents(stored[1..])
  }

  function PrintRow(row: seq<Field>): seq<string> {
    if row == [] then [] else [row[0].name, row[0].value] + PrintRow(row[1..])
  }

  function PrintEntries(stored: seq<Stored>): seq<string> {
    if stored == [] then [] else [stored[0].id] + (PrintRow(stored[0].row) + PrintEntries(stored[1..]))
  }

  function Text(stored: seq<Stored>): string {
    Join(PrintEntries(stored))
  }

  // ----- round trip

  lemma PairParses(f: Field, rest: seq<string>, fields: Fields)
    requires Parseable(f)
    ensures ParseFields([f.name, f.value] + rest, fields) == ParseFields(rest, fields[f.name := f.value])
  {
    var lines := [f.name, f.value] + rest;
    assert lines[0] == f.name && lines[1] == f.value && lines[2..] == rest;
  }

  lemma IdParses(id: string, rest: seq<string>)
    requires IdShaped(id)
    ensures ParseEntries([id] + rest)
            == [Entry(id, ParseFields(rest, map[]).0)] + ParseEntries(ParseFields(rest, map[]).1)
  {
    var lines := [id] + rest;
    assert lines[0] == id && lines[1..] == rest;
  }

  lemma {:induction false} RowRoundTrip(row: seq<Field>, rest: seq<string>, fields: Fields)
    requires forall f | f in row :: Parseable(f)
    requires rest == [] || IdShaped(rest[0])
    ensures ParseFields(PrintRow(row) + rest, fields) == (FieldMap(row, fields), rest)
    decreases |row|
  {
    if row == [] {
      assert PrintRow(row) + rest == rest;
    } else {
      var f, more := row[0], PrintRow(row[1..]);
      assert Parseable(f);
      RowRoundTrip(row[1..], rest, fields[f.name := f.value]);
      PairParses(f, more + rest, fields);
      assert PrintRow(row) + rest == [f.name, f.value] + (more + rest);
    }
  }

  lemma EntryRoundTrip(e: Stored, rest: seq<string>)
    requires IdShaped(e.id) && forall f | f in e.row :: Parseable(f)
    requires rest == [] || IdShaped(rest[0])
    ensures ParseEntries([e.id] + (PrintRow(e.row) + rest)) == [Entry(e.id, FieldMap(e.row, map[]))] + ParseEntries(rest)
  {
    RowRoundTrip(e.row, rest, map[]);
    IdParses(e.id, PrintRow(e.row) + rest);
  }

  lemma {:induction false} LinesRoundTrip(stored: seq<Stored>)
    requires forall e | e in stored :: WellFormed(e)
    ensures ParseEntries(PrintEntries(stored)) == Contents(stored)
  {
    if stored != [] {
      var rest := PrintEntries(stored[1..]);
      LinesRoundTrip(stored[1..]);
      assert WellFormed(stored[0]);
      if |stored| > 1 {
        assert WellFormed(stored[1]);
        assert rest[0] == stored[1].id;
      }
      EntryRoundTrip(stored[0], rest);
    }
  }

  lemma {:induction false} PrintedRowIsClean(row: seq<Field>)
    requires forall f | f in row :: Clean(f.name) && Clean(f.value)
    ensures forall l | l in PrintRow(row) :: Clean(l)
  {
    if row != [] {
      PrintedRowIsClean(row[1..]);
    }
  }

  lemma {:induction false} PrintedIsClean(stored: seq<Stored>)
    requires forall e | e in stored :: WellFormed(e) && CleanValues(e)
    ensures forall l | l in PrintEntries(stored) :: Clean(l)
  {
    if stored != [] {
      PrintedIsClean(stored[1..]);
      assert WellFormed(stored[0]) && CleanValues(stored[0]);
      PrintedRowIsClean(stored[0].row);
    }
  }

  // ----- what the parser can return at all

  predicate FieldsClean(fields: Fields) {
    forall name | name in fields :: Clean(fields[name])
  }

  lemma {:induction false} ParsedFieldsClean(lines: seq<string>, fields: Fields)
    requires FieldsClean(fields) && forall l | l in lines :: Clean(l)
    ensures FieldsClean(ParseFields(lines, fields).0)
    ensures forall l | l in ParseFields(lines, fields).1 :: Clean(l)
    decreases |lines|
  {
    if lines != [] {
      if lines[0] == "" {
        ParsedFieldsClean(lines[1..], fields);
      } else if !IdShaped(lines[0]) && |lines| >= 2 {
        assert Clean(lines[1]);
        ParsedFieldsClean(lines[2..], fields[lines[0] := lines[1]]);
      }
    }
  }

  lemma {:induction false} ParsedClean(lines: seq<string>)
    requires forall l | l in lines :: Clean(l)
    ensures forall e | e in ParseEntries(lines) :: FieldsClean(e.fields)
    decreases |lines|
  {
    if lines != [] {
      if StartsEntry(lines[0]) {
        ParsedFieldsClean(lines[1..], map[]);
        ParsedClean(ParseFields(lines[1..], map[]).1);
      } else {
        ParsedClean(lines[1..]);
      }
    }
  }

  lemma StrippedIsClean(lines: seq<string>)
    requires forall l | l in lines :: OneLine(l)
    ensures forall l | l in StripAll(lines) :: Clean(l)
  {
    forall l | l in StripAll(lines) ensures Clean(l) {
      var i :| 0 <= i < |lines| && StripAll(lines)[i] == l;
      StripKeepsLine(lines[i]);
    }
  }

  lemma {:induction false} FieldMapHolds(row: seq<Field>, fields: Fields, k: nat)
    requires DistinctNames(row) && k < |row|
    ensures row[k].name in FieldMap(row, fields) && FieldMap(row, fields)[row[k].name] == row[k].value
    decreases |row|
  {
    if k == 0 {
      FieldMapKeeps(row[1..], fields[row[0].name := row[0].value], row[0].name);
    } else {
      FieldMapHolds(row[1..], fields[row[0].name := row[0].value], k - 1);
    }
  }

  lemma {:induction false} FieldMapKeeps(row: seq<Field>, fields: Fields, name: string)
    requires name in fields && forall k | 0 <= k < |row| :: row[k].name != name
    ensures name in FieldMap(row, fields) && FieldMap(row, fields)[name] == fields[name]
    decreases |row|
  {
    if row != [] {
      FieldMapKeeps(row[1..], fields[row[0].name := row[0].value], name);
    }
  }

  lemma {:induction false} ContentsAt(stored: seq<Stored>, k: nat)
    requires k < |stored|
    ensures Contents(stored)[k] == Entry(stored[k].id, FieldMap(stored[k].row, map[]))
  {
    if k > 0 {
      ContentsAt(stored[1..], k - 1);
    }
  }

  lemma {:induction false} CleanStripsToItself(lines: seq<string>)
    requires forall l | l in lines :: Clean(l)
    ensures StripAll(lines) == lines
  {
    assert forall i | 0 <= i < |lines| :: Clean(lines[i]);
  }

  /** What the relay gets from the text of a stream. */
  function Read(text: string): seq<Entry> {
    ParseEntries(StripAll(SplitLines(text)))
  }

  /** Reading back the printed stream gives exactly the stored entries if and only
      if every value is a single trimmed line; empty values are fine. */
  lemma RoundTripExactly(stored: seq<Stored>)
    requires forall e | e in stored :: WellFormed(e) && DistinctNames(e.row)
    ensures Read(Text(stored)) == Contents(stored) <==> forall e | e in stored :: CleanValues(e)
  {
    if forall e | e in stored :: CleanValues(e) {
      CleanRoundTrip(stored);
    }
    if Read(Text(stored)) == Contents(stored) {
      SplitGivesLines(Text(stored));
      StrippedIsClean(SplitLines(Text(stored)));
      ParsedClean(StripAll(SplitLines(Text(stored))));
      forall e | e in stored ensures CleanValues(e) {
        var k :| 0 <= k < |stored| && stored[k] == e;
        ContentsAt(stored, k);
        assert Contents(stored)[k] in Contents(stored);
        forall f | f in e.row ensures Clean(f.value) {
          var j :| 0 <= j < |e.row| && e.row[j] == f;
          FieldMapHolds(e.row, map[], j);
        }
      }
    }
  }

  lemma CleanRoundTrip(stored: seq<Stored>)
    requires forall e | e in stored :: WellFormed(e) && CleanValues(e)
    ensures Read(Text(stored)) == Contents(stored)
  {
    PrintedIsClean(stored);
    SplitJoin(PrintEntries(stored));
    CleanStripsToItself(PrintEntries(stored));
    LinesRoundTrip(stored);
  }
}
