/** Names of the daily cost fields: officer, optional project and dimension,
    joined by underscores that two of the three may themselves contain. */
module CostFields {
  import opened Options

  datatype Dim = CostMicro | CacheWrite | CacheRead | Input | Output

  function DimName(d: Dim): string {
    match d
    case CostMicro => "cost_micro"
    case CacheWrite => "cache_write"
    case CacheRead => "cache_read"
    case Input => "input"
    case Output => "output"
  }

  datatype Field = Field(officer: string, project: Option<string>, dim: Dim)

  const MAX_SLUG := 32

  predicate Alphanumeric(c: char) {
    'a' <= c <= 'z' || '0' <= c <= '9'
  }

  predicate ValidSlug(s: string) {
    && 1 <= |s| <= MAX_SLUG && Alphanumeric(s[0])
    && forall c | c in s :: Alphanumeric(c) || c == '-'
  }

  /** A slug is 1 to 32 lower-case letters, digits and dashes and does not begin with
      a dash; in particular it holds neither of the separators. */
  lemma SlugExactly(s: string)
    ensures ValidSlug(s) <==>
              1 <= |s| <= 32 && s[0] != '-' && forall i | 0 <= i < |s| :: s[i] == '-' || 'a' <= s[i] <= 'z' || '0' <= s[i] <= '9'
    ensures ValidSlug(s) ==> '_' !in s && ':' !in s && s != ""
  {
    if ValidSlug(s) {
      forall i | 0 <= i < |s| ensures s[i] == '-' || 'a' <= s[i] <= 'z' || '0' <= s[i] <= '9' {
        assert s[i] in s;
      }
    }
  }

  predicate WellFormed(f: Field) {
    ValidSlug(f.officer) && (f.project.Some? ==> ValidSlug(f.project.value))
  }

  // ----- splitting

  /** Pieces between underscores: one more than there are underscores. */
  function Split(s: string): (parts: seq<string>)
    ensures parts != []
    ensures forall p | p in parts :: '_' !in p
  {
    if s == "" then [""]
    else
      var rest := Split(s[1..]);
      if s[0] == '_' then [""] + rest else [[s[0]] + rest[0]] + rest[1..]
  }

  function Join(parts: seq<string>): string
    requires parts != []
  {
    if |parts| == 1 then parts[0] else parts[0] + "_" + Join(parts[1..])
  }

  lemma {:induction false} JoinSplit(s: string)
    ensures Join(Split(s)) == s
  {
    if s != "" {
      JoinSplit(s[1..]);
      var rest := Split(s[1..]);
      if s[0] == '_' {
        assert ([""] + rest)[1..] == rest;
      } else if |rest| > 1 {
        assert ([[s[0]] + rest[0]] + rest[1..])[1..] == rest[1..];
      }
    }
  }

  lemma {:induction false} SplitPiece(p: string, rest: string)
    requires '_' !in p
    ensures Split(p + "_" + rest) == [p] + Split(rest)
    ensures Split(p) == [p]
  {
    if p == "" {
      assert p + "_" + rest == "_" + rest && ("_" + rest)[1..] == rest;
    } else {
      assert p[0] in p && '_' !in p[1..];
      SplitPiece(p[1..], rest);
      assert (p + "_" + rest)[1..] == p[1..] + "_" + rest;
      assert [p[0]] + p[1..] == p;
    }
  }

  lemma {:induction false} SplitJoin(parts: seq<string>)
    requires parts != [] && forall p | p in parts :: '_' !in p
    ensures Split(Join(parts)) == parts
  {
    if |parts| == 1 {
      SplitPiece(parts[0], "");
    } else {
      SplitJoin(parts[1..]);
      SplitPiece(parts[0], Join(parts[1..]));
    }
  }

  // ----- the grammar

  function DimPieces(d: Dim): (pieces: seq<string>)
    ensures |pieces| == if d in {CostMicro, CacheWrite, CacheRead} then 2 else 1
  {
    match d
    case CostMicro => ["cost", "micro"]
    case CacheWrite => ["cache", "write"]
    case CacheRead => ["cache", "read"]
    case Input => ["input"]
    case Output => ["output"]
  }

  function Pieces(f: Field): seq<string> {
    [f.officer] + (if f.project.Some? then [f.project.value] else []) + DimPieces(f.dim)
  }

  function Print(f: Field): string {
    f.officer + "_" + (if f.project.Some? then f.project.value + "_" else "") + DimName(f.dim)
  }

  /** The dimension a list of pieces names, by their last two first. */
  function TwoPieceDim(a: string, b: string): Option<Dim> {
    if a == "cost" && b == "micro" then Some(CostMicro)
    else if a == "cache" && b == "write" then Some(CacheWrite)
    else if a == "cache" && b == "read" then Some(CacheRead)
    else None
  }

  function OnePieceDim(a: string): Option<Dim> {
    if a == "input" then Some(Input) else if a == "output" then Some(Output) else None
  }

  function OfPrefix(prefix: seq<string>, dim: Dim): Option<Field> {
    if |prefix| == 1 && ValidSlug(prefix[0]) then Some(Field(prefix[0], None, dim))
    else if |prefix| == 2 && ValidSlug(prefix[0]) && ValidSlug(prefix[1]) then
      Some(Field(prefix[0], Some(prefix[1]), dim))
    else None
  }

  /** The reader's decision on a field name; None when it is skipped. */
  function ParsePieces(parts: seq<string>): Option<Field> {
    var n := |parts|;
    if n >= 3 && TwoPieceDim(parts[n - 2], parts[n - 1]).Some? then
      OfPrefix(parts[..n - 2], TwoPieceDim(parts[n - 2], parts[n - 1]).value)
    else if n >= 2 && OnePieceDim(parts[n - 1]).Some? then OfPrefix(parts[..n - 1], OnePieceDim(parts[n - 1]).value)
    else None
  }

  function Parse(name: string): Option<Field> {
    ParsePieces(Split(name))
  }

  lemma PrintIsPieces(f: Field)
    ensures Print(f) == Join(Pieces(f))
  {
    var dim := DimPieces(f.dim);
    assert DimName(f.dim) == Join(dim) by {
      if |dim| == 2 {
        assert dim[1..] == [dim[1]];
      }
    }
    if f.project.None? {
      assert Pieces(f) == [f.officer] + dim && Pieces(f)[1..] == dim;
    } else {
      assert Pieces(f)[1..] == [f.project.value] + dim && Pieces(f)[1..][1..] == dim;
    }
  }

  lemma PiecesHaveNoUnderscore(f: Field)
    requires WellFormed(f)
    ensures forall p | p in Pieces(f) :: '_' !in p
  {
    assert !Alphanumeric('_') && '_' != '-';
    assert forall p | p in DimPieces(f.dim) :: '_' !in p;
  }

  lemma DimOfPieces(f: Field)
    requires WellFormed(f)
    ensures ParsePieces(Pieces(f)) == Some(f)
  {
    var parts, dim := Pieces(f), DimPieces(f.dim);
    var n := |parts|;
    var prefix := [f.officer] + if f.project.Some? then [f.project.value] else [];
    assert parts == prefix + dim;
    if |dim| == 2 {
      assert parts[n - 2] == dim[0] && parts[n - 1] == dim[1] && parts[..n - 2] == prefix;
    } else {
      assert parts[n - 1] == dim[0] && parts[..n - 1] == prefix;
      assert TwoPieceDim(parts[n - 2], dim[0]).None?;
    }
  }

  /** The grammar is unambiguous and the reader knows it exactly: a name is read
      as a field if and only if that field, with valid slugs, prints as the name. */
  lemma ParseExactly(name: string, f: Field)
    ensures Parse(name) == Some(f) <==> WellFormed(f) && Print(f) == name
  {
    if WellFormed(f) {
      PrintIsPieces(f);
      PiecesHaveNoUnderscore(f);
      SplitJoin(Pieces(f));
      DimOfPieces(f);
    }
    if Parse(name) == Some(f) {
      ParsedPieces(Split(name), f);
      JoinSplit(name);
      PrintIsPieces(f);
    }
  }

  lemma ParsedPieces(parts: seq<string>, f: Field)
    requires ParsePieces(parts) == Some(f)
    ensures WellFormed(f) && Pieces(f) == parts
  {
    var n := |parts|;
    if n >= 3 && TwoPieceDim(parts[n - 2], parts[n - 1]).Some? {
      assert parts == parts[..n - 2] + [parts[n - 2], parts[n - 1]];
      assert DimPieces(f.dim) == [parts[n - 2], parts[n - 1]];
    } else {
      assert parts == parts[..n - 1] + [parts[n - 1]];
      assert DimPieces(f.dim) == [parts[n - 1]];
    }
  }

  // ----- keys of the combined rollup

  /** Python prints a missing project as None, which no slug can spell. */
  function Key(officer: string, project: Option<string>): string {
    officer + ":" + if project.Some? then project.value else "None"
  }

  function ColonAt(key: string): (i: nat)
    ensures i <= |key| && ':' !in key[..i] && (i < |key| ==> key[i] == ':')
  {
    if key == "" || key[0] == ':' then 0
    else
      var i := 1 + ColonAt(key[1..]);
      assert key[..i] == [key[0]] + key[1..][..i - 1];
      i
  }

  function OfficerOf(key: string): string {
    key[..ColonAt(key)]
  }

  function ProjectOf(key: string): Option<string> {
    var i := ColonAt(key);
    var project := if i < |key| then key[i + 1..] else "";
    if project != "None" then Some(project) else None
  }

  lemma KeyExactly(officer: string, project: Option<string>)
    requires ValidSlug(officer) && (project.Some? ==> ValidSlug(project.value))
    ensures OfficerOf(Key(officer, project)) == officer && ProjectOf(Key(officer, project)) == project
  {
    var key := Key(officer, project);
    assert !Alphanumeric(':') && !Alphanumeric("None"[0]);
    var rest := if project.Some? then project.value else "None";
    FirstColon(officer, rest);
    assert key == officer + ":" + rest && key[..|officer|] == officer && key[|officer| + 1..] == rest;
  }

  lemma {:induction false} FirstColon(before: string, rest: string)
    requires ':' !in before
    ensures ColonAt(before + ":" + rest) == |before|
  {
    if before == "" {
      assert (before + ":" + rest)[0] == ':';
    } else {
      assert before[0] in before && ':' !in before[1..];
      FirstColon(before[1..], rest);
      assert (before + ":" + rest)[1..] == before[1..] + ":" + rest;
    }
  }
}
