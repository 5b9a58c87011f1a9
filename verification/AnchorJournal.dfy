/** The append-only proof of a label journal against the digests anchored over
    its life. */
module AnchorJournal {
  import opened Options

  newtype Byte = b: int | 0 <= b < 256

  type Bytes = seq<Byte>

  const NEWLINE: Byte := 10

  /** Distinct contents never share a digest. */
  ghost predicate CollisionFree(hash: Bytes -> string) {
    forall a, b :: hash(a) == hash(b) ==> a == b
  }

  /** Lengths at which the journal may have been anchored: right after a line,
      before the first, or all of it. */
  ghost predicate Boundary(data: Bytes, n: nat) {
    n <= |data| && (n == 0 || n == |data| || data[n - 1] == NEWLINE)
  }

  method FindNewline(data: Bytes, start: nat) returns (cut: Option<nat>)
    requires start <= |data|
    ensures cut.None? ==> forall i | start <= i < |data| :: data[i] != NEWLINE
    ensures cut.Some? ==> start <= cut.value < |data| && data[cut.value] == NEWLINE
                          && forall i | start <= i < cut.value :: data[i] != NEWLINE
  {
    for i := start to |data|
      invariant forall j | start <= j < i :: data[j] != NEWLINE
    {
      if data[i] == NEWLINE {
        return Some(i);
      }
    }
    return None;
  }

  /** `digests` lists the boundaries up to `upto`, each digest at its shortest. */
  ghost predicate Lists(digests: map<string, nat>, data: Bytes, hash: Bytes -> string, upto: nat) {
    && (forall n: nat | Boundary(data, n) && n <= upto :: hash(data[..n]) in digests && digests[hash(data[..n])] <= n)
    && (forall d | d in digests :: digests[d] <= upto && Boundary(data, digests[d]) && hash(data[..digests[d]]) == d)
  }

  /** No boundary lies between `from` and `upto`, so one entry extends the list. */
  lemma ListsNext(digests: map<string, nat>, data: Bytes, hash: Bytes -> string, from: nat, upto: nat)
    requires from < upto <= |data| && Lists(digests, data, hash, from)
    requires forall i | from <= i < upto - 1 :: data[i] != NEWLINE
    requires upto == |data| || data[upto - 1] == NEWLINE
    ensures Lists(SetDefault(digests, hash(data[..upto]), upto), data, hash, upto)
  {
    assert forall n: nat | from < n < upto :: !Boundary(data, n);
    assert Boundary(data, upto);
  }

  /** Digest and length of every boundary prefix, from a running hash that never
      rereads the journal. */
  method NewlinePrefixDigests(data: Bytes, hash: Bytes -> string) returns (digests: map<string, nat>)
    ensures Lists(digests, data, hash, |data|)
  {
    digests := map[hash([]) := 0];
    var running: Bytes := [];
    var start := 0;
    assert data[..0] == [];
    while true
      invariant start <= |data| && running == data[..start]
      invariant Lists(digests, data, hash, start)
      decreases |data| - start
    {
      var cut := FindNewline(data, start);
      if cut.None? {
        break;
      }
      running := running + data[start..cut.value + 1];
      assert running == data[..cut.value + 1];
      ListsNext(digests, data, hash, start, cut.value + 1);
      digests := SetDefault(digests, hash(running), cut.value + 1);
      start := cut.value + 1;
    }
    if start < |data| {
      running := running + data[start..];
      assert running == data[..|data|];
      ListsNext(digests, data, hash, start, |data|);
      digests := SetDefault(digests, hash(running), |data|);
    }
  }

  function SetDefault(m: map<string, nat>, key: string, value: nat): map<string, nat> {
    if key in m then m else m[key := value]
  }

  // ----- the append-only leg

  ghost predicate Matches(data: Bytes, hash: Bytes -> string, digest: string, n: nat) {
    Boundary(data, n) && hash(data[..n]) == digest
  }

  /** Length of the boundary prefix with the given digest. */
  ghost function PrefixLength(data: Bytes, hash: Bytes -> string, digest: string): (length: Option<nat>)
    ensures length.Some? ==> Matches(data, hash, digest, length.value)
    ensures length.None? ==> forall n: nat :: !Matches(data, hash, digest, n)
  {
    if n: nat :| Matches(data, hash, digest, n) then Some(n) else None
  }

  datatype Finding =
    | JournalMissing
    | Rewritten(anchor: nat)
    | PrefixRegression(anchor: nat)

  /** What anchor `i` is reported for: no prefix of the journal has its digest,
      or a prefix shorter than one matched by an earlier anchor. */
  ghost predicate Found(f: Finding, data: Bytes, anchored: seq<string>, hash: Bytes -> string) {
    match f
    case JournalMissing => false
    case Rewritten(i) => i < |anchored| && PrefixLength(data, hash, anchored[i]).None?
    case PrefixRegression(i) => i < |anchored| && exists j | 0 <= j < i :: Regresses(data, hash, anchored[j], anchored[i])
  }

  ghost predicate Regresses(data: Bytes, hash: Bytes -> string, earlier: string, later: string) {
    && PrefixLength(data, hash, earlier).Some?
    && PrefixLength(data, hash, later).Some?
    && PrefixLength(data, hash, later).value < PrefixLength(data, hash, earlier).value
  }

  function RewrittenCount(findings: seq<Finding>): nat {
    if findings == [] then 0
    else RewrittenCount(findings[..|findings| - 1]) + if findings[|findings| - 1].Rewritten? then 1 else 0
  }

  method CheckAppendOnly(data: Option<Bytes>, anchored: seq<string>, hash: Bytes -> string)
    returns (findings: seq<Finding>, matched: nat)
    requires CollisionFree(hash)
    ensures data.None? ==> findings == if anchored == [] then [] else [JournalMissing]
    ensures data.Some? ==> forall f :: f in findings <==> Found(f, data.value, anchored, hash)
    ensures data.Some? ==> matched + RewrittenCount(findings) == |anchored|
  {
    findings, matched := [], 0;
    if data.None? {
      if anchored != [] {
        findings := [JournalMissing];
      }
      return;
    }
    var boundaries := NewlinePrefixDigests(data.value, hash);
    var previous: int := -1;
    for i := 0 to |anchored|
      invariant forall f :: f in findings <==> Found(f, data.value, anchored[..i], hash)
      invariant LongestSoFar(data.value, hash, anchored[..i], previous)
      invariant matched + RewrittenCount(findings) == i
    {
      ghost var seen := anchored[..i];
      assert anchored[..i + 1] == seen + [anchored[i]];
      ListedLength(boundaries, data.value, hash, anchored[i]);
      FoundNext(data.value, hash, seen, anchored[i], previous);
      if anchored[i] !in boundaries {
        findings := Push(findings, Rewritten(i));
        continue;
      }
      matched := matched + 1;
      var length := boundaries[anchored[i]];
      if length < previous {
        findings := Push(findings, PrefixRegression(i));
      }
      previous := if length > previous then length else previous;
    }
    assert anchored[..|anchored|] == anchored;
  }

  function Push(findings: seq<Finding>, f: Finding): (r: seq<Finding>)
    ensures forall g :: g in r <==> g in findings || g == f
    ensures RewrittenCount(r) == RewrittenCount(findings) + if f.Rewritten? then 1 else 0
  {
    assert (findings + [f])[..|findings|] == findings;
    findings + [f]
  }

  /** `longest` is the longest prefix matched by any of the digests, -1 before one is. */
  ghost predicate LongestSoFar(data: Bytes, hash: Bytes -> string, seen: seq<string>, longest: int) {
    && longest >= -1
    && (forall j | 0 <= j < |seen| ::
          PrefixLength(data, hash, seen[j]).Some? ==> PrefixLength(data, hash, seen[j]).value <= longest)
    && (longest >= 0 ==> exists j | 0 <= j < |seen| :: PrefixLength(data, hash, seen[j]) == Some(longest as nat))
  }

  /** One more digest adds at most one finding, decided by its own length and the
      longest so far alone. */
  lemma FoundNext(data: Bytes, hash: Bytes -> string, seen: seq<string>, digest: string, longest: int)
    requires LongestSoFar(data, hash, seen, longest)
    ensures var length := PrefixLength(data, hash, digest);
            && LongestSoFar(data, hash, seen + [digest],
                            if length.Some? && length.value > longest then length.value else longest)
            && forall f :: Found(f, data, seen + [digest], hash) <==>
                 || Found(f, data, seen, hash)
                 || (length.None? && f == Rewritten(|seen|))
                 || (length.Some? && length.value < longest && f == PrefixRegression(|seen|))
  {
    var length, all := PrefixLength(data, hash, digest), seen + [digest];
    assert forall j | 0 <= j < |seen| :: all[j] == seen[j];
    assert all[|seen|] == digest;
    if length.Some? {
      assert length.value < longest <==> exists j | 0 <= j < |seen| :: Regresses(data, hash, all[j], digest);
    }
  }

  /** The boundary table holds the length of exactly the digests that have one. */
  lemma ListedLength(boundaries: map<string, nat>, data: Bytes, hash: Bytes -> string, digest: string)
    requires CollisionFree(hash) && Lists(boundaries, data, hash, |data|)
    ensures PrefixLength(data, hash, digest) == if digest in boundaries then Some(boundaries[digest]) else None
  {
    if digest in boundaries {
      assert Matches(data, hash, digest, boundaries[digest]);
      LengthUnique(data, hash, digest, boundaries[digest]);
    }
  }

  lemma LengthUnique(data: Bytes, hash: Bytes -> string, digest: string, n: nat)
    requires CollisionFree(hash) && Matches(data, hash, digest, n)
    ensures PrefixLength(data, hash, digest) == Some(n)
  {
    var m := PrefixLength(data, hash, digest).value;
    assert data[..m] == data[..n];
    assert |data[..m]| == m && |data[..n]| == n;
  }

  // ----- what a clean check means

  /** Each anchored content is the current journal cut at a boundary, and never
      shorter than the one anchored before it. */
  ghost predicate AppendOnly(data: Bytes, contents: seq<Bytes>) {
    && (forall i | 0 <= i < |contents| :: contents[i] <= data && Boundary(data, |contents[i]|))
    && (forall i, j | 0 <= i < j < |contents| :: contents[i] <= contents[j])
  }

  ghost predicate DigestsOf(anchored: seq<string>, contents: seq<Bytes>, hash: Bytes -> string) {
    |anchored| == |contents| && forall i | 0 <= i < |anchored| :: anchored[i] == hash(contents[i])
  }

  /** The content is the current journal cut at a boundary. */
  predicate StillThere(data: Bytes, content: Bytes) {
    content <= data && (content == [] || content == data || content[|content| - 1] == NEWLINE)
  }

  /** Each finding, exactly, on the anchored contents: rewritten is a content the
      journal no longer starts with at a boundary; regressed is one it does start with
      after a longer one. A digest met again is no regression. */
  lemma FindingsExactly(data: Bytes, contents: seq<Bytes>, anchored: seq<string>, hash: Bytes -> string, i: nat)
    requires CollisionFree(hash) && DigestsOf(anchored, contents, hash) && i < |contents|
    ensures Found(Rewritten(i), data, anchored, hash) <==> !StillThere(data, contents[i])
    ensures Found(PrefixRegression(i), data, anchored, hash) <==>
              StillThere(data, contents[i])
              && exists j | 0 <= j < i :: StillThere(data, contents[j]) && |contents[j]| > |contents[i]|
    ensures !Found(JournalMissing, data, anchored, hash)
    ensures forall k: nat | k >= |contents| :: !Found(Rewritten(k), data, anchored, hash) && !Found(PrefixRegression(k), data, anchored, hash)
  {
    forall k | 0 <= k < |contents|
      ensures PrefixLength(data, hash, anchored[k]) == if StillThere(data, contents[k]) then Some(|contents[k]|) else None
    {
      ContentLength(data, contents[k], hash);
    }
    assert forall j | 0 <= j < i :: Regresses(data, hash, anchored[j], anchored[i]) <==>
        StillThere(data, contents[i]) && StillThere(data, contents[j]) && |contents[j]| > |contents[i]|;
  }

  /** Sound and complete: the check is clean exactly when the journal grew by
      appending from each anchored content to the next and to the current one. */
  lemma CleanMeansAppendOnly(data: Bytes, contents: seq<Bytes>, anchored: seq<string>, hash: Bytes -> string)
    requires CollisionFree(hash) && DigestsOf(anchored, contents, hash)
    ensures (forall f :: !Found(f, data, anchored, hash)) <==> AppendOnly(data, contents)
  {
    forall i | 0 <= i < |contents|
      ensures PrefixLength(data, hash, anchored[i])
              == if contents[i] <= data && Boundary(data, |contents[i]|) then Some(|contents[i]|) else None
    {
      ContentLength(data, contents[i], hash);
    }
    if forall f :: !Found(f, data, anchored, hash) {
      forall i | 0 <= i < |contents| ensures contents[i] <= data && Boundary(data, |contents[i]|) {
        assert !Found(Rewritten(i), data, anchored, hash);
      }
      forall i, j | 0 <= i < j < |contents| ensures contents[i] <= contents[j] {
        assert !Found(PrefixRegression(j), data, anchored, hash);
        assert !Regresses(data, hash, anchored[i], anchored[j]);
      }
    }
    if AppendOnly(data, contents) {
      forall f ensures !Found(f, data, anchored, hash) {
        if f.PrefixRegression? && f.anchor < |anchored| {
          assert forall j | 0 <= j < f.anchor :: |contents[j]| <= |contents[f.anchor]|;
        }
      }
    }
  }

  lemma ContentLength(data: Bytes, content: Bytes, hash: Bytes -> string)
    requires CollisionFree(hash)
    ensures PrefixLength(data, hash, hash(content))
            == if content <= data && Boundary(data, |content|) then Some(|content|) else None
  {
    var length := PrefixLength(data, hash, hash(content));
    if content <= data && Boundary(data, |content|) {
      assert data[..|content|] == content;
      assert Matches(data, hash, hash(content), |content|);
      LengthUnique(data, hash, hash(content), |content|);
    }
    assert forall n: nat | Matches(data, hash, hash(content), n) :: data[..n] == content;
  }

  // ----- honest histories

  /** One step in the life of a journal. */
  datatype Step =
    | AppendLine(line: Bytes)
    | TakeAnchor

  /** Lines are written newline-terminated, in one append each. */
  ghost predicate WholeLines(history: seq<Step>) {
    forall s | s in history && s.AppendLine? :: s.line != [] && s.line[|s.line| - 1] == NEWLINE
  }

  function Journal(history: seq<Step>): Bytes {
    if history == [] then []
    else
      var before, last := Journal(history[..|history| - 1]), history[|history| - 1];
      if last.AppendLine? then before + last.line else before
  }

  /** Contents of the journal at each anchor, oldest first. */
  function Anchored(history: seq<Step>): seq<Bytes> {
    if history == [] then []
    else
      var before, last := history[..|history| - 1], history[|history| - 1];
      Anchored(before) + if last.TakeAnchor? then [Journal(before)] else []
  }

  /** No history of whole-line appends, anchored at any points, is ever reported. */
  lemma HonestHistoriesAreClean(history: seq<Step>, anchored: seq<string>, hash: Bytes -> string)
    requires CollisionFree(hash) && WholeLines(history) && DigestsOf(anchored, Anchored(history), hash)
    ensures forall f :: !Found(f, Journal(history), anchored, hash)
  {
    HistoryIsAppendOnly(history);
    CleanMeansAppendOnly(Journal(history), Anchored(history), anchored, hash);
  }

  lemma {:induction false} HistoryIsAppendOnly(history: seq<Step>)
    requires WholeLines(history)
    ensures AppendOnly(Journal(history), Anchored(history))
    ensures EndsLine(Journal(history))
  {
    if history != [] {
      var before, last := history[..|history| - 1], history[|history| - 1];
      HistoryIsAppendOnly(before);
      if last.AppendLine? {
        AppendKeeps(Journal(before), last.line, Anchored(before));
        assert Anchored(history) == Anchored(before);
      } else {
        AnchorKeeps(Journal(before), Anchored(before));
      }
    }
  }

  ghost predicate EndsLine(data: Bytes) {
    data == [] || data[|data| - 1] == NEWLINE
  }

  lemma AppendKeeps(data: Bytes, line: Bytes, contents: seq<Bytes>)
    requires AppendOnly(data, contents) && EndsLine(data) && line != [] && line[|line| - 1] == NEWLINE
    ensures AppendOnly(data + line, contents) && EndsLine(data + line)
  {
    forall i | 0 <= i < |contents| ensures contents[i] <= data + line && Boundary(data + line, |contents[i]|) {
      assert contents[i] <= data && Boundary(data, |contents[i]|);
    }
  }

  lemma AnchorKeeps(data: Bytes, contents: seq<Bytes>)
    requires AppendOnly(data, contents)
    ensures AppendOnly(data, contents + [data])
  {
  }
}
