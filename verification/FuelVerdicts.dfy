/** Every verdict of the fuel check, exactly: said of the ledger, the store, the
    label journal and the degradation ledger themselves. */
module FuelVerdicts {
  import opened Options
  import opened EvidencePlane
  import opened FuelIndexes
  import opened FuelIntegrity
  import opened FuelScan
  import opened FuelTheorems
  import opened FuelCheck
  import ActDerivation
  import Counting

  // ----- refs and the last claimed trial

  lemma {:induction false} RefsAppend(refs: seq<string>, x: string, prefix: string)
    ensures RefsUnder(refs + [x], prefix) == RefsUnder(refs, prefix) + if prefix < x then [x[|prefix|..]] else []
  {
    if refs == [] {
      assert refs + [x] == [x] && [x][1..] == [];
    } else {
      RefsAppend(refs[1..], x, prefix);
      assert (refs + [x])[1..] == refs[1..] + [x];
    }
  }

  /** The names under a prefix are the non-empty rests of the refs that start with it. */
  lemma {:induction false} RefsExactly(refs: seq<string>, prefix: string, name: string)
    ensures name in RefsUnder(refs, prefix) <==> name != "" && prefix + name in refs
  {
    if refs != [] {
      RefsExactly(refs[1..], prefix, name);
      assert refs[0] == prefix + name ==> refs[0][|prefix|..] == name;
      if prefix < refs[0] {
        assert refs[0] == prefix + refs[0][|prefix|..];
      }
      assert prefix + name in refs <==> prefix + name == refs[0] || prefix + name in refs[1..];
    }
  }

  /** The ref at `i` names the trial for the first time, and no later ref names any
      trial for the first time. */
  ghost predicate NewestAt(refs: seq<string>, i: nat, trial: string) {
    && i < |refs| && trial != "" && refs[i] == MIRROR_REF_PREFIX + trial && refs[i] !in refs[..i]
    && forall j | i < j < |refs| && MIRROR_REF_PREFIX < refs[j] :: refs[j] in refs[..j]
  }

  lemma NewestNext(past: seq<string>, x: string, i: nat, trial: string)
    ensures NewestAt(past + [x], i, trial) <==>
              if i < |past| then NewestAt(past, i, trial) && (MIRROR_REF_PREFIX < x ==> x in past)
              else i == |past| && trial != "" && x == MIRROR_REF_PREFIX + trial && x !in past
  {
    var refs := past + [x];
    assert forall j | 0 <= j <= |past| :: refs[..j] == past[..j];
    assert past[..|past|] == past;
    if i < |past| && NewestAt(refs, i, trial) {
      forall j | i < j < |past| && MIRROR_REF_PREFIX < past[j] ensures past[j] in past[..j] {
        assert refs[j] in refs[..j];
      }
    }
  }

  ghost predicate ClaimsLast(refs: seq<string>, trial: string) {
    exists i: nat :: NewestAt(refs, i, trial)
  }

  lemma ClaimsNext(past: seq<string>, x: string, trial: string)
    ensures ClaimsLast(past + [x], trial) <==>
              if MIRROR_REF_PREFIX < x && x !in past then x == MIRROR_REF_PREFIX + trial else ClaimsLast(past, trial)
  {
    var refs := past + [x];
    if i: nat :| NewestAt(refs, i, trial) {
      NewestNext(past, x, i, trial);
    }
    if i: nat :| NewestAt(past, i, trial) {
      NewestNext(past, x, i, trial);
    }
    NewestNext(past, x, |past|, trial);
  }

  function LastNamed(refs: seq<string>): Option<string> {
    var named := FirstOccurrences(RefsUnder(refs, MIRROR_REF_PREFIX));
    if named == [] then None else Some(named[|named| - 1])
  }

  lemma LastNamedNext(past: seq<string>, x: string)
    ensures LastNamed(past + [x])
            == if MIRROR_REF_PREFIX < x && x !in past then Some(x[|MIRROR_REF_PREFIX|..]) else LastNamed(past)
  {
    RefsAppend(past, x, MIRROR_REF_PREFIX);
    var before := RefsUnder(past, MIRROR_REF_PREFIX);
    if MIRROR_REF_PREFIX < x {
      var name := x[|MIRROR_REF_PREFIX|..];
      assert x == MIRROR_REF_PREFIX + name;
      RefsExactly(past, MIRROR_REF_PREFIX, name);
      OneMoreName(before, name);
    } else {
      assert before + [] == before;
    }
  }

  lemma OneMoreName(names: seq<string>, name: string)
    ensures FirstOccurrences(names + [name]) == if name in names then FirstOccurrences(names) else FirstOccurrences(names) + [name]
  {
    FirstOccurrencesKeep(names);
    assert (names + [name])[..|names|] == names;
  }

  lemma {:induction false} LastIsNewest(refs: seq<string>, trial: string)
    ensures LastNamed(refs) == Some(trial) <==> ClaimsLast(refs, trial)
    decreases |refs|
  {
    if refs != [] {
      var past, x := refs[..|refs| - 1], refs[|refs| - 1];
      LastIsNewest(past, trial);
      assert past + [x] == refs;
      LastNamedNext(past, x);
      ClaimsNext(past, x, trial);
      assert (MIRROR_REF_PREFIX + trial)[|MIRROR_REF_PREFIX|..] == trial;
      assert MIRROR_REF_PREFIX < x ==> x == MIRROR_REF_PREFIX + x[|MIRROR_REF_PREFIX|..];
    }
  }

  /** The trial a row's verdict looks at, said of its refs. */
  lemma LastClaimedExactly(row: Row, trial: string)
    ensures LastClaimed(row) == Some(trial) <==> ClaimsLast(row.refs, trial)
    ensures LastClaimed(row).None? <==> forall name | name != "" :: MIRROR_REF_PREFIX + name !in row.refs
  {
    LastIsNewest(row.refs, trial);
    var named := RefsUnder(row.refs, MIRROR_REF_PREFIX);
    FirstOccurrencesKeep(named);
    forall name ensures name in MirrorTrials(row) <==> name != "" && MIRROR_REF_PREFIX + name in row.refs {
      RefsExactly(row.refs, MIRROR_REF_PREFIX, name);
    }
    if MirrorTrials(row) != [] {
      assert MirrorTrials(row)[0] in MirrorTrials(row);
    }
  }

  // ----- tallies, counted

  predicate Ends(row: Row) {
    row.proposal && row.outcomeStatus in {"ok", "failed"}
  }

  predicate IsUnknown(row: Row) {
    row.outcomeStatus == "unknown" || row.reviewVerdict == "unknown"
  }

  ghost function Where(rows: seq<Row>, cell: Cell, counts: Row -> bool): set<nat> {
    set i: nat | i < |rows| && rows[i].cell == cell && counts(rows[i])
  }

  lemma WhereNext(rows: seq<Row>, row: Row, cell: Cell, counts: Row -> bool)
    ensures |Where(rows + [row], cell, counts)|
            == |Where(rows, cell, counts)| + if row.cell == cell && counts(row) then 1 else 0
  {
    var more := rows + [row];
    forall i: nat ensures i in Where(more, cell, counts) <==>
        i in Where(rows, cell, counts) || (i == |rows| && row.cell == cell && counts(row)) {
      assert i < |rows| ==> more[i] == rows[i];
    }
    Counting.OneMorePosition(Where(rows, cell, counts), Where(more, cell, counts), |rows|, row.cell == cell && counts(row));
  }

  /** A cell's tally counts positions of rows: all of the cell, those with an intent,
      those whose intent ended well or badly, those unknown. */
  lemma {:induction false} TallyCounts(rows: seq<Row>, cell: Cell)
    ensures Tally(rows, cell) == Stats(|Where(rows, cell, (r: Row) => true)|, |Where(rows, cell, (r: Row) => r.proposal)|,
                                       |Where(rows, cell, Ends)|, |Where(rows, cell, IsUnknown)|)
    decreases |rows|
  {
    if rows != [] {
      var past, row := rows[..|rows| - 1], rows[|rows| - 1];
      TallyCounts(past, cell);
      assert past + [row] == rows;
      WhereNext(past, row, cell, (r: Row) => true);
      WhereNext(past, row, cell, (r: Row) => r.proposal);
      WhereNext(past, row, cell, Ends);
      WhereNext(past, row, cell, IsUnknown);
    }
  }

  // ----- what the evidence says, in its own terms

  /** The store's answer for the last claimed trial; None without one. */
  function Claimed(c: Inputs, row: Row): Option<TrialState> {
    if LastClaimed(row).None? then None else Some(NamedState(c.reader, LastClaimed(row).value))
  }

  /** Some trial that a fuel row claims or lies near holds a receipt of the row's bytes. */
  ghost predicate HasReceipt(c: Inputs, row: Row) {
    exists trial :: Near(Fuel(c), c.cal, trial) && Mirrored(c.reader, row.sha, trial)
  }

  /** The first such receipt in scan order says a process attested it. */
  ghost predicate ProcessAttested(c: Inputs, row: Row) {
    exists i :: FirstReceipt(ReceiptEvents(c), i, row.sha)
                && Detail(ReceiptEvents(c)[i], "attestation_mode") == Some("process")
  }

  ghost predicate FirstReceipt(events: seq<Event>, i: int, sha: string) {
    0 <= i < |events| && Mirrors(events[i], sha) && forall j | 0 <= j < i :: !Mirrors(events[j], sha)
  }

  /** The consequence chokepoint reported a degradation within a day of the row. */
  predicate Degraded(c: Inputs, row: Row) {
    exists d :: d in c.degradations && d.chokepoint == "consequence" && d.day.Some?
                && Day(row.ts) - 1 <= d.day.value <= Day(row.ts) + 1
  }

  /** An anchored Captain label names a journal id of the row, or its last trial. */
  ghost predicate Labelled(c: Inputs, row: Row) {
    || (exists d, e, jid :: d in c.journal && Anchors(c.reader, d, e) && jid in RowJids(row) && Detail(e, "jid") == Some(jid))
    || (exists d, e :: d in c.journal && Anchors(c.reader, d, e) && LastClaimed(row) == Some(d.trial))
  }

  ghost predicate Contradicted(c: Inputs, row: Row) {
    var events := RecomputeEvents(c);
    ByJid(events, row, "disagree") || (!ByJid(events, row, "agree") && BySha(events, row, "disagree"))
  }

  ghost predicate Rederived(c: Inputs, row: Row) {
    var events := RecomputeEvents(c);
    ByJid(events, row, "agree") || BySha(events, row, "agree")
  }

  /** The last claimed trial itself holds a Captain label, anchored or not. */
  ghost predicate InStoreLabel(c: Inputs, row: Row) {
    Claimed(c, row).Some? && exists e :: e in EventsIn(Claimed(c, row).value) && CaptainLabel(e)
  }

  /** An explanation is that of the first degradation that explains, under its own
      reason or, where it gives none, as "degraded". */
  lemma {:induction false} ExplainedExactly(ds: seq<Degradation>, day: int)
    ensures Explanation(ds, day).Some? <==> exists d :: d in ds && Explains(d, day)
    ensures forall i | 0 <= i < |ds| && Explains(ds[i], day) && (forall j | 0 <= j < i :: !Explains(ds[j], day)) ::
              Explanation(ds, day) == Some(if ds[i].reason == "" then "degraded" else ds[i].reason)
    decreases |ds|
  {
    if ds != [] {
      ExplainedExactly(ds[1..], day);
      assert forall d :: d in ds <==> d == ds[0] || d in ds[1..];
      forall i | 0 <= i < |ds| && Explains(ds[i], day) && (forall j | 0 <= j < i :: !Explains(ds[j], day))
        ensures Explanation(ds, day) == Some(if ds[i].reason == "" then "degraded" else ds[i].reason)
      {
        if i > 0 {
          assert ds[1..][i - 1] == ds[i] && forall j | 0 <= j < i - 1 :: ds[1..][j] == ds[j + 1];
        }
      }
    }
  }

  /** When the row's mirror holds up. */
  ghost predicate Stands(c: Inputs, row: Row) {
    c.reader.available && Claimed(c, row).Some? && Claimed(c, row).value.Ok? && HasReceipt(c, row)
  }

  /** When its third leg does. */
  ghost predicate Corroborated(c: Inputs, row: Row) {
    Labelled(c, row) || (Rederived(c, row) && !Contradicted(c, row))
  }

  // ----- every verdict, exactly

  predicate IsMirrorCause(v: Verdict) {
    v in {Unknown(StoreUnavailable), Ungrounded(UnmirroredRow), Ungrounded(VerifyFailed), Ungrounded(PurgeOverlap),
          Ungrounded(TrialMissing), Unknown(StoreError), Ungrounded(RowShaMismatch), Unknown(MirrorDegraded)}
  }

  lemma LadderKeepsMirror(ev: Evidence, row: Row)
    ensures MirrorVerdict(ev, row).Some? ==> VerdictOf(ev, row) == MirrorVerdict(ev, row).value && IsMirrorCause(VerdictOf(ev, row))
    ensures MirrorVerdict(ev, row).None? ==> !IsMirrorCause(VerdictOf(ev, row))
  {
  }

  lemma MirrorTable(ev: Evidence, row: Row, claimed: Option<TrialState>, receipt: bool, degraded: bool)
    requires claimed == if LastClaimed(row).None? then None else Some(NamedState(ev.reader, LastClaimed(row).value))
    requires receipt <==> row.sha in ev.receipts
    requires degraded <==> Explanation(ev.degradations, Day(row.ts)).Some?
    ensures MirrorVerdict(ev, row) == if !ev.reader.available then Some(Unknown(StoreUnavailable))
                                      else MirrorByState(claimed, receipt, degraded)
  {
  }

  function MirrorByState(claimed: Option<TrialState>, receipt: bool, degraded: bool): Option<Verdict> {
    if claimed == Some(IntegrityFailed) then Some(Ungrounded(VerifyFailed))
    else if claimed == Some(Purged) then Some(Ungrounded(PurgeOverlap))
    else if claimed == Some(Missing) then Some(Ungrounded(TrialMissing))
    else if claimed.Some? && claimed.value.Error? then Some(Unknown(StoreError))
    else if claimed.Some? && receipt then None
    else Some(if degraded then Unknown(MirrorDegraded) else if claimed.None? then Ungrounded(UnmirroredRow) else Ungrounded(RowShaMismatch))
  }

  lemma MirrorCauses(ev: Evidence, row: Row, up: bool, claimed: Option<TrialState>, receipt: bool, degraded: bool)
    requires MirrorVerdict(ev, row) == if !up then Some(Unknown(StoreUnavailable)) else MirrorByState(claimed, receipt, degraded)
    ensures var v := VerdictOf(ev, row);
            && (v == Unknown(StoreUnavailable) <==> !up)
            && (v == Ungrounded(UnmirroredRow) <==> up && claimed.None? && !degraded)
            && (v == Ungrounded(VerifyFailed) <==> up && claimed == Some(IntegrityFailed))
            && (v == Ungrounded(PurgeOverlap) <==> up && claimed == Some(Purged))
            && (v == Ungrounded(TrialMissing) <==> up && claimed == Some(Missing))
            && (v == Unknown(StoreError) <==> up && claimed.Some? && claimed.value.Error?)
            && (v == Ungrounded(RowShaMismatch) <==> up && claimed.Some? && claimed.value.Ok? && !receipt && !degraded)
            && (v == Unknown(MirrorDegraded) <==> up && degraded && (claimed.None? || (claimed.value.Ok? && !receipt)))
    ensures MirrorVerdict(ev, row).None? <==> up && claimed.Some? && claimed.value.Ok? && receipt
  {
    LadderKeepsMirror(ev, row);
  }

  lemma MirrorIs(ev: Evidence, c: Inputs, row: Row)
    requires Built(ev, c)
    ensures MirrorVerdict(ev, row) == if !c.reader.available then Some(Unknown(StoreUnavailable))
                                      else MirrorByState(Claimed(c, row), HasReceipt(c, row), Degraded(c, row))
  {
    FoundExactly(ev, c, row.sha);
    ExplainedExactly(c.degradations, Day(row.ts));
    MirrorTable(ev, row, Claimed(c, row), HasReceipt(c, row), Degraded(c, row));
  }

  /** The verdicts on the mirror, each exactly by the store's state of the last
      claimed trial, the receipts and the degradation ledger. */
  lemma MirrorVerdictsExactly(ev: Evidence, c: Inputs, row: Row)
    requires Built(ev, c)
    ensures var v, up, claimed := ReportOf(ev, row).verdict, c.reader.available, Claimed(c, row);
            && (v == Unknown(StoreUnavailable) <==> !up)
            && (v == Ungrounded(UnmirroredRow) <==> up && claimed.None? && !Degraded(c, row))
            && (v == Ungrounded(VerifyFailed) <==> up && claimed == Some(IntegrityFailed))
            && (v == Ungrounded(PurgeOverlap) <==> up && claimed == Some(Purged))
            && (v == Ungrounded(TrialMissing) <==> up && claimed == Some(Missing))
            && (v == Unknown(StoreError) <==> up && claimed.Some? && claimed.value.Error?)
            && (v == Ungrounded(RowShaMismatch) <==>
                  up && claimed.Some? && claimed.value.Ok? && !HasReceipt(c, row) && !Degraded(c, row))
            && (v == Unknown(MirrorDegraded) <==>
                  up && Degraded(c, row) && (claimed.None? || (claimed.value.Ok? && !HasReceipt(c, row))))
    ensures MirrorVerdict(ev, row).None? <==> Stands(c, row)
  {
    MirrorIs(ev, c, row);
    MirrorCauses(ev, row, c.reader.available, Claimed(c, row), HasReceipt(c, row), Degraded(c, row));
  }

  /** A report is tamper-shaped exactly when the store answers and the last claimed
      trial fails integrity, is missing, or reads back while the row has no receipt
      and no degradation explains it. */
  lemma TamperExactly(ev: Evidence, c: Inputs, row: Row)
    requires Built(ev, c)
    ensures ReportOf(ev, row).tamperShaped <==>
              c.reader.available && Claimed(c, row).Some?
              && match Claimed(c, row).value
                 case IntegrityFailed => true
                 case Missing => true
                 case Ok(_) => !HasReceipt(c, row) && !Degraded(c, row)
                 case _ => false
  {
    MirrorVerdictsExactly(ev, c, row);
  }

  // ----- above the mirror

  lemma ThirdCauses(ev: Evidence, row: Row, labelled: bool, contradicted: bool, joined: bool, inStore: bool)
    requires labelled <==> LabelAnchored(ev, row)
    requires (contradicted <==> "disagree" in RecomputeHits(ev, row)) && (joined <==> RecomputeHits(ev, row) != [])
    requires inStore <==> UnanchoredLabel(ev, row)
    ensures var v, stands, bare := VerdictOf(ev, row), MirrorVerdict(ev, row).None?, !labelled && !joined;
            && (v == Ungrounded(RecomputeContradictsClaim) <==> stands && !labelled && contradicted)
            && (v == Unknown(ThirdLegUnanchored) <==> stands && bare && inStore)
            && (v == Unknown(ThirdLegProducerAdjacent) <==> stands && bare && !inStore && TTL_OK_MARKER <= row.outcomeEvidence)
            && (v == Unknown(ThirdLegAbsent) <==> stands && bare && !inStore && !(TTL_OK_MARKER <= row.outcomeEvidence))
    ensures ThirdLegVerdict(ev, row).None? <==> labelled || (joined && !contradicted)
  {
    LadderKeepsMirror(ev, row);
  }

  lemma LabelledExactly(ev: Evidence, c: Inputs, row: Row)
    requires IndexesLabels(ev.labels, c.reader, c.journal)
    ensures LabelAnchored(ev, row) <==> Labelled(c, row)
  {
    ActDerivation.JidsNonEmpty(row.refs, UNDO_REF_PREFIX);
    if LabelAnchored(ev, row) {
      LabelMeans(ev, c, row);
    }
  }

  /** The verdicts on the third leg, each exactly by the anchored labels, the
      recompute events and the last claimed trial. */
  lemma ThirdLegVerdictsExactly(ev: Evidence, c: Inputs, row: Row)
    requires Built(ev, c)
    ensures var v := ReportOf(ev, row).verdict;
            var bare := Stands(c, row) && !Labelled(c, row) && !Contradicted(c, row) && !Rederived(c, row);
            && (v == Ungrounded(RecomputeContradictsClaim) <==> Stands(c, row) && !Labelled(c, row) && Contradicted(c, row))
            && (v == Unknown(ThirdLegUnanchored) <==> bare && InStoreLabel(c, row))
            && (v == Unknown(ThirdLegProducerAdjacent) <==> bare && !InStoreLabel(c, row) && "ttl-48h survived" <= row.outcomeEvidence)
            && (v == Unknown(ThirdLegAbsent) <==> bare && !InStoreLabel(c, row) && !("ttl-48h survived" <= row.outcomeEvidence))
    ensures ThirdLegVerdict(ev, row).None? <==> Corroborated(c, row)
  {
    LabelledExactly(ev, c, row);
    HitsExactly(ev, RecomputeEvents(c), row);
    MirrorVerdictsExactly(ev, c, row);
    ThirdCauses(ev, row, Labelled(c, row), Contradicted(c, row), Contradicted(c, row) || Rederived(c, row), InStoreLabel(c, row));
  }

  /** What the third leg of a report rests on, exactly. */
  lemma LegExactly(ev: Evidence, c: Inputs, row: Row)
    requires Built(ev, c)
    ensures var leg, stands := ReportOf(ev, row).thirdLeg, Stands(c, row);
            && (leg == NotReached <==> !stands)
            && (leg in {HumanLabelRow, HumanLabelTrial} <==> stands && Labelled(c, row))
            && (leg == RecomputeDisagree <==> stands && !Labelled(c, row) && Contradicted(c, row))
            && (leg == IndependentRecompute <==> stands && !Labelled(c, row) && !Contradicted(c, row) && Rederived(c, row))
            && (leg == HumanLabelRow ==> exists d, e, jid :: d in c.journal && Anchors(c.reader, d, e) && jid in RowJids(row) && Detail(e, "jid") == Some(jid))
            && (leg == HumanLabelTrial ==> forall d, e, jid :: d in c.journal && Anchors(c.reader, d, e) && jid in RowJids(row) ==> Detail(e, "jid") != Some(jid))
            && (leg == HumanLabelUnanchored <==> ReportOf(ev, row).verdict == Unknown(ThirdLegUnanchored))
            && (leg == MachineProbeProducerAdjacent <==> ReportOf(ev, row).verdict == Unknown(ThirdLegProducerAdjacent))
            && (leg == Absent <==> ReportOf(ev, row).verdict == Unknown(ThirdLegAbsent))
  {
    ActDerivation.JidsNonEmpty(row.refs, UNDO_REF_PREFIX);
    LabelledExactly(ev, c, row);
    HitsExactly(ev, RecomputeEvents(c), row);
    MirrorVerdictsExactly(ev, c, row);
    LegCauses(ev, row);
  }

  lemma LegCauses(ev: Evidence, row: Row)
    ensures var leg, stands, hits := LegOf(ev, row), MirrorVerdict(ev, row).None?, RecomputeHits(ev, row);
            && (leg == NotReached <==> !stands)
            && (leg == HumanLabelRow <==> stands && exists jid :: jid in RowJids(row) && jid in ev.labels.jids)
            && (leg in {HumanLabelRow, HumanLabelTrial} <==> stands && LabelAnchored(ev, row))
            && (leg == RecomputeDisagree <==> stands && !LabelAnchored(ev, row) && "disagree" in hits)
            && (leg == IndependentRecompute <==> stands && !LabelAnchored(ev, row) && "disagree" !in hits && hits != [])
            && (leg == HumanLabelUnanchored <==> VerdictOf(ev, row) == Unknown(ThirdLegUnanchored))
            && (leg == MachineProbeProducerAdjacent <==> VerdictOf(ev, row) == Unknown(ThirdLegProducerAdjacent))
            && (leg == Absent <==> VerdictOf(ev, row) == Unknown(ThirdLegAbsent))
  {
    LadderKeepsMirror(ev, row);
  }

  // ----- attestation and floors

  predicate Below(part: nat, whole: nat, bar: real) {
    part as real < bar * whole as real
  }

  predicate Above(part: nat, whole: nat, bar: real) {
    part as real > bar * whole as real
  }

  /** Of a cell's positions: too few, too few closed, too many unknown. */
  ghost predicate TooFew(rows: seq<Row>, cell: Cell, bars: Bars) {
    |Where(rows, cell, (r: Row) => true)| < bars.minPairs
  }

  ghost predicate TooOpen(rows: seq<Row>, cell: Cell, bars: Bars) {
    Below(|Where(rows, cell, Ends)|, |Where(rows, cell, (r: Row) => r.proposal)|, bars.hard)
  }

  ghost predicate TooUnknown(rows: seq<Row>, cell: Cell, bars: Bars) {
    Above(|Where(rows, cell, IsUnknown)|, |Where(rows, cell, (r: Row) => true)|, 1.0 - bars.hard)
  }

  lemma RatioExactly(part: nat, whole: nat, bar: real)
    requires part <= whole
    ensures whole > 0 && part as real / whole as real < bar <==> Below(part, whole, bar)
    ensures whole > 0 && part as real / whole as real > bar <==> Above(part, whole, bar)
  {
    if whole == 0 {
      assert bar * 0.0 == 0.0;
    } else {
      var x, y := part as real, whole as real;
      var q := x / y;
      assert q * y == x;
      Scaled(q, bar, y);
    }
  }

  lemma Scaled(a: real, b: real, y: real)
    requires y > 0.0
    ensures a < b <==> a * y < b * y
    ensures a > b <==> a * y > b * y
  {
    if a < b {
      assert (b - a) * y > 0.0;
    } else if a > b {
      assert (a - b) * y > 0.0;
    }
  }

  lemma EndsAreIntents(rows: seq<Row>, cell: Cell)
    ensures |Where(rows, cell, Ends)| <= |Where(rows, cell, (r: Row) => r.proposal)|
    ensures |Where(rows, cell, IsUnknown)| <= |Where(rows, cell, (r: Row) => true)|
  {
    Inside(Where(rows, cell, Ends), Where(rows, cell, (r: Row) => r.proposal));
    Inside(Where(rows, cell, IsUnknown), Where(rows, cell, (r: Row) => true));
  }

  lemma Inside(a: set<nat>, b: set<nat>)
    requires a <= b
    ensures |a| <= |b|
  {
    assert b == a + (b - a);
  }

  lemma FloorsOfStats(s: Stats, bars: Bars)
    requires s.closed <= s.intents && s.unknown <= s.n
    ensures FloorsOf(s, bars) == if s.n < bars.minPairs then Insufficient
                                 else if Below(s.closed, s.intents, bars.hard) then ClosureBelow
                                 else if Above(s.unknown, s.n, 1.0 - bars.hard) then UnknownAbove
                                 else FuelIntegrity.Pass
  {
    RatioExactly(s.closed, s.intents, bars.hard);
    RatioExactly(s.unknown, s.n, 1.0 - bars.hard);
  }

  /** Each state of the floors, exactly, on counted positions. */
  lemma FloorsExactly(rows: seq<Row>, cell: Cell, bars: Bars)
    ensures var floors := FloorsOf(Tally(rows, cell), bars);
            var few, open_, unknown := TooFew(rows, cell, bars), TooOpen(rows, cell, bars), TooUnknown(rows, cell, bars);
            && (floors == Insufficient <==> few)
            && (floors == ClosureBelow <==> !few && open_)
            && (floors == UnknownAbove <==> !few && !open_ && unknown)
            && (floors == FuelIntegrity.Pass <==> !few && !open_ && !unknown)
  {
    TallyCounts(rows, cell);
    EndsAreIntents(rows, cell);
    FloorsOfStats(Tally(rows, cell), bars);
  }

  lemma CellCauses(ev: Evidence, row: Row)
    requires row.cell in ev.cells
    ensures var v, floors := VerdictOf(ev, row), ev.cells[row.cell];
            var passed := MirrorVerdict(ev, row).None? && ThirdLegVerdict(ev, row).None?;
            var attested := passed && ev.receipts[row.sha].attestation == "process";
            && (v == Unknown(AttestationAbsent) <==> passed && !attested)
            && (v == Unknown(InsufficientPairs) <==> attested && floors == Insufficient)
            && (v == Ungrounded(ClosureBelowFloor) <==> attested && floors == ClosureBelow)
            && (v == Ungrounded(UnknownRateAboveCeiling) <==> attested && floors == UnknownAbove)
            && (v == Grounded <==> attested && floors == FuelIntegrity.Pass)
  {
    LadderKeepsMirror(ev, row);
  }

  lemma AttestedExactly(ev: Evidence, c: Inputs, row: Row)
    requires Built(ev, c) && row.sha in ev.receipts
    ensures ev.receipts[row.sha].attestation == "process" <==> ProcessAttested(c, row)
  {
    var events := ReceiptEvents(c);
    var i := FirstMirror(events, row.sha);
    assert FirstReceipt(events, i, row.sha);
    assert forall k | FirstReceipt(events, k, row.sha) :: k == i;
  }

  /** The last verdicts, each exactly by who attested the receipt and by the counts
      of the row's cell; and grounded exactly when nothing is left to object. */
  lemma LastVerdictsExactly(ev: Evidence, c: Inputs, row: Row)
    requires Built(ev, c) && row in Fuel(c)
    ensures var v, rows, cell := ReportOf(ev, row).verdict, Rows(c), row.cell;
            var sound := Stands(c, row) && Corroborated(c, row) && ProcessAttested(c, row);
            var few, open_, unknown := TooFew(rows, cell, c.bars), TooOpen(rows, cell, c.bars), TooUnknown(rows, cell, c.bars);
            && (v == Unknown(AttestationAbsent) <==> Stands(c, row) && Corroborated(c, row) && !ProcessAttested(c, row))
            && (v == Unknown(InsufficientPairs) <==> sound && few)
            && (v == Ungrounded(ClosureBelowFloor) <==> sound && !few && open_)
            && (v == Ungrounded(UnknownRateAboveCeiling) <==> sound && !few && !open_ && unknown)
            && (v == Grounded <==> sound && !few && !open_ && !unknown)
  {
    FuelRowsAre(Rows(c), c.now, c.until, row);
    MirrorVerdictsExactly(ev, c, row);
    ThirdLegVerdictsExactly(ev, c, row);
    CellCauses(ev, row);
    FloorsExactly(Rows(c), row.cell, c.bars);
    if row.sha in ev.receipts {
      AttestedExactly(ev, c, row);
    }
  }
}
