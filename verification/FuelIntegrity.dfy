/** The six-signal verdict over one fuel row, and over a whole report. */
module FuelIntegrity {
  import opened Options
  import opened EvidencePlane
  import opened FuelIndexes

  // ----- degradations

  datatype Degradation = Degradation(chokepoint: string, day: Option<int>, reason: string)

  predicate Explains(d: Degradation, rowDay: int) {
    d.chokepoint == "consequence" && d.day.Some? && rowDay - 1 <= d.day.value <= rowDay + 1
  }

  method DegradationExplains(ds: seq<Degradation>, rowDay: int) returns (reason: Option<string>)
    ensures reason.None? <==> forall i | 0 <= i < |ds| :: !Explains(ds[i], rowDay)
    ensures reason == Explanation(ds, rowDay)
  {
    for i := 0 to |ds|
      invariant forall j | 0 <= j < i :: !Explains(ds[j], rowDay)
      invariant Explanation(ds, rowDay) == Explanation(ds[i..], rowDay)
    {
      if Explains(ds[i], rowDay) {
        return Some(if ds[i].reason != "" then ds[i].reason else "degraded");
      }
      assert ds[i..][1..] == ds[i + 1..];
    }
    return None;
  }

  function Explanation(ds: seq<Degradation>, rowDay: int): Option<string> {
    if ds == [] then None
    else if Explains(ds[0], rowDay) then Some(if ds[0].reason != "" then ds[0].reason else "degraded")
    else Explanation(ds[1..], rowDay)
  }

  // ----- cells

  /** The imported bars; the unknown ceiling is the complement of the closure bar. */
  datatype Bars = Bars(hard: real, minPairs: nat)

  datatype Stats = Stats(n: nat, intents: nat, closed: nat, unknown: nat)

  function Seen(s: Stats, row: Row): Stats {
    Stats(s.n + 1,
          s.intents + (if row.proposal then 1 else 0),
          s.closed + (if row.proposal && row.outcomeStatus in {"ok", "failed"} then 1 else 0),
          s.unknown + (if row.outcomeStatus == "unknown" || row.reviewVerdict == "unknown" then 1 else 0))
  }

  /** Rows of `cell`, those with an intent, those closed, those unknown. */
  function Tally(rows: seq<Row>, cell: Cell): Stats {
    if rows == [] then Stats(0, 0, 0, 0)
    else
      var before := Tally(rows[..|rows| - 1], cell);
      if rows[|rows| - 1].cell == cell then Seen(before, rows[|rows| - 1]) else before
  }

  datatype Floors = Insufficient | ClosureBelow | UnknownAbove | Pass

  function FloorsOf(s: Stats, bars: Bars): Floors {
    if s.n < bars.minPairs then Insufficient
    else if s.intents > 0 && s.closed as real / s.intents as real < bars.hard then ClosureBelow
    else if s.n > 0 && s.unknown as real / s.n as real > 1.0 - bars.hard then UnknownAbove
    else Pass
  }

  /** Every cell some row belongs to, under the floors of its tally. */
  method ComputeCells(rows: seq<Row>, bars: Bars) returns (cells: map<Cell, Floors>)
    ensures forall cell :: cell in cells <==> exists row :: row in rows && row.cell == cell
    ensures forall cell | cell in cells :: cells[cell] == FloorsOf(Tally(rows, cell), bars)
  {
    var stats: map<Cell, Stats> := map[];
    for i := 0 to |rows|
      invariant forall cell :: cell in stats <==> exists row :: row in rows[..i] && row.cell == cell
      invariant forall cell :: (if cell in stats then stats[cell] else Stats(0, 0, 0, 0)) == Tally(rows[..i], cell)
    {
      var row := rows[i];
      assert rows[..i + 1][..i] == rows[..i];
      assert forall x :: x in rows[..i + 1] <==> x in rows[..i] || x == row;
      var s := if row.cell in stats then stats[row.cell] else Stats(0, 0, 0, 0);
      stats := stats[row.cell := Seen(s, row)];
    }
    assert rows[..|rows|] == rows;
    cells := map cell | cell in stats :: FloorsOf(stats[cell], bars);
  }

  // ----- the ladder

  datatype Cause =
    | UnmirroredRow | VerifyFailed | PurgeOverlap | TrialMissing | RowShaMismatch
    | RecomputeContradictsClaim | ClosureBelowFloor | UnknownRateAboveCeiling
    | StoreUnavailable | MirrorDegraded | StoreError
    | ThirdLegUnanchored | ThirdLegProducerAdjacent | ThirdLegAbsent
    | AttestationAbsent | InsufficientPairs

  datatype Verdict = Grounded | Ungrounded(cause: Cause) | Unknown(cause: Cause)

  /** What the third leg rests on; NotReached when the mirror settled the row. */
  datatype Leg =
    | NotReached | HumanLabelRow | HumanLabelTrial | RecomputeDisagree | IndependentRecompute
    | HumanLabelUnanchored | MachineProbeProducerAdjacent | Absent

  datatype Evidence = Evidence(
    reader: Reader,
    receipts: map<string, Receipt>,
    labels: Labels,
    recompute: Recompute,
    degradations: seq<Degradation>,
    cells: map<Cell, Floors>)

  const TTL_OK_MARKER := "ttl-48h survived"

  function LastClaimed(row: Row): Option<string> {
    var trials := MirrorTrials(row);
    if trials == [] then None else Some(trials[|trials| - 1])
  }

  /** Signals 1, 2 and 5: None when the row's mirror holds up. */
  function MirrorVerdict(ev: Evidence, row: Row): Option<Verdict> {
    var explained := Explanation(ev.degradations, Day(row.ts)).Some?;
    if !ev.reader.available then Some(Unknown(StoreUnavailable))
    else match LastClaimed(row)
      case None => Some(if explained then Unknown(MirrorDegraded) else Ungrounded(UnmirroredRow))
      case Some(trial) =>
        match NamedState(ev.reader, trial)
        case IntegrityFailed => Some(Ungrounded(VerifyFailed))
        case Purged => Some(Ungrounded(PurgeOverlap))
        case Missing => Some(Ungrounded(TrialMissing))
        case Error(_) => Some(Unknown(StoreError))
        case Ok(_) =>
          if row.sha in ev.receipts then None
          else Some(if explained then Unknown(MirrorDegraded) else Ungrounded(RowShaMismatch))
  }

  predicate LabelAnchored(ev: Evidence, row: Row) {
    (exists jid :: jid in RowJids(row) && jid in ev.labels.jids)
    || (LastClaimed(row).Some? && LastClaimed(row).value in ev.labels.trials)
  }

  function JidHits(m: map<string, seq<string>>, jids: seq<string>): seq<string> {
    if jids == [] then [] else Hits(m, jids[0]) + JidHits(m, jids[1..])
  }

  /** Agreements joined by journal id; by row digest only when there are none. */
  function RecomputeHits(ev: Evidence, row: Row): seq<string> {
    var byJid := JidHits(ev.recompute.byJid, RowJids(row));
    if byJid != [] then byJid else Hits(ev.recompute.bySha, row.sha)
  }

  predicate UnanchoredLabel(ev: Evidence, row: Row) {
    LastClaimed(row).Some? && NamedState(ev.reader, LastClaimed(row).value).Ok?
    && exists e :: e in NamedState(ev.reader, LastClaimed(row).value).events && CaptainLabel(e)
  }

  /** Signal 3: None when the third leg holds, and what it rests on. */
  function Third(ev: Evidence, row: Row): (Option<Verdict>, Leg) {
    var hits := RecomputeHits(ev, row);
    if exists jid :: jid in RowJids(row) && jid in ev.labels.jids then (None, HumanLabelRow)
    else if LastClaimed(row).Some? && LastClaimed(row).value in ev.labels.trials then (None, HumanLabelTrial)
    else if "disagree" in hits then (Some(Ungrounded(RecomputeContradictsClaim)), RecomputeDisagree)
    else if hits != [] then (None, IndependentRecompute)
    else if UnanchoredLabel(ev, row) then (Some(Unknown(ThirdLegUnanchored)), HumanLabelUnanchored)
    else if TTL_OK_MARKER <= row.outcomeEvidence then (Some(Unknown(ThirdLegProducerAdjacent)), MachineProbeProducerAdjacent)
    else (Some(Unknown(ThirdLegAbsent)), Absent)
  }

  function ThirdLegVerdict(ev: Evidence, row: Row): Option<Verdict> {
    Third(ev, row).0
  }

  /** Signal 6: None when the row's cell meets the floors. */
  function CellVerdict(ev: Evidence, row: Row): Option<Verdict> {
    if row.cell !in ev.cells then None
    else match ev.cells[row.cell]
      case Insufficient => Some(Unknown(InsufficientPairs))
      case ClosureBelow => Some(Ungrounded(ClosureBelowFloor))
      case UnknownAbove => Some(Ungrounded(UnknownRateAboveCeiling))
      case Pass => None
  }

  function VerdictOf(ev: Evidence, row: Row): Verdict {
    var mirror := MirrorVerdict(ev, row);
    if mirror.Some? then mirror.value
    else
      var third := ThirdLegVerdict(ev, row);
      if third.Some? then third.value
      else if ev.receipts[row.sha].attestation != "process" then Unknown(AttestationAbsent)
      else
        var cell := CellVerdict(ev, row);
        if cell.Some? then cell.value else Grounded
  }

  /** The shapes that look like tampering rather than absence. */
  predicate TamperShaped(ev: Evidence, row: Row) {
    VerdictOf(ev, row) in {Ungrounded(VerifyFailed), Ungrounded(TrialMissing), Ungrounded(RowShaMismatch)}
  }

  function LegOf(ev: Evidence, row: Row): Leg {
    if MirrorVerdict(ev, row).Some? then NotReached else Third(ev, row).1
  }

  datatype Report = Report(verdict: Verdict, wouldWithhold: bool, tamperShaped: bool, thirdLeg: Leg)

  function ReportOf(ev: Evidence, row: Row): Report {
    Report(VerdictOf(ev, row), VerdictOf(ev, row) != Grounded, TamperShaped(ev, row), LegOf(ev, row))
  }

  method EvaluateRow(ev: Evidence, row: Row) returns (r: Report)
    ensures r == ReportOf(ev, row)
  {
    var verdict: Option<Verdict>, tamper, attestation := MirrorSignals(ev, row);
    var thirdLeg := NotReached;
    if verdict.None? {
      verdict, thirdLeg := ThirdLeg(ev, row);
    }
    if verdict.None? && attestation != "process" {
      verdict := Some(Unknown(AttestationAbsent));
    }
    if verdict.None? && row.cell in ev.cells {
      match ev.cells[row.cell] {
        case Insufficient => verdict := Some(Unknown(InsufficientPairs));
        case ClosureBelow => verdict := Some(Ungrounded(ClosureBelowFloor));
        case UnknownAbove => verdict := Some(Ungrounded(UnknownRateAboveCeiling));
        case Pass =>
      }
    }
    if verdict.None? {
      verdict := Some(Grounded);
    }
    r := Report(verdict.value, verdict.value != Grounded, tamper, thirdLeg);
  }

  method MirrorSignals(ev: Evidence, row: Row) returns (verdict: Option<Verdict>, tamper: bool, attestation: string)
    ensures verdict == MirrorVerdict(ev, row)
    ensures tamper <==> verdict in {Some(Ungrounded(VerifyFailed)), Some(Ungrounded(TrialMissing)), Some(Ungrounded(RowShaMismatch))}
    ensures verdict.None? ==> row.sha in ev.receipts && attestation == ev.receipts[row.sha].attestation
  {
    verdict, tamper, attestation := None, false, "";
    var last := LastClaimed(row);
    if !ev.reader.available {
      verdict := Some(Unknown(StoreUnavailable));
    } else if last.None? {
      var reason := DegradationExplains(ev.degradations, Day(row.ts));
      verdict := Some(if reason.Some? then Unknown(MirrorDegraded) else Ungrounded(UnmirroredRow));
    } else {
      match NamedState(ev.reader, last.value) {
        case IntegrityFailed => tamper, verdict := true, Some(Ungrounded(VerifyFailed));
        case Purged => verdict := Some(Ungrounded(PurgeOverlap));
        case Missing => tamper, verdict := true, Some(Ungrounded(TrialMissing));
        case Error(_) => verdict := Some(Unknown(StoreError));
        case Ok(_) =>
          if row.sha in ev.receipts {
            attestation := ev.receipts[row.sha].attestation;
          } else {
            var reason := DegradationExplains(ev.degradations, Day(row.ts));
            tamper := reason.None?;
            verdict := Some(if reason.Some? then Unknown(MirrorDegraded) else Ungrounded(RowShaMismatch));
          }
      }
    }
  }

  method ThirdLeg(ev: Evidence, row: Row) returns (verdict: Option<Verdict>, leg: Leg)
    ensures (verdict, leg) == Third(ev, row)
  {
    var jids, last := RowJids(row), LastClaimed(row);
    var byJid, hits := JoinByJid(ev, jids);
    if hits == [] {
      hits := Hits(ev.recompute.bySha, row.sha);
    }
    if byJid {
      return None, HumanLabelRow;
    } else if last.Some? && last.value in ev.labels.trials {
      return None, HumanLabelTrial;
    } else if "disagree" in hits {
      return Some(Ungrounded(RecomputeContradictsClaim)), RecomputeDisagree;
    } else if hits != [] {
      return None, IndependentRecompute;
    }
    var unanchored := false;
    if last.Some? && NamedState(ev.reader, last.value).Ok? {
      unanchored := HasUnanchoredLabel(NamedState(ev.reader, last.value).events);
    }
    if unanchored {
      return Some(Unknown(ThirdLegUnanchored)), HumanLabelUnanchored;
    } else if TTL_OK_MARKER <= row.outcomeEvidence {
      return Some(Unknown(ThirdLegProducerAdjacent)), MachineProbeProducerAdjacent;
    }
    return Some(Unknown(ThirdLegAbsent)), Absent;
  }

  method JoinByJid(ev: Evidence, jids: seq<string>) returns (labelled: bool, hits: seq<string>)
    ensures labelled <==> exists jid :: jid in jids && jid in ev.labels.jids
    ensures hits == JidHits(ev.recompute.byJid, jids)
  {
    labelled, hits := false, [];
    assert jids[0..] == jids;
    for i := 0 to |jids|
      invariant labelled <==> exists j | 0 <= j < i :: jids[j] in ev.labels.jids
      invariant hits + JidHits(ev.recompute.byJid, jids[i..]) == JidHits(ev.recompute.byJid, jids)
    {
      assert jids[i..][1..] == jids[i + 1..];
      labelled := labelled || jids[i] in ev.labels.jids;
      hits := hits + Hits(ev.recompute.byJid, jids[i]);
    }
    assert jids[|jids|..] == [];
  }

  method HasUnanchoredLabel(events: seq<Event>) returns (found: bool)
    ensures found <==> exists e :: e in events && CaptainLabel(e)
  {
    for i := 0 to |events|
      invariant forall j | 0 <= j < i :: !CaptainLabel(events[j])
    {
      if CaptainLabel(events[i]) {
        return true;
      }
    }
    return false;
  }
}
