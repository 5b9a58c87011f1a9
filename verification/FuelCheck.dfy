/** The whole fuel check: from the ledger and the store to the report. */
module FuelCheck {
  import opened Options
  import opened EvidencePlane
  import opened FuelIndexes
  import opened FuelIntegrity
  import opened FuelScan
  import opened FuelTheorems

  datatype Inputs = Inputs(
    ledger: seq<Row>,
    now: Instant,
    since: Option<Instant>,
    until: Option<Instant>,
    cal: Calendar,
    reader: Reader,
    journal: seq<Digest>,
    degradations: seq<Degradation>,
    bars: Bars)

  function Rows(c: Inputs): seq<Row> {
    Windowed(c.ledger, SinceOf(c.since, c.now), c.until)
  }

  function Fuel(c: Inputs): seq<Row> {
    FuelRows(Rows(c))
  }

  /** Events of the trials searched for receipts. */
  function ReceiptEvents(c: Inputs): seq<Event> {
    Readable(c.reader, Candidates(Fuel(c), c.cal))
  }

  /** Events of the trials searched for recompute verdicts. */
  function RecomputeEvents(c: Inputs): seq<Event> {
    Readable(c.reader, RecomputeTrials(Fuel(c), SinceOf(c.since, c.now), c.now, c.cal))
  }

  ghost predicate Built(ev: Evidence, c: Inputs) {
    && ev.reader == c.reader
    && ev.receipts == Receipts(ReceiptEvents(c))
    && ev.recompute == Index(RecomputeEvents(c))
    && ev.degradations == c.degradations
    && IndexesLabels(ev.labels, c.reader, c.journal)
    && (forall row | row in Rows(c) :: row.cell in ev.cells)
    && (forall cell | cell in ev.cells :: ev.cells[cell] == FloorsOf(Tally(Rows(c), cell), c.bars))
  }

  datatype Summary = Summary(checked: nat, grounded: nat, ungrounded: nat, inconclusive: nat, wouldWithhold: nat)

  /** The report's columns, each counted on its own. */
  function Columns(reports: seq<Report>): Summary {
    if reports == [] then Summary(0, 0, 0, 0, 0)
    else
      var s, r := Columns(reports[..|reports| - 1]), reports[|reports| - 1];
      Summary(s.checked + 1,
              s.grounded + (if r.verdict == Grounded then 1 else 0),
              s.ungrounded + (if r.verdict.Ungrounded? then 1 else 0),
              s.inconclusive + (if r.verdict.Unknown? then 1 else 0),
              s.wouldWithhold + (if r.wouldWithhold then 1 else 0))
  }

  method CollectRows(c: Inputs, since: Instant) returns (rows: seq<Row>, fuel: seq<Row>)
    requires since == SinceOf(c.since, c.now)
    ensures rows == Rows(c) && fuel == Fuel(c)
  {
    rows, fuel := [], [];
    for i := 0 to |c.ledger|
      invariant rows == Windowed(c.ledger[..i], since, c.until)
    {
      assert c.ledger[..i + 1][..i] == c.ledger[..i];
      if since <= c.ledger[i].ts && (c.until.None? || c.ledger[i].ts <= c.until.value) {
        rows := rows + [c.ledger[i]];
      }
    }
    assert c.ledger[..|c.ledger|] == c.ledger;
    for i := 0 to |rows|
      invariant fuel == FuelRows(rows[..i])
    {
      assert rows[..i + 1][..i] == rows[..i];
      if rows[i].reviewVerdict == "confirmed" && rows[i].reviewSource == FUEL_SOURCE {
        fuel := fuel + [rows[i]];
      }
    }
    assert rows[..|rows|] == rows;
  }

  lemma {:induction false} ColumnsAddUp(reports: seq<Report>)
    requires forall r | r in reports :: r.wouldWithhold <==> r.verdict != Grounded
    ensures var s := Columns(reports);
            && s.grounded + s.ungrounded + s.inconclusive == s.checked == |reports|
            && s.wouldWithhold == s.checked - s.grounded
    decreases |reports|
  {
    if reports != [] {
      var before := reports[..|reports| - 1];
      assert forall r | r in before :: r in reports;
      ColumnsAddUp(before);
      assert reports[|reports| - 1] in reports;
    }
  }

  lemma WithheldIsNotGrounded(ev: Evidence, fuel: seq<Row>, reports: seq<Report>)
    requires |reports| == |fuel| && forall i | 0 <= i < |reports| :: reports[i] == ReportOf(ev, fuel[i])
    ensures forall r | r in reports :: r.wouldWithhold <==> r.verdict != Grounded
  {
    forall r | r in reports ensures r.wouldWithhold <==> r.verdict != Grounded {
      var i :| 0 <= i < |reports| && reports[i] == r;
    }
  }

  lemma ColumnsNext(reports: seq<Report>, r: Report)
    ensures var s, next := Columns(reports), Columns(reports + [r]);
            && next.grounded == s.grounded + (if r.verdict == Grounded then 1 else 0)
            && next.ungrounded == s.ungrounded + (if r.verdict.Ungrounded? then 1 else 0)
            && next.inconclusive == s.inconclusive + (if r.verdict.Unknown? then 1 else 0)
  {
    assert (reports + [r])[..|reports|] == reports;
  }

  method CountColumns(reports: seq<Report>) returns (grounded: nat, ungrounded: nat, inconclusive: nat)
    ensures var s := Columns(reports); s.grounded == grounded && s.ungrounded == ungrounded && s.inconclusive == inconclusive
  {
    grounded, ungrounded, inconclusive := 0, 0, 0;
    for i := 0 to |reports|
      invariant var s := Columns(reports[..i]); s.grounded == grounded && s.ungrounded == ungrounded && s.inconclusive == inconclusive
    {
      ColumnsNext(reports[..i], reports[i]);
      assert reports[..i] + [reports[i]] == reports[..i + 1];
      var verdict := reports[i].verdict;
      grounded := grounded + if verdict == Grounded then 1 else 0;
      ungrounded := ungrounded + if verdict.Ungrounded? then 1 else 0;
      inconclusive := inconclusive + if verdict.Unknown? then 1 else 0;
    }
    assert reports[..|reports|] == reports;
  }

  /** One report per fuel row, in order. What would be withheld is what is not
      grounded, as the source subtracts it. */
  method EvaluateAll(fuel: seq<Row>, ev: Evidence) returns (reports: seq<Report>, summary: Summary)
    ensures |reports| == |fuel|
    ensures forall i | 0 <= i < |reports| :: reports[i] == ReportOf(ev, fuel[i])
    ensures summary == Columns(reports)
    ensures summary.grounded + summary.ungrounded + summary.inconclusive == summary.checked == |reports|
  {
    reports := [];
    for i := 0 to |fuel|
      invariant |reports| == i
      invariant forall k | 0 <= k < i :: reports[k] == ReportOf(ev, fuel[k])
    {
      var r := EvaluateRow(ev, fuel[i]);
      reports := reports + [r];
    }
    var grounded, ungrounded, inconclusive := CountColumns(reports);
    WithheldIsNotGrounded(ev, fuel, reports);
    ColumnsAddUp(reports);
    summary := Summary(|reports|, grounded, ungrounded, inconclusive, |reports| - grounded);
  }

  method CheckFuel(c: Inputs) returns (ev: Evidence, reports: seq<Report>, summary: Summary)
    ensures Built(ev, c)
    ensures |reports| == |Fuel(c)|
    ensures forall i | 0 <= i < |reports| :: reports[i] == ReportOf(ev, Fuel(c)[i])
    ensures summary == Columns(reports)
    ensures summary.grounded + summary.ungrounded + summary.inconclusive == summary.checked == |reports|
  {
    var since := SinceOf(c.since, c.now);
    var rows, fuel := CollectRows(c, since);
    var cells := ComputeCells(rows, c.bars);
    var candidates := CandidateTrials(fuel, c.cal);
    var receipts := ReceiptIndex(c.reader, candidates);
    var labels := LabelIndex(c.reader, c.journal);
    var scanned := RecomputeDayTrials(fuel, since, c.now, c.cal);
    var recompute := RecomputeIndex(c.reader, scanned);
    ev := Evidence(c.reader, receipts, labels, recompute, c.degradations, cells);
    reports, summary := EvaluateAll(fuel, ev);
  }

  // ----- what the scans take in

  ghost predicate Mirrored(r: Reader, sha: string, trial: string) {
    exists e :: e in EventsIn(NamedState(r, trial)) && Mirrors(e, sha)
  }

  lemma IndexedExactly(r: Reader, trials: seq<string>, sha: string)
    ensures sha in Receipts(Readable(r, trials)) <==> exists trial :: trial in trials && Mirrored(r, sha, trial)
  {
    ReceiptExactly(Readable(r, trials), sha);
    if e :| e in Readable(r, trials) && Mirrors(e, sha) {
      ReadableHas(r, trials, e);
      var trial :| trial in trials && e in EventsIn(NamedState(r, trial));
      assert Mirrored(r, sha, trial);
    }
    if trial :| trial in trials && Mirrored(r, sha, trial) {
      var e :| e in EventsIn(NamedState(r, trial)) && Mirrors(e, sha);
      ReadableHas(r, trials, e);
    }
  }

  /** A digest is found exactly when a trial holds its receipt that some fuel row
      claims, or that is a consequence segment within a day of one. */
  lemma FoundExactly(ev: Evidence, c: Inputs, sha: string)
    requires Built(ev, c)
    ensures sha in ev.receipts <==> exists trial :: Near(Fuel(c), c.cal, trial) && Mirrored(c.reader, sha, trial)
  {
    FoundAmong(c.reader, Fuel(c), c.cal, sha);
  }

  lemma FoundAmong(r: Reader, fuel: seq<Row>, cal: Calendar, sha: string)
    ensures sha in Receipts(Readable(r, Candidates(fuel, cal)))
            <==> exists trial :: Near(fuel, cal, trial) && Mirrored(r, sha, trial)
  {
    var candidates := Candidates(fuel, cal);
    IndexedExactly(r, candidates, sha);
    forall trial ensures trial in candidates <==> Near(fuel, cal, trial) {
      CandidatesExactly(fuel, cal, trial);
    }
  }

  /** A receipt for a fuel row's bytes that its last claimed trial holds always
      carries the row through its mirror. */
  lemma ClaimedReceiptCounts(ev: Evidence, c: Inputs, row: Row, trial: string)
    requires Built(ev, c) && row in Fuel(c)
    requires LastClaimed(row) == Some(trial) && Mirrored(c.reader, row.sha, trial)
    ensures row.sha in ev.receipts && MirrorVerdict(ev, row).None?
  {
    assert trial in MirrorTrials(row);
    assert Near(Fuel(c), c.cal, trial);
    FoundExactly(ev, c, row.sha);
    MirroredReads(ev, row, trial);
  }

  lemma MirroredReads(ev: Evidence, row: Row, trial: string)
    requires LastClaimed(row) == Some(trial) && Mirrored(ev.reader, row.sha, trial) && row.sha in ev.receipts
    ensures MirrorVerdict(ev, row).None?
  {
  }

  // ----- grounded

  /** Grounded, all the way down: a receipt event for the row's bytes that a
      process attested, in a trial a fuel row claims or lies near; a third leg in
      the label journal or in the recompute trials of the window; and a cell with
      enough pairs above both floors. */
  lemma GroundedMeans(ev: Evidence, c: Inputs, row: Row)
    requires Built(ev, c) && row in Fuel(c) && VerdictOf(ev, row) == Grounded
    ensures c.reader.available && exists e :: e in ReceiptEvents(c) && Mirrors(e, row.sha) && ReceiptOf(e).attestation == "process"
    ensures var events := RecomputeEvents(c);
            || (exists d, e :: d in c.journal && Anchors(c.reader, d, e)
                  && (Some(d.trial) == LastClaimed(row) || exists jid :: jid in RowJids(row) && Detail(e, "jid") == Some(jid)))
            || ((ByJid(events, row, "agree") || BySha(events, row, "agree")) && !ByJid(events, row, "disagree"))
    ensures var s := Tally(Rows(c), row.cell);
            && c.bars.minPairs <= s.n
            && (s.intents > 0 ==> s.closed as real / s.intents as real >= c.bars.hard)
            && (s.n > 0 ==> s.unknown as real / s.n as real <= 1.0 - c.bars.hard)
  {
    GroundedExactly(ev, row);
    var i := FirstMirror(ReceiptEvents(c), row.sha);
    assert ReceiptEvents(c)[i] in ReceiptEvents(c);
    HitsExactly(ev, RecomputeEvents(c), row);
    FuelRowsAre(Rows(c), c.now, c.until, row);
    if LabelAnchored(ev, row) {
      LabelMeans(ev, c, row);
    }
  }

  lemma LabelMeans(ev: Evidence, c: Inputs, row: Row)
    requires IndexesLabels(ev.labels, c.reader, c.journal) && LabelAnchored(ev, row)
    ensures exists d, e :: d in c.journal && Anchors(c.reader, d, e)
              && (Some(d.trial) == LastClaimed(row) || exists jid :: jid in RowJids(row) && Detail(e, "jid") == Some(jid))
  {
    if jid :| jid in RowJids(row) && jid in ev.labels.jids {
      var d, e :| d in c.journal && Anchors(c.reader, d, e) && Detail(e, "jid") == Some(jid);
    } else {
      var d, e :| d in c.journal && d.trial == LastClaimed(row).value && Anchors(c.reader, d, e);
    }
  }

  /** The receipt indexed for a digest is that of the first event that mirrors it. */
  lemma FirstMirror(events: seq<Event>, sha: string) returns (i: nat)
    requires sha in Receipts(events)
    ensures i < |events| && Mirrors(events[i], sha) && forall j | 0 <= j < i :: !Mirrors(events[j], sha)
    ensures Receipts(events)[sha] == ReceiptOf(events[i])
  {
    ReceiptExactly(events, sha);
    var e :| e in events && Mirrors(e, sha);
    var k :| 0 <= k < |events| && events[k] == e;
    i := 0;
    while !Mirrors(events[i], sha)
      invariant 0 <= i <= k
      invariant forall j | 0 <= j < i :: !Mirrors(events[j], sha)
      decreases k - i
    {
      i := i + 1;
    }
  }
}
