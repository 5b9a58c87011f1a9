/** From recompute runs to fuel verdicts: what the act leg leaves on the plane,
    and why a disagreement it left always shows. */
module FuelRecompute {
  import opened Options
  import opened EvidencePlane
  import opened FuelIndexes
  import opened FuelIntegrity
  import opened FuelScan
  import opened FuelTheorems
  import opened FuelCheck
  import opened RecomputeWindow
  import opened TrialNames
  import ActDerivation
  import RecomputeRecording
  import RecomputeRuns

  // ----- who writes what

  /** Gate and graduation verdicts name no ledger row at all. */
  predicate NamesNoRow(details: map<string, string>) {
    "jid" !in details && "row_sha256" !in details
  }

  /** A target of a run: of the act leg, for a row of `acts`, or of another leg. */
  ghost predicate FromLegs(t: RecomputeRecording.Target, acts: iset<Row>) {
    NamesNoRow(t.details) || exists lane, row :: row in acts && ActDerivation.ActTarget(lane, row) == Some(t)
  }

  /** What a recompute run targets: its act leg over its ledger, and the others. */
  lemma RunTargetsFromLegs(lane: ActDerivation.Lane, ledger: seq<Row>, others: seq<RecomputeRecording.Target>, acts: iset<Row>)
    requires forall row | row in ledger :: row in acts
    requires forall t | t in others :: NamesNoRow(t.details)
    ensures forall t | t in ActDerivation.ActTargets(lane, ledger) + others :: FromLegs(t, acts)
  {
    forall t | t in ActDerivation.ActTargets(lane, ledger) + others ensures FromLegs(t, acts) {
      if t !in others {
        var row := ActDerivation.TargetFromRow(lane, ledger, t);
      }
    }
  }

  ghost predicate Written(e: Event, acts: iset<Row>) {
    exists t :: FromLegs(t, acts) && e.detail == Some(RecomputeRecording.DetailOf(t))
  }

  ghost predicate AllWritten(events: seq<Event>, acts: iset<Row>) {
    forall e | e in events :: Written(e, acts)
  }

  ghost predicate PlaneWritten(plane: RecomputeRecording.Trials, acts: iset<Row>) {
    forall key | key in plane :: AllWritten(plane[key], acts)
  }

  ghost predicate LegsOnly(cs: seq<RecomputeRecording.Check>, acts: iset<Row>) {
    forall i | 0 <= i < |cs| :: ForLegs(cs[i], acts)
  }

  ghost predicate ForLegs(c: RecomputeRecording.Check, acts: iset<Row>) {
    forall t | t in c.targets :: FromLegs(t, acts)
  }

  lemma AppendWrites(plane: RecomputeRecording.Trials, segment: nat, today: int, t: RecomputeRecording.Target, id: string, acts: iset<Row>)
    requires PlaneWritten(plane, acts) && FromLegs(t, acts)
    ensures PlaneWritten(RecomputeRecording.Appended(plane, segment, today, t, id), acts)
  {
    var key := TrialKey(RecomputeRecording.TRIAL_CLASS, segment, today);
    var e := Event(id, "", "system", Some(RecomputeRecording.DetailOf(t)));
    assert Written(e, acts);
    assert forall x | x in RecomputeRecording.EventsOf(plane, key) + [e] :: x in RecomputeRecording.EventsOf(plane, key) || x == e;
  }

  lemma {:induction false} RecordWrites(r: RecomputeRecording.Run, today: int, t: RecomputeRecording.Target,
                                        attempt: nat -> RecomputeRecording.Attempt, acts: iset<Row>)
    requires r.segment <= MAX_CHAIN_SEGMENTS && PlaneWritten(r.trials, acts) && FromLegs(t, acts)
    ensures PlaneWritten(RecomputeRecording.RecordFrom(r, today, t, attempt).trials, acts)
    decreases MAX_CHAIN_SEGMENTS - r.segment
  {
    if r.segment < MAX_CHAIN_SEGMENTS {
      match attempt(r.segment)
      case Landed(id) => AppendWrites(r.trials, r.segment, today, t, id, acts);
      case CapReached => RecordWrites(r.(segment := r.segment + 1), today, t, attempt, acts);
      case TrialPurged =>
      case OtherFailure =>
    }
  }

  lemma {:induction false} RestWrites(r: RecomputeRecording.Run, c: RecomputeRecording.Check, i: nat, acts: iset<Row>)
    requires r.segment <= MAX_CHAIN_SEGMENTS && i <= |c.targets|
    requires PlaneWritten(r.trials, acts) && ForLegs(c, acts)
    ensures PlaneWritten(RecomputeRuns.RecordRest(r, c, i).trials, acts)
    decreases |c.targets| - i
  {
    if i < |c.targets| {
      var t := c.targets[i];
      RecomputeRuns.RecordKeepsSegment(r, c.available, Day(c.now), t, c.attempts(i));
      RecordWrites(r, Day(c.now), t, c.attempts(i), acts);
      RestWrites(RecomputeRecording.Record(r, c.available, Day(c.now), t, c.attempts(i)), c, i + 1, acts);
    }
  }

  /** Every event any sequence of runs leaves is a verdict of one of their legs. */
  lemma {:induction false} RunsWrite(plane: RecomputeRecording.Trials, cs: seq<RecomputeRecording.Check>, acts: iset<Row>)
    requires LegsOnly(cs, acts)
    requires PlaneWritten(plane, acts)
    ensures PlaneWritten(RecomputeRuns.RunAll(plane, cs), acts)
    decreases |cs|
  {
    if cs != [] {
      RestWrites(RecomputeRuns.StartOf(plane, cs[0]), cs[0], 0, acts);
      RunsWrite(RecomputeRuns.RunOf(plane, cs[0]).trials, cs[1..], acts);
    }
  }

  // ----- a disagreement always wins

  /** Among the rows of the act leg the digest of `row` stands for its refs. */
  ghost predicate DigestTells(acts: iset<Row>, row: Row) {
    forall other | other in acts && other.sha == row.sha :: other.refs == row.refs
  }

  lemma ActDisagreement(lane: ActDerivation.Lane, source: Row, t: RecomputeRecording.Target)
    requires ActDerivation.ActTarget(lane, source) == Some(t) && t.agreement == "disagree"
    ensures "row_sha256" in t.details ==> t.details["row_sha256"] == source.sha
    ensures "jid" in t.details && t.details["jid"] in RowJids(source)
  {
    ActDerivation.ContradictionNamesJid(lane, source);
  }

  /** A written disagreement that names the row's digest names a journal id of
      the row as well. */
  lemma DigestJoinIsJidJoin(e: Event, acts: iset<Row>, row: Row)
    requires Written(e, acts) && DigestTells(acts, row)
    requires Verifies(e, "disagree") && Detail(e, "row_sha256") == Some(row.sha)
    ensures exists jid :: jid in RowJids(row) && Detail(e, "jid") == Some(jid)
  {
    var t :| FromLegs(t, acts) && e.detail == Some(RecomputeRecording.DetailOf(t));
    DetailKeeps(t);
    TargetJoinIsJidJoin(t, acts, row);
    assert Detail(e, "jid") == Some(t.details["jid"]);
  }

  lemma DetailKeeps(t: RecomputeRecording.Target)
    ensures var d := RecomputeRecording.DetailOf(t);
            && d["agreement"] == t.agreement
            && ("jid" in d <==> "jid" in t.details) && ("jid" in d ==> d["jid"] == t.details["jid"])
            && ("row_sha256" in d <==> "row_sha256" in t.details) && ("row_sha256" in d ==> d["row_sha256"] == t.details["row_sha256"])
  {
  }

  lemma TargetJoinIsJidJoin(t: RecomputeRecording.Target, acts: iset<Row>, row: Row)
    requires FromLegs(t, acts) && DigestTells(acts, row) && t.agreement == "disagree"
    requires "row_sha256" in t.details && t.details["row_sha256"] == row.sha
    ensures "jid" in t.details && t.details["jid"] in RowJids(row)
  {
    var lane, source :| source in acts && ActDerivation.ActTarget(lane, source) == Some(t);
    ActDisagreement(lane, source, t);
  }

  /** On a plane the recompute legs wrote, a disagreement about a row always wins:
      joined by journal id or by digest, whatever else is recorded, it makes the
      contradiction surface unless the mirror already failed the row or an
      anchored label speaks for it. */
  lemma DisagreementAlwaysWins(ev: Evidence, events: seq<Event>, acts: iset<Row>, row: Row)
    requires ev.recompute == Index(events) && AllWritten(events, acts) && DigestTells(acts, row)
    ensures VerdictOf(ev, row) == Ungrounded(RecomputeContradictsClaim) <==>
              && MirrorVerdict(ev, row).None? && !LabelAnchored(ev, row)
              && (ByJid(events, row, "disagree") || BySha(events, row, "disagree"))
  {
    ContradictionExactly(ev, events, row);
    if BySha(events, row, "disagree") {
      var e :| e in events && Verifies(e, "disagree") && Detail(e, "row_sha256") == Some(row.sha);
      DigestJoinIsJidJoin(e, acts, row);
      assert ByJid(events, row, "disagree");
    }
  }

  // ----- the fuel check over the plane the runs left

  /** What the reader returns for a recompute trial is what the plane holds. */
  ghost predicate ReadsPlane(c: Inputs, plane: RecomputeRecording.Trials) {
    forall segment: nat, day | segment < MAX_CHAIN_SEGMENTS ::
      var state := NamedState(c.reader, TrialId(RECOMPUTE_TRIAL_CLASS, segment, c.cal(day)));
      state.Ok? ==> state.events == RecomputeRecording.EventsOf(plane, TrialKey(RecomputeRecording.TRIAL_CLASS, segment, day))
  }

  /** Whether the check reads this trial back. */
  predicate ReadsBack(c: Inputs, segment: nat, day: int) {
    segment < MAX_CHAIN_SEGMENTS && InWindow(Some(SinceOf(c.since, c.now)), c.now, day)
    && NamedState(c.reader, TrialId(RECOMPUTE_TRIAL_CLASS, segment, c.cal(day))).Ok?
  }

  ghost predicate StandsAt(c: Inputs, plane: RecomputeRecording.Trials, segment: nat, day: int, e: Event) {
    ReadsBack(c, segment, day) && e in RecomputeRecording.EventsOf(plane, TrialKey(RecomputeRecording.TRIAL_CLASS, segment, day))
  }

  lemma ScanTakesIn(c: Inputs, plane: RecomputeRecording.Trials, e: Event)
    requires ReadsPlane(c, plane) && Fuel(c) != []
    ensures e in RecomputeEvents(c) <==> exists segment: nat, day :: StandsAt(c, plane, segment, day, e)
  {
    var since := SinceOf(c.since, c.now);
    var trials := RecomputeTrials(Fuel(c), since, c.now, c.cal);
    ReadableHas(c.reader, trials, e);
    if e in RecomputeEvents(c) {
      var trial :| trial in trials && e in EventsIn(NamedState(c.reader, trial));
      RecomputeTrialsExactly(Fuel(c), since, c.now, c.cal, trial);
      var day, segment: nat :| InWindow(Some(since), c.now, day) && segment < MAX_CHAIN_SEGMENTS
        && trial == TrialId(RECOMPUTE_TRIAL_CLASS, segment, c.cal(day));
      assert StandsAt(c, plane, segment, day, e);
    }
    if segment: nat, day :| StandsAt(c, plane, segment, day, e) {
      var trial := TrialId(RECOMPUTE_TRIAL_CLASS, segment, c.cal(day));
      RecomputeTrialsExactly(Fuel(c), since, c.now, c.cal, trial);
      assert e in EventsIn(NamedState(c.reader, trial));
    }
  }

  ghost predicate About(e: Event, row: Row) {
    || (row.sha != "" && Detail(e, "row_sha256") == Some(row.sha))
    || exists jid :: jid in RowJids(row) && Detail(e, "jid") == Some(jid)
  }

  /** Some trial the check reads back holds a disagreement about the row. */
  ghost predicate Disputed(c: Inputs, plane: RecomputeRecording.Trials, row: Row) {
    exists e, segment: nat, day :: StandsAt(c, plane, segment, day, e) && Verifies(e, "disagree") && About(e, row)
  }

  lemma DisputedExactly(c: Inputs, plane: RecomputeRecording.Trials, row: Row)
    requires ReadsPlane(c, plane) && Fuel(c) != []
    ensures Disputed(c, plane, row) <==> exists e :: e in RecomputeEvents(c) && Verifies(e, "disagree") && About(e, row)
  {
    if e, segment: nat, day :| StandsAt(c, plane, segment, day, e) && Verifies(e, "disagree") && About(e, row) {
      ScanTakesIn(c, plane, e);
    }
    if e :| e in RecomputeEvents(c) && Verifies(e, "disagree") && About(e, row) {
      ScanTakesIn(c, plane, e);
    }
  }

  lemma ScanIsWritten(c: Inputs, plane: RecomputeRecording.Trials, acts: iset<Row>)
    requires ReadsPlane(c, plane) && Fuel(c) != [] && PlaneWritten(plane, acts)
    ensures AllWritten(RecomputeEvents(c), acts)
  {
    forall e | e in RecomputeEvents(c) ensures Written(e, acts) {
      ScanTakesIn(c, plane, e);
      var segment: nat, day :| StandsAt(c, plane, segment, day, e);
    }
  }

  /** Over every sequence of recompute runs and every fuel check that reads their
      plane: a fuel row is reported contradicted exactly when its mirror holds up,
      no anchored label speaks for it, and some trial the check reads back holds a
      disagreement about it. */
  lemma ContradictedExactly(ev: Evidence, c: Inputs, cs: seq<RecomputeRecording.Check>, acts: iset<Row>, row: Row)
    requires LegsOnly(cs, acts)
    requires Built(ev, c) && row in Fuel(c) && DigestTells(acts, row)
    requires ReadsPlane(c, RecomputeRuns.RunAll(map[], cs))
    ensures VerdictOf(ev, row) == Ungrounded(RecomputeContradictsClaim) <==>
              && MirrorVerdict(ev, row).None? && !LabelAnchored(ev, row)
              && Disputed(c, RecomputeRuns.RunAll(map[], cs), row)
  {
    var plane := RecomputeRuns.RunAll(map[], cs);
    RunsWrite(map[], cs, acts);
    OnPlane(ev, c, plane, acts, row);
  }

  lemma OnPlane(ev: Evidence, c: Inputs, plane: RecomputeRecording.Trials, acts: iset<Row>, row: Row)
    requires PlaneWritten(plane, acts) && ReadsPlane(c, plane)
    requires Built(ev, c) && row in Fuel(c) && DigestTells(acts, row)
    ensures VerdictOf(ev, row) == Ungrounded(RecomputeContradictsClaim) <==>
              MirrorVerdict(ev, row).None? && !LabelAnchored(ev, row) && Disputed(c, plane, row)
  {
    ScanIsWritten(c, plane, acts);
    DisagreementAlwaysWins(ev, RecomputeEvents(c), acts, row);
    DisagreementIsAbout(RecomputeEvents(c), row);
    DisputedExactly(c, plane, row);
  }

  lemma DisagreementIsAbout(events: seq<Event>, row: Row)
    ensures ByJid(events, row, "disagree") || BySha(events, row, "disagree")
            <==> exists e :: e in events && Verifies(e, "disagree") && About(e, row)
  {
    if ByJid(events, row, "disagree") {
      var e, jid :| e in events && Verifies(e, "disagree") && jid in RowJids(row) && Detail(e, "jid") == Some(jid);
      assert About(e, row);
    } else if BySha(events, row, "disagree") {
      var e :| e in events && Verifies(e, "disagree") && Detail(e, "row_sha256") == Some(row.sha);
      assert About(e, row);
    }
  }

  // ----- one recorded contradiction

  /** A landed contradiction of `row` is a disagreement under the journal id it
      was derived from. */
  lemma LandedContradiction(lane: ActDerivation.Lane, row: Row, r: RecomputeRecording.Run, today: int,
                            attempt: nat -> RecomputeRecording.Attempt, t: RecomputeRecording.Target)
    returns (e: Event)
    requires r.segment < MAX_CHAIN_SEGMENTS && attempt(r.segment).Landed?
    requires ActDerivation.ActTarget(lane, row) == Some(t) && t.agreement == "disagree" && t.claimSha !in r.existing
    ensures var key := TrialKey(RecomputeRecording.TRIAL_CLASS, r.segment, today);
            RecomputeRecording.EventsOf(RecomputeRecording.Record(r, true, today, t, attempt).trials, key)
            == RecomputeRecording.EventsOf(r.trials, key) + [e]
    ensures Verifies(e, "disagree") && ActDerivation.LastJid(row).Some? && Detail(e, "jid") == ActDerivation.LastJid(row)
  {
    ActDerivation.ContradictionNamesJid(lane, row);
    e := Event(attempt(r.segment).id, "", "system", Some(RecomputeRecording.DetailOf(t)));
  }

  /** A fuel check's window takes in the day of a recompute run exactly when its
      start is not later; and it always is when the row is dated no later than the
      run, unless the window asked for is cut short. */
  lemma RecordingDayIsScanned(c: Inputs, run: Instant, later: Row)
    requires later in Fuel(c) && run <= c.now
    ensures var since := SinceOf(c.since, c.now);
            && (InWindow(Some(since), c.now, Day(run)) <==> Day(Start(Some(since), c.now)) <= Day(run))
            && (later.ts <= run && !TooLong(since, c.now) ==> InWindow(Some(since), c.now, Day(run)))
  {
    var since := SinceOf(c.since, c.now);
    CoversPast(Some(since), c.now, run);
    FuelRowsAre(Rows(c), since, c.until, later);
    FuelRowsAre(c.ledger, since, c.until, later);
  }

  /** Once a recompute run has recorded a contradiction of `row`, every fuel check
      whose window reaches back to the run and which reads its trial withholds
      every row with the same bytes and every row that carries the journal id the
      contradiction was derived from, if the mirror holds up and no anchored label
      speaks for it: later appends, other trials and other verdicts change nothing. */
  lemma RecordedContradictionWithholds(
    lane: ActDerivation.Lane, row: Row, t: RecomputeRecording.Target,
    r: RecomputeRecording.Run, run: Instant, attempt: nat -> RecomputeRecording.Attempt,
    ev: Evidence, c: Inputs, later: Row)
    requires r.segment < MAX_CHAIN_SEGMENTS && attempt(r.segment).Landed?
    requires ActDerivation.ActTarget(lane, row) == Some(t) && t.agreement == "disagree" && t.claimSha !in r.existing
    requires Built(ev, c) && later in Fuel(c)
    requires run <= c.now && Day(Start(Some(SinceOf(c.since, c.now)), c.now)) <= Day(run)
    requires var state := NamedState(c.reader, TrialId(RECOMPUTE_TRIAL_CLASS, r.segment, c.cal(Day(run))));
             state.Ok? && RecomputeRecording.EventsOf(RecomputeRecording.Record(r, true, Day(run), t, attempt).trials,
                                                      TrialKey(RecomputeRecording.TRIAL_CLASS, r.segment, Day(run))) <= state.events
    requires later.sha == row.sha || (exists jid :: jid in RowJids(later) && Some(jid) == ActDerivation.LastJid(row))
    requires later.sha == row.sha ==> later.refs == row.refs
    requires MirrorVerdict(ev, later).None? && !LabelAnchored(ev, later)
    ensures VerdictOf(ev, later) == Ungrounded(RecomputeContradictsClaim)
  {
    var e := LandedContradiction(lane, row, r, Day(run), attempt, t);
    var trial := TrialId(RECOMPUTE_TRIAL_CLASS, r.segment, c.cal(Day(run)));
    var before := RecomputeRecording.EventsOf(r.trials, TrialKey(RecomputeRecording.TRIAL_CLASS, r.segment, Day(run)));
    assert NamedState(c.reader, trial).events[|before|] == e by {
      assert before + [e] <= NamedState(c.reader, trial).events;
      assert (before + [e])[|before|] == e;
    }
    RecordingDayIsScanned(c, run, later);
    var jid := ActDerivation.LastJid(row).value;
    assert jid in RowJids(later);
    ScannedContradiction(ev, c, trial, r.segment, Day(run), e, jid, later);
  }

  lemma ScannedContradiction(ev: Evidence, c: Inputs, trial: string, segment: nat, day: int, e: Event, jid: string, row: Row)
    requires Built(ev, c) && row in Fuel(c)
    requires InWindow(Some(SinceOf(c.since, c.now)), c.now, day) && segment < MAX_CHAIN_SEGMENTS
    requires trial == TrialId(RECOMPUTE_TRIAL_CLASS, segment, c.cal(day)) && e in EventsIn(NamedState(c.reader, trial))
    requires Verifies(e, "disagree") && Detail(e, "jid") == Some(jid) && jid in RowJids(row)
    requires MirrorVerdict(ev, row).None? && !LabelAnchored(ev, row)
    ensures VerdictOf(ev, row) == Ungrounded(RecomputeContradictsClaim)
  {
    var since := SinceOf(c.since, c.now);
    RecomputeTrialsExactly(Fuel(c), since, c.now, c.cal, trial);
    ReadableHas(c.reader, RecomputeTrials(Fuel(c), since, c.now, c.cal), e);
    assert ByJid(RecomputeEvents(c), row, "disagree");
    ContradictionExactly(ev, RecomputeEvents(c), row);
  }
}
