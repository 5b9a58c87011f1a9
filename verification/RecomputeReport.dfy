/** The whole recompute check: targets of the three legs, what is recorded of
    them, and the report's counters. */
module RecomputeReport {
  import opened Options
  import opened EvidencePlane
  import opened RecomputeRecording
  import opened RecomputeRuns
  import opened ActDerivation

  datatype Tally = Tally(agree: nat, disagree: nat, underivable: nat)

  /** The report's three counters, each counted on its own. */
  function TallyOf(targets: seq<Target>): Tally {
    if targets == [] then Tally(0, 0, 0)
    else
      var before, a := TallyOf(targets[..|targets| - 1]), targets[|targets| - 1].agreement;
      Tally(before.agree + (if a == AGREE then 1 else 0),
            before.disagree + (if a == DISAGREE then 1 else 0),
            before.underivable + (if UNDERIVABLE <= a then 1 else 0))
  }

  /** The three counters share the targets out exactly when every agreement is of
      one of the three forms. */
  lemma {:induction false} CountersShareOut(targets: seq<Target>)
    ensures var c := TallyOf(targets);
            && c.agree + c.disagree + c.underivable <= |targets|
            && (c.agree + c.disagree + c.underivable == |targets| <==> forall t | t in targets :: Classified(t.agreement))
    decreases |targets|
  {
    if targets != [] {
      var before, last := targets[..|targets| - 1], targets[|targets| - 1];
      CountersShareOut(before);
      assert forall t :: t in targets <==> t in before || t == last;
      OneCounterAtMost(last.agreement);
    }
  }

  lemma OneCounterAtMost(agreement: string)
    ensures !(agreement == AGREE && agreement == DISAGREE)
    ensures !(UNDERIVABLE <= AGREE) && !(UNDERIVABLE <= DISAGREE)
  {
    assert AGREE[0] == 'a' && DISAGREE[0] == 'd' && UNDERIVABLE[0] == 'u';
  }

  /** With the other legs' targets added they share out exactly when those legs
      keep to the three forms. */
  lemma TargetsShareOut(lane: Lane, rows: seq<Row>, others: seq<Target>)
    ensures var targets := ActTargets(lane, rows) + others;
            var c := TallyOf(targets);
            c.agree + c.disagree + c.underivable == |targets| <==> ClassifiedAll(others)
  {
    var acts := ActTargets(lane, rows);
    CountersShareOut(acts + others);
    forall t | t in acts ensures Classified(t.agreement) {
      TargetsWellFormed(lane, rows, t);
    }
    assert forall t :: t in acts + others <==> t in acts || t in others;
  }

  /** The act leg's own verdicts always share out. */
  lemma ActVerdictsShareOut(lane: Lane, rows: seq<Row>)
    ensures var c := TallyOf(ActTargets(lane, rows));
            c.agree + c.disagree + c.underivable == |ActTargets(lane, rows)|
  {
    TargetsShareOut(lane, rows, []);
    assert ActTargets(lane, rows) + [] == ActTargets(lane, rows);
  }

  predicate ClassifiedAll(targets: seq<Target>) {
    forall t | t in targets :: Classified(t.agreement)
  }

  datatype Report = Report(checked: nat, tally: Tally, recording: Counts)

  /** The run: `others` are the gate and graduation targets. */
  ghost function CheckOf(lane: Lane, ledger: seq<Row>, others: seq<Target>, record: bool, available: bool,
                         attempts: nat -> nat -> Attempt, unreadable: set<TrialKey>): Check {
    Check(lane.now, Some(lane.since), record, available, ActTargets(lane, ledger) + others, attempts, unreadable)
  }

  /** What a run leaves and says: the plane it recorded on, one report counter set
      over its targets, one recording counter a target. */
  ghost predicate Reports(trials: Trials, c: Check, after: Trials, report: Report) {
    && after == RunOf(trials, c).trials
    && report == Report(|c.targets|, TallyOf(c.targets), RunOf(trials, c).counts)
    && Total(report.recording) == if c.record then report.checked else 0
  }

  method CheckRecompute(lane: Lane, ledger: seq<Row>, others: seq<Target>, record: bool, available: bool,
                        attempts: nat -> nat -> Attempt, unreadable: set<TrialKey>, trials: Trials)
    returns (after: Trials, report: Report)
    ensures Reports(trials, CheckOf(lane, ledger, others, record, available, attempts, unreadable), after, report)
  {
    var acts := CollectActTargets(lane, ledger);
    after, report := Record(Check(lane.now, Some(lane.since), record, available, acts + others, attempts, unreadable), trials);
  }

  method Record(c: Check, trials: Trials) returns (after: Trials, report: Report)
    ensures Reports(trials, c, after, report)
  {
    var counts;
    after, counts := RecordAll(c, trials);
    var tally := CountTargets(c.targets);
    report := Report(|c.targets|, tally, counts);
    EveryTargetCounted(trials, c);
  }

  method CountTargets(targets: seq<Target>) returns (tally: Tally)
    ensures tally == TallyOf(targets)
  {
    var agree, disagree, underivable := 0, 0, 0;
    for i := 0 to |targets|
      invariant TallyOf(targets[..i]) == Tally(agree, disagree, underivable)
    {
      assert targets[..i + 1][..i] == targets[..i];
      var a := targets[i].agreement;
      agree := agree + if a == AGREE then 1 else 0;
      disagree := disagree + if a == DISAGREE then 1 else 0;
      underivable := underivable + if UNDERIVABLE <= a then 1 else 0;
    }
    assert targets[..|targets|] == targets;
    tally := Tally(agree, disagree, underivable);
  }
}
