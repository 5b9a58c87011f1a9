/** Which ledger rows the fuel check looks at, and which trials it reads. */
module FuelScan {
  import opened Options
  import opened EvidencePlane
  import opened RecomputeWindow
  import opened TrialNames

  const CONSEQUENCE_TRIAL_CLASS := "consequence"
  const RECOMPUTE_TRIAL_CLASS := "recompute"
  const STATUS_MAX_AGE_DAYS := 14
  const FUEL_SOURCE := "verdict_human"

  /** How a day is printed in a trial id. */
  type Calendar = int -> string

  // ----- rows

  function SinceOf(since: Option<Instant>, now: Instant): Instant {
    if since.Some? then since.value else now - STATUS_MAX_AGE_DAYS * SECONDS_PER_DAY
  }

  predicate InReport(row: Row, since: Instant, until: Option<Instant>) {
    since <= row.ts && (until.Some? ==> row.ts <= until.value)
  }

  function Windowed(ledger: seq<Row>, since: Instant, until: Option<Instant>): seq<Row> {
    if ledger == [] then []
    else
      var before, last := Windowed(ledger[..|ledger| - 1], since, until), ledger[|ledger| - 1];
      if InReport(last, since, until) then before + [last] else before
  }

  predicate IsFuel(row: Row) {
    row.reviewVerdict == "confirmed" && row.reviewSource == FUEL_SOURCE
  }

  function FuelRows(rows: seq<Row>): seq<Row> {
    if rows == [] then []
    else
      var before, last := FuelRows(rows[..|rows| - 1]), rows[|rows| - 1];
      if IsFuel(last) then before + [last] else before
  }

  /** The report's rows are those dated from `since` to `until`, both taken in; its fuel
      rows those the Captain confirmed. */
  lemma {:induction false} FuelRowsAre(ledger: seq<Row>, since: Instant, until: Option<Instant>, row: Row)
    ensures row in Windowed(ledger, since, until) <==>
              row in ledger && since <= row.ts && (until == None || row.ts <= until.value)
    ensures row in FuelRows(ledger) <==>
              row in ledger && row.reviewVerdict == "confirmed" && row.reviewSource == "verdict_human"
    decreases |ledger|
  {
    if ledger != [] {
      var before := ledger[..|ledger| - 1];
      FuelRowsAre(before, since, until, row);
      assert row in ledger <==> row in before || row == ledger[|ledger| - 1];
    }
  }

  // ----- trials

  /** The first `n` segments of one class on one day. */
  function Segments(cls: string, day: string, n: nat): seq<string>
    requires n <= MAX_CHAIN_SEGMENTS
  {
    if n == 0 then [] else Segments(cls, day, n - 1) + [TrialId(cls, n - 1, day)]
  }

  function DayTrials(cls: string, days: seq<int>, cal: Calendar): seq<string> {
    if days == [] then []
    else DayTrials(cls, days[..|days| - 1], cal) + Segments(cls, cal(days[|days| - 1]), MAX_CHAIN_SEGMENTS)
  }

  function Around(day: int): seq<int> {
    [day - 1, day, day + 1]
  }

  /** Every trial name one fuel row brings in, with repeats. */
  function NamedBy(row: Row, cal: Calendar): seq<string> {
    MirrorTrials(row) + DayTrials(CONSEQUENCE_TRIAL_CLASS, Around(Day(row.ts)), cal)
  }

  function AllNamed(fuel: seq<Row>, cal: Calendar): seq<string> {
    if fuel == [] then [] else AllNamed(fuel[..|fuel| - 1], cal) + NamedBy(fuel[|fuel| - 1], cal)
  }

  /** The trials searched for receipts, each once, in the order they come up. */
  function Candidates(fuel: seq<Row>, cal: Calendar): seq<string> {
    FirstOccurrences(AllNamed(fuel, cal))
  }

  /** The trials searched for recompute verdicts. */
  function RecomputeTrials(fuel: seq<Row>, since: Instant, now: Instant, cal: Calendar): seq<string> {
    if fuel == [] then [] else DayTrials(RECOMPUTE_TRIAL_CLASS, Days(Some(since), now), cal)
  }

  method SegmentTrials(cls: string, day: string) returns (trials: seq<string>)
    ensures trials == Segments(cls, day, MAX_CHAIN_SEGMENTS)
  {
    trials := [];
    for s := 0 to MAX_CHAIN_SEGMENTS
      invariant trials == Segments(cls, day, s)
    {
      trials := trials + [TrialId(cls, s, day)];
    }
  }

  /** `seen` is everything named so far, `before` what is kept of it. */
  method AddNew(before: seq<string>, names: seq<string>, ghost seen: seq<string>) returns (trials: seq<string>)
    requires before == FirstOccurrences(seen)
    ensures trials == FirstOccurrences(seen + names)
  {
    trials := before;
    assert seen + names[..0] == seen;
    for i := 0 to |names|
      invariant trials == FirstOccurrences(seen + names[..i])
    {
      assert (seen + names[..i + 1])[..|seen| + i] == seen + names[..i];
      if names[i] !in trials {
        trials := trials + [names[i]];
      }
    }
    assert names[..|names|] == names;
  }

  method CandidateTrials(fuel: seq<Row>, cal: Calendar) returns (trials: seq<string>)
    ensures trials == Candidates(fuel, cal)
  {
    trials := [];
    for i := 0 to |fuel|
      invariant trials == Candidates(fuel[..i], cal)
    {
      assert fuel[..i + 1][..i] == fuel[..i];
      trials := AddRow(trials, fuel[i], cal, AllNamed(fuel[..i], cal));
    }
    assert fuel[..|fuel|] == fuel;
  }

  method AddRow(before: seq<string>, row: Row, cal: Calendar, ghost seen: seq<string>) returns (trials: seq<string>)
    requires before == FirstOccurrences(seen)
    ensures trials == FirstOccurrences(seen + NamedBy(row, cal))
  {
    trials := AddNew(before, MirrorTrials(row), seen);
    trials := AddDays(trials, Around(Day(row.ts)), cal, seen + MirrorTrials(row));
    assert seen + NamedBy(row, cal) == seen + MirrorTrials(row) + DayTrials(CONSEQUENCE_TRIAL_CLASS, Around(Day(row.ts)), cal);
  }

  method AddDays(before: seq<string>, days: seq<int>, cal: Calendar, ghost seen: seq<string>) returns (trials: seq<string>)
    requires before == FirstOccurrences(seen)
    ensures trials == FirstOccurrences(seen + DayTrials(CONSEQUENCE_TRIAL_CLASS, days, cal))
  {
    trials := before;
    ghost var all := seen;
    for k := 0 to |days|
      invariant all == seen + DayTrials(CONSEQUENCE_TRIAL_CLASS, days[..k], cal)
      invariant trials == FirstOccurrences(all)
    {
      var segments := SegmentTrials(CONSEQUENCE_TRIAL_CLASS, cal(days[k]));
      trials := AddNew(trials, segments, all);
      OneMoreDay(seen, days, k, cal);
      all := all + segments;
    }
    assert days[..|days|] == days;
  }

  lemma OneMoreDay(seen: seq<string>, days: seq<int>, k: nat, cal: Calendar)
    requires k < |days|
    ensures seen + DayTrials(CONSEQUENCE_TRIAL_CLASS, days[..k], cal) + Segments(CONSEQUENCE_TRIAL_CLASS, cal(days[k]), MAX_CHAIN_SEGMENTS)
            == seen + DayTrials(CONSEQUENCE_TRIAL_CLASS, days[..k + 1], cal)
  {
    assert days[..k + 1][..k] == days[..k];
  }

  method RecomputeDayTrials(fuel: seq<Row>, since: Instant, now: Instant, cal: Calendar) returns (trials: seq<string>)
    ensures trials == RecomputeTrials(fuel, since, now, cal)
  {
    trials := [];
    if fuel == [] {
      return;
    }
    var days := WindowDays(Some(since), now);
    for i := 0 to |days|
      invariant trials == DayTrials(RECOMPUTE_TRIAL_CLASS, days[..i], cal)
    {
      assert days[..i + 1][..i] == days[..i];
      var segments := SegmentTrials(RECOMPUTE_TRIAL_CLASS, cal(days[i]));
      trials := trials + segments;
    }
    assert days[..|days|] == days;
  }

  // ----- what is read

  lemma {:induction false} SegmentsHave(cls: string, day: string, n: nat, trial: string)
    requires n <= MAX_CHAIN_SEGMENTS
    ensures trial in Segments(cls, day, n) <==> exists segment: nat :: segment < n && trial == TrialId(cls, segment, day)
  {
    if n > 0 {
      SegmentsHave(cls, day, n - 1, trial);
      assert trial in Segments(cls, day, n) <==> trial in Segments(cls, day, n - 1) || trial == TrialId(cls, n - 1, day);
    }
  }

  lemma {:induction false} DayTrialsHave(cls: string, days: seq<int>, cal: Calendar, trial: string)
    ensures trial in DayTrials(cls, days, cal) <==>
              exists day, segment: nat :: day in days && segment < MAX_CHAIN_SEGMENTS && trial == TrialId(cls, segment, cal(day))
    decreases |days|
  {
    if days != [] {
      var before, last := days[..|days| - 1], days[|days| - 1];
      DayTrialsHave(cls, before, cal, trial);
      SegmentsHave(cls, cal(last), MAX_CHAIN_SEGMENTS, trial);
      assert forall day :: day in days <==> day in before || day == last;
    }
  }

  lemma {:induction false} AllNamedHas(fuel: seq<Row>, cal: Calendar, trial: string)
    ensures trial in AllNamed(fuel, cal) <==> exists row :: row in fuel && trial in NamedBy(row, cal)
    decreases |fuel|
  {
    if fuel != [] {
      var before, last := fuel[..|fuel| - 1], fuel[|fuel| - 1];
      AllNamedHas(before, cal, trial);
      assert forall row :: row in fuel <==> row in before || row == last;
    }
  }

  ghost predicate NearSegment(row: Row, cal: Calendar, trial: string) {
    exists day, segment: nat ::
      Day(row.ts) - 1 <= day <= Day(row.ts) + 1 && segment < MAX_CHAIN_SEGMENTS
      && trial == TrialId(CONSEQUENCE_TRIAL_CLASS, segment, cal(day))
  }

  /** Some fuel row claims the trial, or it is a consequence segment within a day
      of one. */
  ghost predicate Near(fuel: seq<Row>, cal: Calendar, trial: string) {
    exists row :: row in fuel && (trial in MirrorTrials(row) || NearSegment(row, cal, trial))
  }

  lemma NamedByExactly(row: Row, cal: Calendar, trial: string)
    ensures trial in NamedBy(row, cal) <==> trial in MirrorTrials(row) || NearSegment(row, cal, trial)
  {
    var days := Around(Day(row.ts));
    DayTrialsHave(CONSEQUENCE_TRIAL_CLASS, days, cal, trial);
    assert forall day :: day in days <==> Day(row.ts) - 1 <= day <= Day(row.ts) + 1;
  }

  lemma CandidatesExactly(fuel: seq<Row>, cal: Calendar, trial: string)
    ensures trial in Candidates(fuel, cal) <==> Near(fuel, cal, trial)
  {
    FirstOccurrencesKeep(AllNamed(fuel, cal));
    AllNamedHas(fuel, cal, trial);
    if trial in AllNamed(fuel, cal) {
      var row :| row in fuel && trial in NamedBy(row, cal);
      NamedByExactly(row, cal, trial);
    }
    if row :| row in fuel && (trial in MirrorTrials(row) || NearSegment(row, cal, trial)) {
      NamedByExactly(row, cal, trial);
    }
  }

  /** Recompute verdicts are searched for in every segment of every window day,
      once there is a fuel row at all. */
  lemma RecomputeTrialsExactly(fuel: seq<Row>, since: Instant, now: Instant, cal: Calendar, trial: string)
    ensures trial in RecomputeTrials(fuel, since, now, cal) <==>
              fuel != [] && exists day, segment: nat ::
                InWindow(Some(since), now, day) && segment < MAX_CHAIN_SEGMENTS
                && trial == TrialId(RECOMPUTE_TRIAL_CLASS, segment, cal(day))
  {
    if fuel != [] {
      DayTrialsHave(RECOMPUTE_TRIAL_CLASS, Days(Some(since), now), cal, trial);
    }
  }
}
