/** Sequences of recompute runs: when a claim is recorded at most once, and
    exactly when it is recorded again. */
module RecomputeRuns {
  import opened Options
  import opened EvidencePlane
  import opened RecomputeWindow
  import opened RecomputeRecording
  import opened TrialNames

  /** Recording the targets from `i` on. */
  function RecordRest(r: Run, c: Check, i: nat): (r': Run)
    requires r.segment <= MAX_CHAIN_SEGMENTS && i <= |c.targets|
    decreases |c.targets| - i
  {
    if i == |c.targets| then r
    else
      var next := Record(r, c.available, Day(c.now), c.targets[i], c.attempts(i));
      RecordKeepsSegment(r, c.available, Day(c.now), c.targets[i], c.attempts(i));
      RecordRest(next, c, i + 1)
  }

  lemma {:induction false} RecordFromKeepsSegment(r: Run, today: int, t: Target, attempt: nat -> Attempt)
    requires r.segment <= MAX_CHAIN_SEGMENTS
    ensures RecordFrom(r, today, t, attempt).segment <= MAX_CHAIN_SEGMENTS
    decreases MAX_CHAIN_SEGMENTS - r.segment
  {
    if r.segment < MAX_CHAIN_SEGMENTS && attempt(r.segment).CapReached? {
      RecordFromKeepsSegment(r.(segment := r.segment + 1), today, t, attempt);
    }
  }

  lemma RecordKeepsSegment(r: Run, available: bool, today: int, t: Target, attempt: nat -> Attempt)
    requires r.segment <= MAX_CHAIN_SEGMENTS
    ensures Record(r, available, today, t, attempt).segment <= MAX_CHAIN_SEGMENTS
  {
    RecordFromKeepsSegment(r, today, t, attempt);
  }

  ghost function StartOf(trials: Trials, c: Check): Run {
    Run(trials, Existing(c, trials), 0, Counts(0, 0, 0, 0, 0))
  }

  ghost function RunOf(trials: Trials, c: Check): Run {
    if c.record then RecordRest(StartOf(trials, c), c, 0) else StartOf(trials, c)
  }

  method RecordAll(c: Check, trials: Trials) returns (after: Trials, counts: Counts)
    ensures after == RunOf(trials, c).trials && counts == RunOf(trials, c).counts
  {
    if !c.record || c.targets == [] {
      return trials, Counts(0, 0, 0, 0, 0);
    }
    var existing := ExistingClaims(c, trials);
    var rec := new Recording(trials, existing);
    for i := 0 to |c.targets|
      invariant rec.segment <= MAX_CHAIN_SEGMENTS
      invariant RecordRest(rec.State(), c, i) == RunOf(trials, c)
    {
      var _ := rec.RecordTarget(c.available, Day(c.now), c.targets[i], c.attempts(i));
    }
    return rec.trials, rec.counts;
  }

  // ----- which counter

  /** The recorder's first answer, from `segment` on, that is not a full segment. */
  predicate Settles(segment: nat, attempt: nat -> Attempt, at: nat) {
    segment <= at <= MAX_CHAIN_SEGMENTS && (forall s: nat | segment <= s < at :: attempt(s) == CapReached)
    && (at < MAX_CHAIN_SEGMENTS ==> attempt(at) != CapReached)
  }

  /** What one recording does, by that answer: a landed append is recorded there, a
      purged trial is skipped, any other failure and running out of segments fail;
      every counter but that one, and all else, stays. */
  lemma {:induction false} RecordFromExactly(r: Run, today: int, t: Target, attempt: nat -> Attempt, at: nat)
    requires r.segment <= MAX_CHAIN_SEGMENTS && Settles(r.segment, attempt, at)
    ensures var r', c := RecordFrom(r, today, t, attempt), r.counts;
            && r'.segment == at
            && (if at < MAX_CHAIN_SEGMENTS && attempt(at).Landed?
                then && r'.counts == c.(recorded := c.recorded + 1) && r'.existing == r.existing + {t.claimSha}
                     && r'.trials == Appended(r.trials, at, today, t, attempt(at).id)
                else && r'.trials == r.trials && r'.existing == r.existing
                     && r'.counts == if at < MAX_CHAIN_SEGMENTS && attempt(at) == TrialPurged
                                     then c.(skippedPurged := c.skippedPurged + 1)
                                     else c.(failures := c.failures + 1))
    decreases MAX_CHAIN_SEGMENTS - r.segment
  {
    if r.segment < at {
      RecordFromExactly(r.(segment := r.segment + 1), today, t, attempt, at);
    }
  }

  /** Without a store a target is only counted as such, a known claim as a repeat. */
  lemma RecordExactly(r: Run, available: bool, today: int, t: Target, attempt: nat -> Attempt)
    requires r.segment <= MAX_CHAIN_SEGMENTS
    ensures var r', c := Record(r, available, today, t, attempt), r.counts;
            && (!available ==> r' == r.(counts := c.(unavailable := c.unavailable + 1)))
            && (available && t.claimSha in r.existing ==> r' == r.(counts := c.(skippedExisting := c.skippedExisting + 1)))
            && (available && t.claimSha !in r.existing ==> r' == RecordFrom(r, today, t, attempt))
  {
  }

  /** A recorded event says what its target says. */
  lemma EventSaysItsTarget(trials: Trials, segment: nat, today: int, t: Target, id: string)
    ensures var key := TrialKey("recompute", segment, today);
            var events := EventsOf(Appended(trials, segment, today, t, id), key);
            var e := events[|events| - 1];
            && events[..|events| - 1] == EventsOf(trials, key) && e.id == id
            && Detail(e, "action") == Some("recompute_verification")
            && Detail(e, "agreement") == Some(t.agreement) && Detail(e, "claim_sha256") == Some(t.claimSha)
            && forall name | name in t.details && name !in {"action", "agreement", "claim_sha256"} :: Detail(e, name) == Some(t.details[name])
    ensures forall other | other != TrialKey("recompute", segment, today) ::
              EventsOf(Appended(trials, segment, today, t, id), other) == EventsOf(trials, other)
  {
  }

  // ----- conservation

  lemma {:induction false} RecordFromCountsOne(r: Run, today: int, t: Target, attempt: nat -> Attempt)
    requires r.segment <= MAX_CHAIN_SEGMENTS
    ensures Total(RecordFrom(r, today, t, attempt).counts) == Total(r.counts) + 1
    decreases MAX_CHAIN_SEGMENTS - r.segment
  {
    if r.segment < MAX_CHAIN_SEGMENTS && attempt(r.segment).CapReached? {
      RecordFromCountsOne(r.(segment := r.segment + 1), today, t, attempt);
    }
  }

  lemma {:induction false} RestCounts(r: Run, c: Check, i: nat)
    requires r.segment <= MAX_CHAIN_SEGMENTS && i <= |c.targets|
    ensures Total(RecordRest(r, c, i).counts) == Total(r.counts) + |c.targets| - i
    decreases |c.targets| - i
  {
    if i < |c.targets| {
      RecordKeepsSegment(r, c.available, Day(c.now), c.targets[i], c.attempts(i));
      RecordFromCountsOne(r, Day(c.now), c.targets[i], c.attempts(i));
      RestCounts(Record(r, c.available, Day(c.now), c.targets[i], c.attempts(i)), c, i + 1);
    }
  }

  /** Every target of a run that records lands in exactly one recording counter. */
  lemma EveryTargetCounted(trials: Trials, c: Check)
    ensures Total(RunOf(trials, c).counts) == if c.record then |c.targets| else 0
  {
    RestCounts(StartOf(trials, c), c, 0);
  }

  // ----- at most once

  /** Where the events recorded for a claim stand. */
  ghost function Places(trials: Trials, sha: string): set<(TrialKey, nat)> {
    set key, i: nat | key in trials && 0 <= i < |trials[key]| && ClaimOf(trials[key][i]) == sha :: (key, i)
  }

  ghost predicate OnDay(place: (TrialKey, nat), day: int) {
    place.0.cls == TRIAL_CLASS && place.0.segment < MAX_CHAIN_SEGMENTS && place.0.day == day
  }

  lemma AppendedPlaces(trials: Trials, segment: nat, today: int, t: Target, id: string, sha: string)
    ensures var key := TrialKey(TRIAL_CLASS, segment, today);
            && (key, |EventsOf(trials, key)|) !in Places(trials, sha)
            && Places(Appended(trials, segment, today, t, id), sha)
               == Places(trials, sha) + (if t.claimSha == sha then {(key, |EventsOf(trials, key)|)} else {})
  {
    var key := TrialKey(TRIAL_CLASS, segment, today);
    var after := Appended(trials, segment, today, t, id);
    assert ClaimOf(after[key][|EventsOf(trials, key)|]) == t.claimSha;
    forall place ensures place in Places(after, sha) <==>
        place in Places(trials, sha) || (t.claimSha == sha && place == (key, |EventsOf(trials, key)|)) {
      var (k, i) := place;
      if k in trials && i < |trials[k]| {
        assert k in after && after[k][i] == trials[k][i];
      }
    }
  }

  /** The claim gained one place on `day`, or none when `one` does not hold. */
  ghost predicate Gained(before: Trials, after: Trials, day: int, one: bool, sha: string) {
    if one then exists place :: OnDay(place, day) && place !in Places(before, sha) && Places(after, sha) == Places(before, sha) + {place}
    else Places(after, sha) == Places(before, sha)
  }

  /** Whether the recorder takes an append, asked from `segment` on. */
  predicate Lands(segment: nat, attempt: nat -> Attempt)
    requires segment <= MAX_CHAIN_SEGMENTS
    decreases MAX_CHAIN_SEGMENTS - segment
  {
    segment < MAX_CHAIN_SEGMENTS
    && match attempt(segment)
       case Landed(_) => true
       case CapReached => Lands(segment + 1, attempt)
       case _ => false
  }

  /** What one recording does to the places of a claim. */
  lemma {:induction false} RecordFromPlaces(r: Run, today: int, t: Target, attempt: nat -> Attempt, sha: string)
    requires r.segment <= MAX_CHAIN_SEGMENTS
    ensures var r' := RecordFrom(r, today, t, attempt);
            if Lands(r.segment, attempt)
            then r'.existing == r.existing + {t.claimSha} && Gained(r.trials, r'.trials, today, t.claimSha == sha, sha)
            else r'.existing == r.existing && r'.trials == r.trials
    decreases MAX_CHAIN_SEGMENTS - r.segment
  {
    if r.segment < MAX_CHAIN_SEGMENTS {
      match attempt(r.segment)
      case Landed(id) =>
        AppendedPlaces(r.trials, r.segment, today, t, id, sha);
        var key := TrialKey(TRIAL_CLASS, r.segment, today);
        assert OnDay((key, |EventsOf(r.trials, key)|), today);
      case CapReached => RecordFromPlaces(r.(segment := r.segment + 1), today, t, attempt, sha);
      case TrialPurged =>
      case OtherFailure =>
    }
  }

  /** A claim already known to the run gains no event. */
  lemma {:induction false} KnownStays(r: Run, c: Check, i: nat, sha: string)
    requires r.segment <= MAX_CHAIN_SEGMENTS && i <= |c.targets|
    requires sha in r.existing || forall j | i <= j < |c.targets| :: c.targets[j].claimSha != sha
    ensures Places(RecordRest(r, c, i).trials, sha) == Places(r.trials, sha)
    decreases |c.targets| - i
  {
    if i < |c.targets| {
      RecordKeepsSegment(r, c.available, Day(c.now), c.targets[i], c.attempts(i));
      RecordFromPlaces(r, Day(c.now), c.targets[i], c.attempts(i), sha);
      KnownStays(Record(r, c.available, Day(c.now), c.targets[i], c.attempts(i)), c, i + 1, sha);
    }
  }

  /** Whether the recorder takes an append for the claim, from target `i` on. */
  ghost predicate LandsFrom(r: Run, c: Check, i: nat, sha: string)
    requires r.segment <= MAX_CHAIN_SEGMENTS && i <= |c.targets|
    decreases |c.targets| - i
  {
    i < |c.targets| &&
    var next := Record(r, c.available, Day(c.now), c.targets[i], c.attempts(i));
    RecordKeepsSegment(r, c.available, Day(c.now), c.targets[i], c.attempts(i));
    || (c.targets[i].claimSha == sha && Lands(r.segment, c.attempts(i)))
    || LandsFrom(next, c, i + 1, sha)
  }

  /** A claim unknown to the run gains one event, on the run's day, exactly when
      the recorder takes one for it. */
  lemma {:induction false} UnknownOnce(r: Run, c: Check, i: nat, sha: string)
    requires r.segment <= MAX_CHAIN_SEGMENTS && i <= |c.targets| && c.available && sha !in r.existing
    ensures Gained(r.trials, RecordRest(r, c, i).trials, Day(c.now), LandsFrom(r, c, i, sha), sha)
    decreases |c.targets| - i
  {
    if i < |c.targets| {
      var t := c.targets[i];
      var next := Record(r, c.available, Day(c.now), t, c.attempts(i));
      RecordKeepsSegment(r, c.available, Day(c.now), t, c.attempts(i));
      RecordFromPlaces(r, Day(c.now), t, c.attempts(i), sha);
      if t.claimSha == sha && Lands(r.segment, c.attempts(i)) {
        KnownStays(next, c, i + 1, sha);
      } else {
        UnknownOnce(next, c, i + 1, sha);
      }
    }
  }

  ghost predicate Targets(c: Check, sha: string) {
    exists i :: 0 <= i < |c.targets| && c.targets[i].claimSha == sha
  }

  /** The run reads back every trial a run at `then_` could have recorded into. */
  ghost predicate Remembers(c: Check, then_: Instant) {
    forall segment: nat | segment < MAX_CHAIN_SEGMENTS :: Scanned(c, TrialKey(TRIAL_CLASS, segment, Day(then_)))
  }

  /** The claim was recorded once, by a run at `at`, or never. */
  ghost predicate RecordedAt(trials: Trials, sha: string, at: Option<Instant>) {
    match at
    case None => Places(trials, sha) == {}
    case Some(t) => exists place :: OnDay(place, Day(t)) && Places(trials, sha) == {place}
  }

  ghost function NextAt(trials: Trials, c: Check, sha: string, at: Option<Instant>): Option<Instant>
  {
    if at.None? && Places(RunOf(trials, c).trials, sha) != {} then Some(c.now) else at
  }

  lemma UnavailableRecordsNothing(r: Run, c: Check, i: nat)
    requires r.segment <= MAX_CHAIN_SEGMENTS && i <= |c.targets| && !c.available
    ensures RecordRest(r, c, i).trials == r.trials
    decreases |c.targets| - i
  {
    if i < |c.targets| {
      UnavailableRecordsNothing(Record(r, false, Day(c.now), c.targets[i], c.attempts(i)), c, i + 1);
    }
  }

  lemma KnownHasPlace(trials: Trials, c: Check, sha: string)
    ensures sha in Existing(c, trials) ==> Places(trials, sha) != {}
  {
    if sha in Existing(c, trials) {
      var key, i: nat :| key in trials && i < |trials[key]| && ClaimOf(trials[key][i]) == sha;
      assert (key, i) in Places(trials, sha);
    }
  }

  /** The trials a run scans: segments of recompute trials, on days of its window, that
      can be read. */
  lemma ScannedExactly(c: Check, key: TrialKey)
    ensures Scanned(c, key) <==>
              key.cls == "recompute" && key.segment < 6 && key !in c.unreadable && InWindow(c.since, c.now, key.day)
  {
  }

  /** The run reads back a trial that holds the claim. */
  ghost predicate ReadsBack(trials: Trials, c: Check, sha: string) {
    exists place :: place in Places(trials, sha) && Scanned(c, place.0)
  }

  /** A run knows a claim exactly when it reads back a trial that holds it. */
  lemma KnownExactly(trials: Trials, c: Check, sha: string)
    requires sha != "" && c.available
    ensures sha in Existing(c, trials) <==> ReadsBack(trials, c, sha)
  {
    if sha in Existing(c, trials) {
      var key, i: nat :| key in trials && i < |trials[key]| && Scanned(c, key) && ClaimOf(trials[key][i]) == sha;
      assert (key, i) in Places(trials, sha);
    }
  }

  lemma StepKeepsOnce(trials: Trials, c: Check, sha: string, at: Option<Instant>)
    requires sha != "" && RecordedAt(trials, sha, at)
    requires Targets(c, sha) && at.Some? ==> Remembers(c, at.value)
    ensures RecordedAt(RunOf(trials, c).trials, sha, NextAt(trials, c, sha, at))
  {
    var r := StartOf(trials, c);
    if !c.available {
      UnavailableRecordsNothing(r, c, 0);
    } else if at.None? {
      KnownHasPlace(trials, c, sha);
      UnknownOnce(r, c, 0, sha);
      if c.record && LandsFrom(r, c, 0, sha) {
        var place :| OnDay(place, Day(c.now)) && Places(RunOf(trials, c).trials, sha) == Places(trials, sha) + {place};
        assert Places(RunOf(trials, c).trials, sha) == {place};
      }
    } else {
      var place :| OnDay(place, Day(at.value)) && Places(trials, sha) == {place};
      if Targets(c, sha) {
        KnownExactly(trials, c, sha);
        assert place in Places(trials, sha);
        assert Scanned(c, place.0) by {
          assert place.0 == TrialKey(TRIAL_CLASS, place.0.segment, Day(at.value));
        }
      }
      KnownStays(r, c, 0, sha);
    }
  }

  ghost function RunAll(trials: Trials, cs: seq<Check>): Trials
    decreases |cs|
  {
    if cs == [] then trials else RunAll(RunOf(trials, cs[0]).trials, cs[1..])
  }

  /** Every run that targets the claim after it was recorded, at `at`, starts its
      window no later than the claim's own timestamp, which is not after `at`,
      asks for no longer a scan than it gets, and reads its trials back. */
  ghost predicate Timely(trials: Trials, cs: seq<Check>, sha: string, at: Option<Instant>)
    decreases |cs|
  {
    cs == [] ||
    var c := cs[0];
    && (forall i | 0 <= i < |c.targets| && c.targets[i].claimSha == sha && at.Some? ::
          && c.since.Some? && c.since.value <= c.targets[i].ts <= at.value <= c.now
          && !TooLong(c.since.value, c.now) && c.unreadable == {})
    && Timely(RunOf(trials, c).trials, cs[1..], sha, NextAt(trials, c, sha, at))
  }

  lemma {:induction false} RecordedOnceFrom(trials: Trials, cs: seq<Check>, sha: string, at: Option<Instant>)
    requires sha != "" && RecordedAt(trials, sha, at) && Timely(trials, cs, sha, at)
    ensures |Places(RunAll(trials, cs), sha)| <= 1
    decreases |cs|
  {
    if cs == [] {
      if at.Some? {
        var place :| OnDay(place, Day(at.value)) && Places(trials, sha) == {place};
      }
    } else {
      var c := cs[0];
      if Targets(c, sha) && at.Some? {
        CoversPast(c.since, c.now, at.value);
      }
      StepKeepsOnce(trials, c, sha, at);
      RecordedOnceFrom(RunOf(trials, c).trials, cs[1..], sha, NextAt(trials, c, sha, at));
    }
  }

  /** Over every sequence of runs from an empty plane, with appends failing or
      rolling over in any pattern: a claim is recorded at most once. */
  lemma RecordedAtMostOnce(cs: seq<Check>, sha: string)
    requires sha != "" && Timely(map[], cs, sha, None)
    ensures |Places(RunAll(map[], cs), sha)| <= 1
  {
    RecordedOnceFrom(map[], cs, sha, None);
  }

  // ----- exactly when a claim is recorded again

  /** The run records the claim: it records at all, reads back no trial that holds
      the claim, and the recorder takes an append for one of its targets. */
  ghost predicate Adds(trials: Trials, c: Check, sha: string) {
    c.record && c.available && !ReadsBack(trials, c, sha) && LandsFrom(StartOf(trials, c), c, 0, sha)
  }

  /** However often a claim already stands, a run records it once more exactly then. */
  lemma RecordedAgainExactly(trials: Trials, c: Check, sha: string)
    requires sha != ""
    ensures |Places(RunOf(trials, c).trials, sha)| == |Places(trials, sha)| + if Adds(trials, c, sha) then 1 else 0
  {
    var r := StartOf(trials, c);
    if !c.available {
      UnavailableRecordsNothing(r, c, 0);
    } else {
      KnownExactly(trials, c, sha);
      if ReadsBack(trials, c, sha) {
        KnownStays(r, c, 0, sha);
      } else {
        UnknownOnce(r, c, 0, sha);
      }
    }
  }

  /** How many of the runs record the claim. */
  ghost function TimesAdded(trials: Trials, cs: seq<Check>, sha: string): nat
    decreases |cs|
  {
    if cs == [] then 0
    else (if Adds(trials, cs[0], sha) then 1 else 0) + TimesAdded(RunOf(trials, cs[0]).trials, cs[1..], sha)
  }

  /** Over any sequence of runs, from any plane, a claim stands once more for each
      run that adds it and never otherwise. */
  lemma {:induction false} StandsAsOftenAsAdded(trials: Trials, cs: seq<Check>, sha: string)
    requires sha != ""
    ensures |Places(RunAll(trials, cs), sha)| == |Places(trials, sha)| + TimesAdded(trials, cs, sha)
    decreases |cs|
  {
    if cs != [] {
      RecordedAgainExactly(trials, cs[0], sha);
      StandsAsOftenAsAdded(RunOf(trials, cs[0]).trials, cs[1..], sha);
    }
  }

  /** A claim recorded by a run at `then_` is forgotten exactly when its trial cannot be
      read or the window starts after that day. */
  lemma ForgottenExactly(c: Check, place: (TrialKey, nat), then_: Instant)
    requires OnDay(place, Day(then_)) && then_ <= c.now
    ensures !Scanned(c, place.0) <==> place.0 in c.unreadable || Day(then_) < Day(Start(c.since, c.now))
  {
    CoversPast(c.since, c.now, then_);
  }

  /** The first record of a claim, when its append lands. */
  lemma FirstRecord(c: Check, sha: string)
    requires c.record && c.available && sha != ""
    requires |c.targets| == 1 && c.targets[0].claimSha == sha && c.attempts(0)(0).Landed?
    ensures exists place :: OnDay(place, Day(c.now)) && Places(RunOf(map[], c).trials, sha) == {place}
  {
    var r := StartOf(map[], c);
    assert Existing(c, map[]) == {};
    UnknownOnce(r, c, 0, sha);
    assert LandsFrom(r, c, 0, sha);
    assert Places(map[], sha) == {};
    var place :| OnDay(place, Day(c.now)) && Places(RunOf(map[], c).trials, sha) == Places(map[], sha) + {place};
    assert Places(RunOf(map[], c).trials, sha) == {place};
  }

  /** A claim dated after the run that recorded it can outlive its record: with
      the default horizon it is still a target when its record is out of scan. */
  lemma FutureDatedClaimRecordedTwice() returns (first: Check, second: Check, sha: string)
    ensures sha != "" && first.record && second.record
    ensures first.unreadable == second.unreadable == {} && first.now < second.now
    ensures first.since == Some(first.now - 14 * SECONDS_PER_DAY) && second.since == Some(second.now - 14 * SECONDS_PER_DAY)
    ensures |first.targets| == 1 && first.targets == second.targets && first.targets[0].ts > first.now
    ensures first.since.value <= first.targets[0].ts && second.since.value <= first.targets[0].ts
    ensures |Places(RunAll(map[], [first, second]), sha)| == 2
  {
    sha := "c";
    var t := Target(3 * SECONDS_PER_DAY, sha, "agree", map[]);
    var lands: nat -> nat -> Attempt := _ => _ => Landed("e");
    first := Check(0, Some(-14 * SECONDS_PER_DAY), true, true, [t], lands, {});
    second := Check(17 * SECONDS_PER_DAY, Some(3 * SECONDS_PER_DAY), true, true, [t], lands, {});
    FirstRecord(first, sha);
    var one := RunOf(map[], first).trials;
    var place :| OnDay(place, Day(first.now)) && Places(one, sha) == {place};
    ForgottenExactly(second, place, first.now);
    RecordedAgainExactly(one, second, sha);
    assert !ReadsBack(one, second, sha);
    assert LandsFrom(StartOf(one, second), second, 0, sha);
    TwoRuns(first, second);
  }

  lemma TwoRuns(first: Check, second: Check)
    ensures RunAll(map[], [first, second]) == RunOf(RunOf(map[], first).trials, second).trials
  {
    assert [first, second][1..] == [second] && [second][1..] == [];
    var one := RunOf(map[], first).trials;
    assert RunAll(one, [second]) == RunAll(RunOf(one, second).trials, []);
  }
}
