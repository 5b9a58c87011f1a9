/** Recording recompute verdicts: one event per claim, deduplicated against the
    scanned day trials, rolling over day segments. */
module RecomputeRecording {
  import opened Options
  import opened EvidencePlane
  import opened RecomputeWindow
  import opened TrialNames

  const ACTION := "recompute_verification"
  const TRIAL_CLASS := "recompute"

  /** `details` is everything but action, agreement and claim digest. */
  datatype Target = Target(ts: Instant, claimSha: string, agreement: string, details: map<string, string>)

  function DetailOf(t: Target): map<string, string> {
    t.details + map["action" := ACTION, "agreement" := t.agreement, "claim_sha256" := t.claimSha]
  }

  /** What the recorder does with one append. */
  datatype Attempt = Landed(id: string) | CapReached | TrialPurged | OtherFailure

  datatype Counts = Counts(recorded: nat, skippedExisting: nat, skippedPurged: nat, failures: nat, unavailable: nat)

  function Total(c: Counts): nat {
    c.recorded + c.skippedExisting + c.skippedPurged + c.failures + c.unavailable
  }

  type Trials = map<TrialKey, seq<Event>>

  function EventsOf(trials: Trials, key: TrialKey): seq<Event> {
    if key in trials then trials[key] else []
  }

  /** The claim digest a verification event carries; "" for any other event. */
  function ClaimOf(e: Event): string {
    if Detail(e, "action") == Some(ACTION) && Detail(e, "claim_sha256").Some? then Detail(e, "claim_sha256").value else ""
  }

  function Appended(trials: Trials, segment: nat, today: int, t: Target, id: string): Trials {
    var key := TrialKey(TRIAL_CLASS, segment, today);
    trials[key := EventsOf(trials, key) + [Event(id, "", "system", Some(DetailOf(t)))]]
  }

  datatype Run = Run(trials: Trials, existing: set<string>, segment: nat, counts: Counts)

  /** Recording from segment `r.segment` on; the answer of the recorder depends
      on the segment it is asked for. */
  function RecordFrom(r: Run, today: int, t: Target, attempt: nat -> Attempt): Run
    requires r.segment <= MAX_CHAIN_SEGMENTS
    decreases MAX_CHAIN_SEGMENTS - r.segment
  {
    if r.segment == MAX_CHAIN_SEGMENTS then r.(counts := r.counts.(failures := r.counts.failures + 1))
    else match attempt(r.segment)
      case Landed(id) =>
        Run(Appended(r.trials, r.segment, today, t, id), r.existing + {t.claimSha}, r.segment,
            r.counts.(recorded := r.counts.recorded + 1))
      case CapReached => RecordFrom(r.(segment := r.segment + 1), today, t, attempt)
      case TrialPurged => r.(counts := r.counts.(skippedPurged := r.counts.skippedPurged + 1))
      case OtherFailure => r.(counts := r.counts.(failures := r.counts.failures + 1))
  }

  function Record(r: Run, available: bool, today: int, t: Target, attempt: nat -> Attempt): Run
    requires r.segment <= MAX_CHAIN_SEGMENTS
  {
    if !available then r.(counts := r.counts.(unavailable := r.counts.unavailable + 1))
    else if t.claimSha in r.existing then r.(counts := r.counts.(skippedExisting := r.counts.skippedExisting + 1))
    else RecordFrom(r, today, t, attempt)
  }

  /** The mutable state one run of the check threads through its targets. */
  class Recording {
    var trials: Trials
    var existing: set<string>
    var segment: nat
    var counts: Counts

    ghost function State(): Run
      reads this
    {
      Run(trials, existing, segment, counts)
    }

    constructor (trials: Trials, existing: set<string>)
      ensures State() == Run(trials, existing, 0, Counts(0, 0, 0, 0, 0))
    {
      this.trials, this.existing, segment, counts := trials, existing, 0, Counts(0, 0, 0, 0, 0);
    }

    method RecordTarget(available: bool, today: int, t: Target, attempt: nat -> Attempt) returns (recorded: bool)
      requires segment <= MAX_CHAIN_SEGMENTS
      modifies this
      ensures segment <= MAX_CHAIN_SEGMENTS
      ensures State() == Record(old(State()), available, today, t, attempt)
      ensures recorded <==> counts.recorded == old(counts.recorded) + 1
    {
      ghost var before := State();
      if !available {
        counts := counts.(unavailable := counts.unavailable + 1);
        return false;
      }
      if t.claimSha in existing {
        counts := counts.(skippedExisting := counts.skippedExisting + 1);
        return false;
      }
      while segment < MAX_CHAIN_SEGMENTS
        invariant segment <= MAX_CHAIN_SEGMENTS
        invariant State() == before.(segment := segment)
        invariant RecordFrom(State(), today, t, attempt) == RecordFrom(before, today, t, attempt)
      {
        var answer := attempt(segment);
        match answer {
          case Landed(id) =>
            counts := counts.(recorded := counts.recorded + 1);
            existing := existing + {t.claimSha};
            trials := Appended(trials, segment, today, t, id);
            return true;
          case CapReached =>
            segment := segment + 1;
          case TrialPurged =>
            counts := counts.(skippedPurged := counts.skippedPurged + 1);
            return false;
          case OtherFailure =>
            counts := counts.(failures := counts.failures + 1);
            return false;
        }
      }
      counts := counts.(failures := counts.failures + 1);
      recorded := false;
    }
  }

  // ----- one run of the check

  /** `attempts(i)` is how the recorder answers for target i; `unreadable` are
      the trials whose events cannot be read back during this run; a run that
      does not `record` only derives and reports. */
  datatype Check = Check(
    now: Instant,
    since: Option<Instant>,
    record: bool,
    available: bool,
    targets: seq<Target>,
    attempts: nat -> nat -> Attempt,
    unreadable: set<TrialKey>)

  predicate Scanned(c: Check, key: TrialKey) {
    key.cls == TRIAL_CLASS && key.segment < MAX_CHAIN_SEGMENTS && InWindow(c.since, c.now, key.day)
    && key !in c.unreadable
  }

  /** The claim digests that the scanned trials already carry. */
  ghost function Existing(c: Check, trials: Trials): set<string> {
    if !c.available then {}
    else set key, i | key in trials && 0 <= i < |trials[key]| && Scanned(c, key) && ClaimOf(trials[key][i]) != "" :: ClaimOf(trials[key][i])
  }

  ghost function ClaimsIn(events: seq<Event>): set<string> {
    set e | e in events && ClaimOf(e) != "" :: ClaimOf(e)
  }

  method ExistingClaims(c: Check, trials: Trials) returns (existing: set<string>)
    ensures existing == Existing(c, trials)
  {
    existing := {};
    if !c.available {
      return;
    }
    var days := WindowDays(c.since, c.now);
    var keys := DayTrials(days);
    var k := 0;
    while k < |keys|
      invariant k <= |keys|
      invariant forall sha :: sha in existing <==> exists j ::
                    0 <= j < k && keys[j] !in c.unreadable && sha in ClaimsIn(EventsOf(trials, keys[j]))
    {
      if keys[k] !in c.unreadable {
        var found := ShasIn(EventsOf(trials, keys[k]));
        existing := existing + found;
      }
      k := k + 1;
    }
    forall sha ensures sha in existing <==> sha in Existing(c, trials) {
      if sha in existing {
        var j :| 0 <= j < k && keys[j] !in c.unreadable && sha in ClaimsIn(EventsOf(trials, keys[j]));
        assert keys[j] in keys && Scanned(c, keys[j]);
        var e :| e in EventsOf(trials, keys[j]) && ClaimOf(e) == sha;
        var i :| 0 <= i < |trials[keys[j]]| && trials[keys[j]][i] == e;
      }
      if sha in Existing(c, trials) {
        var key, i :| key in trials && 0 <= i < |trials[key]| && Scanned(c, key) && ClaimOf(trials[key][i]) == sha != "";
        assert key in keys && trials[key][i] in trials[key];
        var j :| 0 <= j < |keys| && keys[j] == key;
        assert sha in ClaimsIn(EventsOf(trials, keys[j]));
      }
    }
  }

  lemma OneMoreClaim(events: seq<Event>, e: Event)
    ensures ClaimsIn(events + [e]) == ClaimsIn(events) + (if ClaimOf(e) != "" then {ClaimOf(e)} else {})
  {
    assert forall x :: x in events + [e] <==> x in events || x == e;
  }

  method ShasIn(events: seq<Event>) returns (found: set<string>)
    ensures found == ClaimsIn(events)
  {
    found := {};
    for i := 0 to |events|
      invariant found == ClaimsIn(events[..i])
    {
      var sha := Detail(events[i], "claim_sha256");
      if Detail(events[i], "action") == Some(ACTION) && sha.Some? && sha.value != "" {
        found := found + {sha.value};
      }
      assert events[..i + 1] == events[..i] + [events[i]];
      OneMoreClaim(events[..i], events[i]);
    }
    assert events[..|events|] == events;
  }

  method DayTrials(days: seq<int>) returns (keys: seq<TrialKey>)
    ensures forall key :: key in keys <==> key.cls == TRIAL_CLASS && key.segment < MAX_CHAIN_SEGMENTS && key.day in days
  {
    keys := [];
    for d := 0 to |days|
      invariant forall key :: key in keys <==> key.cls == TRIAL_CLASS && key.segment < MAX_CHAIN_SEGMENTS && key.day in days[..d]
    {
      for s := 0 to MAX_CHAIN_SEGMENTS
        invariant forall key :: key in keys <==>
                    key.cls == TRIAL_CLASS && key.segment < MAX_CHAIN_SEGMENTS
                    && (key.day in days[..d] || (key.day == days[d] && key.segment < s))
      {
        keys := keys + [TrialKey(TRIAL_CLASS, s, days[d])];
      }
      assert days[..d + 1] == days[..d] + [days[d]];
    }
    assert days[..|days|] == days;
  }
}
