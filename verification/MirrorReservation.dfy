/** One process's view of the day trials: how many receipts it has observed in
    each, and which chain segment it currently writes to. */
module MirrorReservation {
  import opened Options
  import opened TrialNames

  const MAX_MIRROR_EVENTS_PER_TRIAL: nat := 500

  datatype DayClass = DayClass(cls: string, day: string)

  datatype Memory = Memory(counts: map<string, nat>, segments: map<DayClass, nat>)

  const FRESH := Memory(map[], map[])

  function Count(m: Memory, trial: string): nat {
    if trial in m.counts then m.counts[trial] else 0
  }

  function Segment(m: Memory, key: DayClass): nat {
    if key in m.segments then m.segments[key] else 0
  }

  predicate Full(m: Memory, key: DayClass, segment: nat)
    requires segment < MAX_CHAIN_SEGMENTS
  {
    Count(m, TrialId(key.cls, segment, key.day)) >= MAX_MIRROR_EVENTS_PER_TRIAL
  }

  /** The first segment, from `segment` on, that this process has not seen full;
      MAX_CHAIN_SEGMENTS when there is none. */
  function FirstOpen(m: Memory, key: DayClass, segment: nat): (r: nat)
    requires segment <= MAX_CHAIN_SEGMENTS
    ensures segment <= r <= MAX_CHAIN_SEGMENTS
    ensures forall s: nat | segment <= s < r :: Full(m, key, s)
    ensures r < MAX_CHAIN_SEGMENTS ==> !Full(m, key, r)
    decreases MAX_CHAIN_SEGMENTS - segment
  {
    if segment == MAX_CHAIN_SEGMENTS || !Full(m, key, segment) then segment
    else FirstOpen(m, key, segment + 1)
  }

  /** Pointers stay in range and every segment a pointer has left behind has been
      seen full. */
  ghost predicate Valid(m: Memory) {
    forall key | key in m.segments ::
      m.segments[key] <= MAX_CHAIN_SEGMENTS
      && forall s: nat | s < m.segments[key] :: Full(m, key, s)
  }

  function Reserve(m: Memory, key: DayClass): (r: (Memory, Option<string>))
    requires Valid(m)
    ensures Valid(r.0) && r.0.counts == m.counts
    ensures Segment(m, key) <= Segment(r.0, key) == FirstOpen(m, key, 0)
    ensures forall other | other != key :: Segment(r.0, other) == Segment(m, other)
    ensures r.1.Some? <==> exists s: nat | s < MAX_CHAIN_SEGMENTS :: !Full(m, key, s)
    ensures r.1.Some? ==> Count(m, r.1.value) < MAX_MIRROR_EVENTS_PER_TRIAL
    ensures r.1.Some? ==> r.1.value == TrialId(key.cls, FirstOpen(m, key, 0), key.day)
  {
    var s := FirstOpen(m, key, Segment(m, key));
    OpenFromPointer(m, key);
    var m' := m.(segments := m.segments[key := s]);
    assert forall k, t: nat | t < MAX_CHAIN_SEGMENTS :: Full(m', k, t) == Full(m, k, t);
    (m', if s < MAX_CHAIN_SEGMENTS then Some(TrialId(key.cls, s, key.day)) else None)
  }

  /** Starting the scan at the pointer instead of at segment 0 skips nothing. */
  lemma OpenFromPointer(m: Memory, key: DayClass)
    requires Valid(m)
    ensures Segment(m, key) <= MAX_CHAIN_SEGMENTS
    ensures FirstOpen(m, key, Segment(m, key)) == FirstOpen(m, key, 0)
  {
    var p, q := FirstOpen(m, key, Segment(m, key)), FirstOpen(m, key, 0);
    assert forall s: nat | s < p :: Full(m, key, s);
    assert forall s: nat | s < q :: Full(m, key, s);
  }

  /** A sequence above the observed count replaces it; anything else, an
      out-of-order or an unusable sequence alike, counts as one more receipt. */
  function Noted(previous: nat, sequence: Option<int>): (r: nat)
    ensures r > previous
    ensures sequence.Some? ==> r >= sequence.value
    ensures r == previous + 1 || (sequence.Some? && r == sequence.value)
  {
    if sequence.Some? && sequence.value > previous then sequence.value else previous + 1
  }

  function Note(m: Memory, trial: string, sequence: Option<int>): (r: Memory)
    requires Valid(m)
    ensures Valid(r) && r.segments == m.segments
    ensures Count(r, trial) == Noted(Count(m, trial), sequence)
    ensures forall other | other != trial :: Count(r, other) == Count(m, other)
  {
    var r := m.(counts := m.counts[trial := Noted(Count(m, trial), sequence)]);
    assert forall k, s: nat | s < MAX_CHAIN_SEGMENTS && Full(m, k, s) :: Full(r, k, s);
    r
  }

  /** The module state of one process. Each method is one critical section of
      the module lock. */
  class Process {
    var counts: map<string, nat>
    var segments: map<DayClass, nat>

    ghost function State(): Memory
      reads this
    {
      Memory(counts, segments)
    }

    constructor ()
      ensures State() == FRESH && Valid(State())
    {
      counts, segments := map[], map[];
    }

    /** None when every segment of the day has been seen full. */
    method ReserveSlot(cls: string, day: string) returns (slot: Option<string>)
      requires Valid(State())
      modifies this
      ensures Valid(State())
      ensures (State(), slot) == Reserve(old(State()), DayClass(cls, day))
    {
      var key := DayClass(cls, day);
      ghost var before := State();
      OpenFromPointer(before, key);
      var segment := if key in segments then segments[key] else 0;
      while segment < MAX_CHAIN_SEGMENTS
        invariant segment <= MAX_CHAIN_SEGMENTS
        invariant State() == before
        invariant FirstOpen(before, key, segment) == FirstOpen(before, key, Segment(before, key))
      {
        var trial := TrialId(cls, segment, day);
        if (if trial in counts then counts[trial] else 0) < MAX_MIRROR_EVENTS_PER_TRIAL {
          segments := segments[key := segment];
          assert State() == Reserve(before, key).0;
          return Some(trial);
        }
        segment := segment + 1;
      }
      segments := segments[key := segment];
      assert State() == Reserve(before, key).0;
      slot := None;
    }

    method NoteSequence(trial: string, sequence: Option<int>)
      requires Valid(State())
      modifies this
      ensures Valid(State()) && State() == Note(old(State()), trial, sequence)
    {
      var previous := if trial in counts then counts[trial] else 0;
      if sequence.Some? && sequence.value > previous {
        counts := counts[trial := sequence.value];
      } else {
        counts := counts[trial := previous + 1];
      }
      assert State().counts == Note(old(State()), trial, sequence).counts;
    }
  }
}
