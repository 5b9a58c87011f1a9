/** The day range a recompute run scans for what earlier runs recorded. */
module RecomputeWindow {
  import opened Options
  import opened EvidencePlane

  const MAX_SCAN_DAYS: nat := 400

  function End(now: Instant): Instant {
    now + SECONDS_PER_DAY
  }

  /** The start `since` asks for: midnight of the day before its own. */
  function Asked(since: Instant): Instant {
    (Day(since) - 1) * SECONDS_PER_DAY
  }

  /** Whether the asked start would make the scan longer than it may be. */
  predicate TooLong(since: Instant, now: Instant) {
    Day(End(now) - Asked(since)) > MAX_SCAN_DAYS
  }

  /** `since` is None when its text names no day. */
  function Start(since: Option<Instant>, now: Instant): Instant {
    if since.None? || TooLong(since.value, now) then End(now) - MAX_SCAN_DAYS * SECONDS_PER_DAY
    else Asked(since.value)
  }

  predicate InWindow(since: Option<Instant>, now: Instant, day: int) {
    Day(Start(since, now)) <= day <= Day(End(now))
  }

  /** The days from `first` to `last`, both taken in. */
  function DayRange(first: int, last: int): (days: seq<int>)
    ensures forall day :: day in days <==> first <= day <= last
    decreases last - first + 1
  {
    if last < first then [] else DayRange(first, last - 1) + [last]
  }

  function Days(since: Option<Instant>, now: Instant): seq<int> {
    DayRange(Day(Start(since, now)), Day(End(now)))
  }

  method WindowDays(since: Option<Instant>, now: Instant) returns (days: seq<int>)
    ensures days == Days(since, now)
    ensures forall i, j | 0 <= i < j < |days| :: days[i] < days[j]
    ensures forall day :: day in days <==> InWindow(since, now, day)
    ensures since.None? || TooLong(since.value, now) ==> |days| == MAX_SCAN_DAYS + 1
  {
    var end := now + SECONDS_PER_DAY;
    var start := end - MAX_SCAN_DAYS * SECONDS_PER_DAY;
    if since.Some? {
      var asked := (since.value / SECONDS_PER_DAY) * SECONDS_PER_DAY - SECONDS_PER_DAY;
      if (end - asked) / SECONDS_PER_DAY <= MAX_SCAN_DAYS {
        start := asked;
      }
    }
    assert start == Start(since, now);
    days := [];
    var cursor := start;
    while Day(cursor) <= Day(end)
      invariant Day(cursor) == Day(start) + |days|
      invariant |days| > 0 ==> Day(cursor) - 1 <= Day(end)
      invariant forall i | 0 <= i < |days| :: days[i] == Day(start) + i
      invariant days == DayRange(Day(start), Day(cursor) - 1)
      decreases Day(end) - Day(cursor)
    {
      days := days + [Day(cursor)];
      cursor := cursor + SECONDS_PER_DAY;
    }
    forall day | InWindow(since, now, day) ensures day in days {
      assert days[day - Day(start)] == day;
    }
  }

  /** The window, day by day: from the day before `since` to the day after `now`, or, when
      that is more than 400 days or `since` names no day, the 401 days up to it. */
  lemma WindowExactly(since: Option<Instant>, now: Instant, day: int)
    ensures var last := Day(now) + 1;
            var first := if since.None? || last - (Day(since.value) - 1) > 400 then last - 400 else Day(since.value) - 1;
            InWindow(since, now, day) <==> first <= day <= last
  {
  }

  /** A day is scanned exactly when it is not before the start: the window always
      reaches past the present. */
  lemma CoversPast(since: Option<Instant>, now: Instant, then_: Instant)
    requires then_ <= now
    ensures InWindow(since, now, Day(then_)) <==> Day(Start(since, now)) <= Day(then_)
    ensures since.Some? && !TooLong(since.value, now) && since.value <= then_ ==> InWindow(since, now, Day(then_))
  {
  }
}
