/** The broker's per-uid token bucket and what it bounds over whole runs. */
module RateLimiter {
  type Uid = int

  datatype Bucket = Bucket(tokens: real, last: real)

  datatype Rate = Rate(capacity: real, refill: real)

  /** Tokens `uid` would have at `now`; an unknown uid has a full bucket. */
  function Level(r: Rate, buckets: map<Uid, Bucket>, uid: Uid, now: real): real {
    if uid in buckets then Refilled(r, buckets[uid], now) else r.capacity
  }

  function Refilled(r: Rate, b: Bucket, now: real): real {
    Min(r.capacity, b.tokens + (now - b.last) * r.refill)
  }

  function Min(a: real, b: real): real {
    if a <= b then a else b
  }

  function Allow(r: Rate, buckets: map<Uid, Bucket>, uid: Uid, now: real): (map<Uid, Bucket>, bool) {
    var level := Level(r, buckets, uid, now);
    if level < 1.0 then (buckets[uid := Bucket(level, now)], false)
    else (buckets[uid := Bucket(level - 1.0, now)], true)
  }

  lemma FullStaysFull(r: Rate, now: real)
    ensures Refilled(r, Bucket(r.capacity, now), now) == r.capacity
  {
    var refill := r.refill;
    assert (now - now) * refill == 0.0;
  }

  class Limiter {
    const rate: Rate
    var buckets: map<Uid, Bucket>

    constructor (capacity: real, refill: real)
      ensures rate == Rate(capacity, refill) && buckets == map[]
    {
      rate := Rate(capacity, refill);
      buckets := map[];
    }

    method AllowAt(uid: Uid, now: real) returns (ok: bool)
      modifies this
      ensures (buckets, ok) == Allow(rate, old(buckets), uid, now)
    {
      var tokens, last := rate.capacity, now;
      if uid in buckets {
        tokens, last := buckets[uid].tokens, buckets[uid].last;
      }
      FullStaysFull(rate, now);
      tokens := Min(rate.capacity, tokens + (now - last) * rate.refill);
      assert tokens == Level(rate, buckets, uid, now);
      if tokens < 1.0 {
        buckets := buckets[uid := Bucket(tokens, now)];
        return false;
      }
      buckets := buckets[uid := Bucket(tokens - 1.0, now)];
      return true;
    }
  }

  /** A uid is allowed exactly when it has a whole token at the time: it then has one
      less, and otherwise keeps what it has; no other uid gains or loses anything. */
  lemma AllowsExactly(r: Rate, buckets: map<Uid, Bucket>, uid: Uid, now: real, other: Uid, then_: real)
    ensures var (next, ok) := Allow(r, buckets, uid, now);
            && (ok <==> Level(r, buckets, uid, now) >= 1.0)
            && next.Keys == buckets.Keys + {uid}
            && next[uid] == Bucket(Level(r, buckets, uid, now) - (if ok then 1.0 else 0.0), now)
            && (other != uid ==> Level(r, next, other, then_) == Level(r, buckets, other, then_))
  {
  }

  /** A uid never seen has a full bucket; one seen has what it was left with and what
      has flowed in since, up to the capacity. */
  lemma LevelExactly(r: Rate, buckets: map<Uid, Bucket>, uid: Uid, now: real)
    ensures uid !in buckets ==> Level(r, buckets, uid, now) == r.capacity
    ensures uid in buckets ==>
              var b, level := buckets[uid], Level(r, buckets, uid, now);
              var flowed := b.tokens + (now - b.last) * r.refill;
              level <= r.capacity && level <= flowed && (level == r.capacity || level == flowed)
  {
  }

  // ----- whole runs

  datatype Call = Call(uid: Uid, now: real)

  ghost predicate Sane(r: Rate) {
    r.capacity >= 0.0 && r.refill >= 0.0
  }

  /** Every bucket was last touched no later than `now` and holds between zero
      and `capacity` tokens. */
  ghost predicate Valid(r: Rate, buckets: map<Uid, Bucket>, now: real) {
    forall uid | uid in buckets ::
      0.0 <= buckets[uid].tokens <= r.capacity && buckets[uid].last <= now
  }

  ghost predicate Monotone(calls: seq<Call>, from: real) {
    (forall i | 0 <= i < |calls| :: from <= calls[i].now)
    && forall i, j | 0 <= i < j < |calls| :: calls[i].now <= calls[j].now
  }

  function After(r: Rate, buckets: map<Uid, Bucket>, calls: seq<Call>): map<Uid, Bucket>
    decreases |calls|
  {
    if calls == [] then buckets
    else After(r, Allow(r, buckets, calls[0].uid, calls[0].now).0, calls[1..])
  }

  /** The calls of `uid` among `calls` that are allowed. */
  function Allowed(r: Rate, buckets: map<Uid, Bucket>, calls: seq<Call>, uid: Uid): nat
    decreases |calls|
  {
    if calls == [] then 0
    else
      var (next, ok) := Allow(r, buckets, calls[0].uid, calls[0].now);
      (if ok && calls[0].uid == uid then 1 else 0) + Allowed(r, next, calls[1..], uid)
  }

  lemma Gain(dt: real, refill: real)
    requires 0.0 <= dt && 0.0 <= refill
    ensures 0.0 <= dt * refill
  {
  }

  /** What `refill` adds over adjacent spans adds up. */
  lemma Accrue(refill: real, t0: real, t1: real, t2: real)
    ensures (t2 - t0) * refill == (t2 - t1) * refill + (t1 - t0) * refill
  {
  }

  /** What a uid can have spent by `end`, starting from `level` at `start`. */
  function Budget(level: real, refill: real, start: real, end: real): real {
    level + (end - start) * refill
  }

  lemma BudgetGrows(level: real, more: real, refill: real, start: real, end: real)
    requires 0.0 <= refill && start <= end && level <= more
    ensures level <= Budget(level, refill, start, end) <= Budget(more, refill, start, end)
  {
    Gain(end - start, refill);
  }

  lemma Rises(capacity: real, tokens: real, refill: real, t0: real, t1: real, t2: real)
    requires 0.0 <= refill && 0.0 <= tokens <= capacity && t0 <= t1 <= t2
    ensures 0.0 <= Min(capacity, tokens + (t2 - t0) * refill)
    ensures Min(capacity, tokens + (t2 - t0) * refill) <= Budget(Min(capacity, tokens + (t1 - t0) * refill), refill, t1, t2)
    ensures Min(capacity, tokens + (t0 - t0) * refill) == tokens
  {
    var sofar, more, all := (t1 - t0) * refill, (t2 - t1) * refill, (t2 - t0) * refill;
    assert all == sofar + more by { Accrue(refill, t0, t1, t2); }
    assert sofar >= 0.0 by { Gain(t1 - t0, refill); }
    assert more >= 0.0 by { Gain(t2 - t1, refill); }
    assert (t0 - t0) * refill == 0.0;
  }

  lemma BucketRises(r: Rate, b: Bucket, t0: real, t1: real)
    requires Sane(r) && 0.0 <= b.tokens <= r.capacity && b.last <= t0 <= t1
    ensures 0.0 <= Refilled(r, b, t1) <= Budget(Refilled(r, b, t0), r.refill, t0, t1)
    ensures Refilled(r, b, b.last) == b.tokens
  {
    Rises(r.capacity, b.tokens, r.refill, b.last, t0, t1);
  }

  /** Between two instants a level rises by no more than the refill. */
  lemma LevelRises(r: Rate, buckets: map<Uid, Bucket>, uid: Uid, t0: real, t1: real)
    requires Sane(r) && Valid(r, buckets, t0) && t0 <= t1
    ensures 0.0 <= Level(r, buckets, uid, t1) <= r.capacity
    ensures Level(r, buckets, uid, t1) <= Budget(Level(r, buckets, uid, t0), r.refill, t0, t1)
  {
    if uid in buckets {
      BucketRises(r, buckets[uid], t0, t1);
    } else {
      BudgetGrows(r.capacity, r.capacity, r.refill, t0, t1);
    }
  }

  /** A call keeps every bucket in range and pays for itself. */
  lemma CallPays(r: Rate, buckets: map<Uid, Bucket>, c: Call, uid: Uid)
    requires Sane(r) && Valid(r, buckets, c.now)
    ensures var (next, ok) := Allow(r, buckets, c.uid, c.now);
            && Valid(r, next, c.now)
            && Level(r, next, uid, c.now) + (if ok && c.uid == uid then 1.0 else 0.0)
               == Level(r, buckets, uid, c.now)
  {
    LevelRises(r, buckets, c.uid, c.now, c.now);
    var (next, ok) := Allow(r, buckets, c.uid, c.now);
    BucketRises(r, next[c.uid], c.now, c.now);
  }

  lemma ValidLater(r: Rate, buckets: map<Uid, Bucket>, t0: real, t1: real)
    requires Valid(r, buckets, t0) && t0 <= t1
    ensures Valid(r, buckets, t1)
  {
  }

  lemma {:induction false} StaysValid(r: Rate, buckets: map<Uid, Bucket>, calls: seq<Call>, start: real, end: real)
    requires Sane(r) && Valid(r, buckets, start) && Monotone(calls, start) && start <= end
    requires forall i | 0 <= i < |calls| :: calls[i].now <= end
    ensures Valid(r, After(r, buckets, calls), end)
    decreases |calls|
  {
    if calls == [] {
      ValidLater(r, buckets, start, end);
    } else {
      ValidLater(r, buckets, start, calls[0].now);
      CallPays(r, buckets, calls[0], calls[0].uid);
      StaysValid(r, Allow(r, buckets, calls[0].uid, calls[0].now).0, calls[1..], calls[0].now, end);
    }
  }

  /** A step within budget leaves the budget of the rest of the run. */
  lemma Settle(paid: real, opening: real, between: real, refill: real, start: real, mid: real, end: real)
    requires between + paid <= Budget(opening, refill, start, mid)
    ensures Budget(between, refill, mid, end) + paid <= Budget(opening, refill, start, end)
  {
    Accrue(refill, start, mid, end);
  }

  /** Allowed calls never cost more than the opening level plus the refill. */
  lemma {:induction false} Ledger(r: Rate, buckets: map<Uid, Bucket>, calls: seq<Call>, uid: Uid, start: real, end: real)
    requires Sane(r) && Valid(r, buckets, start) && Monotone(calls, start) && start <= end
    requires forall i | 0 <= i < |calls| :: calls[i].now <= end
    ensures Allowed(r, buckets, calls, uid) as real <= Budget(Level(r, buckets, uid, start), r.refill, start, end)
    decreases |calls|
  {
    if calls == [] {
      LevelRises(r, buckets, uid, start, start);
      var level := Level(r, buckets, uid, start);
      BudgetGrows(level, level, r.refill, start, end);
    } else {
      var c := calls[0];
      var (next, ok) := Allow(r, buckets, c.uid, c.now);
      LedgerStep(r, buckets, c, uid, start);
      Ledger(r, next, calls[1..], uid, c.now, end);
      Settle(if ok && c.uid == uid then 1.0 else 0.0,
             Level(r, buckets, uid, start), Level(r, next, uid, c.now), r.refill, start, c.now, end);
    }
  }

  lemma LedgerStep(r: Rate, buckets: map<Uid, Bucket>, c: Call, uid: Uid, start: real)
    requires Sane(r) && Valid(r, buckets, start) && start <= c.now
    ensures var (next, ok) := Allow(r, buckets, c.uid, c.now);
            && Valid(r, next, c.now)
            && Level(r, next, uid, c.now) + (if ok && c.uid == uid then 1.0 else 0.0)
               <= Budget(Level(r, buckets, uid, start), r.refill, start, c.now)
  {
    ValidLater(r, buckets, start, c.now);
    LevelRises(r, buckets, uid, start, c.now);
    CallPays(r, buckets, c, uid);
  }

  lemma {:induction false} AfterSplit(r: Rate, buckets: map<Uid, Bucket>, before: seq<Call>, calls: seq<Call>)
    ensures After(r, buckets, before + calls) == After(r, After(r, buckets, before), calls)
    decreases |before|
  {
    if before == [] {
      assert before + calls == calls;
    } else {
      assert (before + calls)[1..] == before[1..] + calls;
      AfterSplit(r, Allow(r, buckets, before[0].uid, before[0].now).0, before[1..], calls);
    }
  }

  /** For every uid and every window of every run over a clock that never runs
      back: at most a full bucket plus the refill of the time that passed. */
  lemma WindowBound(r: Rate, before: seq<Call>, window: seq<Call>, uid: Uid, start: real, end: real)
    requires Sane(r) && Monotone(before, 0.0) && Monotone(window, start) && 0.0 <= start <= end
    requires forall i | 0 <= i < |before| :: before[i].now <= start
    requires forall i | 0 <= i < |window| :: window[i].now <= end
    ensures Allowed(r, After(r, map[], before), window, uid) as real <= Budget(r.capacity, r.refill, start, end)
    ensures Valid(r, After(r, map[], before + window), end)
  {
    StaysValid(r, map[], before, 0.0, start);
    var opening := After(r, map[], before);
    LevelRises(r, opening, uid, start, start);
    Ledger(r, opening, window, uid, start, end);
    BudgetGrows(Level(r, opening, uid, start), r.capacity, r.refill, start, end);
    StaysValid(r, opening, window, start, end);
    AfterSplit(r, map[], before, window);
  }

  function Only(calls: seq<Call>, uid: Uid): seq<Call> {
    if calls == [] then []
    else (if calls[0].uid == uid then [calls[0]] else []) + Only(calls[1..], uid)
  }

  /** The answers `uid` gets, in order. */
  function Answers(r: Rate, buckets: map<Uid, Bucket>, calls: seq<Call>, uid: Uid): seq<bool>
    decreases |calls|
  {
    if calls == [] then []
    else
      var (next, ok) := Allow(r, buckets, calls[0].uid, calls[0].now);
      (if calls[0].uid == uid then [ok] else []) + Answers(r, next, calls[1..], uid)
  }

  /** A uid is answered as if no other uid had ever called. */
  lemma {:induction false} UidsIndependent(r: Rate, buckets: map<Uid, Bucket>, alone: map<Uid, Bucket>, calls: seq<Call>, uid: Uid)
    requires uid in buckets <==> uid in alone
    requires uid in buckets ==> buckets[uid] == alone[uid]
    ensures Answers(r, buckets, calls, uid) == Answers(r, alone, Only(calls, uid), uid)
    decreases |calls|
  {
    if calls != [] {
      var c, rest := calls[0], calls[1..];
      var next := Allow(r, buckets, c.uid, c.now).0;
      if c.uid == uid {
        UidsIndependent(r, next, Allow(r, alone, uid, c.now).0, rest, uid);
        assert Only(calls, uid)[1..] == Only(rest, uid);
      } else {
        UidsIndependent(r, next, alone, rest, uid);
        assert Only(calls, uid) == Only(rest, uid);
      }
    }
  }
}
