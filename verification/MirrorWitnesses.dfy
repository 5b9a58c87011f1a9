/** Runs of the mirror that reach the limits its guarantees set, which makes the
    guarantees exact. */
module MirrorWitnesses {
  import opened Options
  import opened TrialNames
  import opened MirrorReservation
  import opened MirrorProtocol
  import opened MirrorRuns

  // ----- building runs

  lemma {:induction false} Concat(w: World, es: seq<Event>, w1: World, fs: seq<Event>, lim: Limits, w2: World)
    requires Run(w, es, lim, w1) && Run(w1, fs, lim, w2)
    ensures Run(w, es + fs, lim, w2)
    decreases |es|
  {
    if es == [] {
      assert es + fs == fs;
    } else {
      Concat(Apply(w, es[0], lim), es[1..], w1, fs, lim, w2);
      assert (es + fs)[1..] == es[1..] + fs;
    }
  }

  lemma Extend(w: World, es: seq<Event>, w1: World, e: Event, lim: Limits)
    requires Run(w, es, lim, w1) && Enabled(w1, e, lim)
    ensures Run(w, es + [e], lim, Apply(w1, e, lim))
  {
    assert [e][1..] == [];
    Concat(w, es, w1, [e], lim, Apply(w1, e, lim));
  }

  ghost predicate Reaches(w: World, lim: Limits, w': World) {
    exists es :: Run(w, es, lim, w')
  }

  lemma ReachesRefl(w: World, lim: Limits)
    ensures Reaches(w, lim, w)
  {
    assert Run(w, [], lim, w);
  }

  lemma ReachesStep(w: World, lim: Limits, w1: World, e: Event)
    requires Reaches(w, lim, w1) && Enabled(w1, e, lim)
    ensures Reaches(w, lim, Apply(w1, e, lim))
  {
    var es :| Run(w, es, lim, w1);
    Extend(w, es, w1, e, lim);
  }

  /** A process at work on the base trial of a class and day: it has counted `c` of
      the trial's `n` receipts, holds `r` slots and has the sequences `lo..hi` to note. */
  datatype Phase = Phase(c: nat, n: nat, r: nat, lo: nat, hi: nat)

  function Base(key: DayClass): string {
    TrialId(key.cls, 0, key.day)
  }

  ghost predicate Working(w: World, p: Pid, key: DayClass, f: Phase) {
    var trial := Base(key);
    && p in w.procs && w.procs[p].alive && Valid(w.procs[p].mem)
    && w.procs[p].reserved == multiset{}[trial := f.r]
    && 1 <= f.lo <= f.hi + 1
    && w.procs[p].unnoted == (set q: nat | f.lo <= q <= f.hi :: Receipt(trial, q))
    && Count(w.procs[p].mem, trial) == f.c && |Receipts(w, trial)| == f.n
    && (forall other | other != trial :: Count(w.procs[p].mem, other) == 0)
  }

  ghost predicate Reached(w: World, lim: Limits, p: Pid, key: DayClass, f: Phase, procs: set<Pid>) {
    Reaches(EMPTY, lim, w) && Working(w, p, key, f) && w.procs.Keys == procs
  }

  lemma WorkingOutstanding(w: World, p: Pid, key: DayClass, f: Phase)
    requires Working(w, p, key, f)
    ensures Outstanding(w.procs[p], Base(key)) == f.r + (f.hi + 1 - f.lo)
  {
    forall q ensures q in Range(f.lo, f.hi) <==> q in Unnoted(w.procs[p], Base(key)) {
      assert q in Range(f.lo, f.hi) <==> Receipt(Base(key), q) in w.procs[p].unnoted;
    }
    assert Unnoted(w.procs[p], Base(key)) == Range(f.lo, f.hi);
  }

  lemma DoReserve(w: World, lim: Limits, p: Pid, key: DayClass, f: Phase, procs: set<Pid>) returns (v: World)
    requires Reached(w, lim, p, key, f, procs)
    requires f.c < MAX_MIRROR_EVENTS_PER_TRIAL && f.r + (f.hi + 1 - f.lo) < lim.outstanding
    ensures Reached(v, lim, p, key, f.(r := f.r + 1), procs)
  {
    WorkingOutstanding(w, p, key, f);
    ReachesStep(EMPTY, lim, w, Reserving(p, key));
    v := Apply(w, Reserving(p, key), lim);
    assert forall other :: Count(v.procs[p].mem, other) == Count(w.procs[p].mem, other);
  }

  lemma DoAppend(w: World, lim: Limits, p: Pid, key: DayClass, f: Phase, procs: set<Pid>) returns (v: World)
    requires Reached(w, lim, p, key, f, procs) && f.r > 0 && f.n < lim.envelope && f.hi == f.n
    ensures Reached(v, lim, p, key, f.(n := f.n + 1, r := f.r - 1, hi := f.hi + 1), procs)
  {
    ReachesStep(EMPTY, lim, w, Appending(p, Base(key)));
    v := Apply(w, Appending(p, Base(key)), lim);
  }

  /** The first or the last sequence still to note is noted. */
  lemma DoNote(w: World, lim: Limits, p: Pid, key: DayClass, f: Phase, last: bool, procs: set<Pid>) returns (v: World)
    requires Reached(w, lim, p, key, f, procs) && f.lo <= f.hi
    ensures var q := if last then f.hi else f.lo;
            Reached(v, lim, p, key, Phase(Noted(f.c, Some(q as int)), f.n, f.r, if last then f.lo else f.lo + 1,
                                          if last then f.hi - 1 else f.hi), procs)
  {
    var q := if last then f.hi else f.lo;
    var r := Receipt(Base(key), q);
    assert r in w.procs[p].unnoted;
    ReachesStep(EMPTY, lim, w, Noting(p, r));
    v := Apply(w, Noting(p, r), lim);
  }

  /** Reserve, append, note, over and over: the trial and the count keep step. */
  lemma {:induction false} Fill(p: Pid, key: DayClass, n: nat, lim: Limits) returns (w: World)
    requires n <= MAX_MIRROR_EVENTS_PER_TRIAL && n <= lim.envelope && 1 <= lim.outstanding
    ensures Reached(w, lim, p, key, Phase(n, n, 0, n + 1, n), {p})
  {
    if n == 0 {
      ReachesRefl(EMPTY, lim);
      ReachesStep(EMPTY, lim, EMPTY, Start(p));
      w := Apply(EMPTY, Start(p), lim);
    } else {
      w := Fill(p, key, n - 1, lim);
      w := DoReserve(w, lim, p, key, Phase(n - 1, n - 1, 0, n, n - 1), {p});
      w := DoAppend(w, lim, p, key, Phase(n - 1, n - 1, 1, n, n - 1), {p});
      w := DoNote(w, lim, p, key, Phase(n - 1, n, 0, n, n), false, {p});
    }
  }

  lemma {:induction false} ReserveMany(v: World, lim: Limits, p: Pid, key: DayClass, f: Phase, k: nat, procs: set<Pid>)
      returns (w: World)
    requires Reached(v, lim, p, key, f, procs) && f.r == 0 && f.lo == f.hi + 1
    requires f.c < MAX_MIRROR_EVENTS_PER_TRIAL && k <= lim.outstanding
    ensures Reached(w, lim, p, key, f.(r := k), procs)
    decreases k
  {
    w := v;
    if k > 0 {
      w := ReserveMany(v, lim, p, key, f, k - 1, procs);
      w := DoReserve(w, lim, p, key, f.(r := k - 1), procs);
    }
  }

  lemma {:induction false} AppendMany(v: World, lim: Limits, p: Pid, key: DayClass, f: Phase, k: nat, procs: set<Pid>)
      returns (w: World)
    requires Reached(v, lim, p, key, f, procs) && k <= f.r && f.n + k <= lim.envelope && f.hi == f.n
    ensures Reached(w, lim, p, key, f.(n := f.n + k, r := f.r - k, hi := f.hi + k), procs)
    decreases k
  {
    w := v;
    if k > 0 {
      w := AppendMany(v, lim, p, key, f, k - 1, procs);
      w := DoAppend(w, lim, p, key, f.(n := f.n + k - 1, r := f.r - k + 1, hi := f.hi + k - 1), procs);
    }
  }

  lemma Join(v: World, lim: Limits, p: Pid, key: DayClass) returns (w: World)
    requires Reaches(EMPTY, lim, v) && p !in v.procs
    ensures var n := |Receipts(v, Base(key))|; Reached(w, lim, p, key, Phase(0, n, 0, n + 1, n), v.procs.Keys + {p})
  {
    ReachesStep(EMPTY, lim, v, Start(p));
    w := Apply(v, Start(p), lim);
    assert Receipts(w, Base(key)) == Receipts(v, Base(key));
  }

  /** `k` slots taken at once and all used. */
  lemma Burst(v: World, lim: Limits, p: Pid, key: DayClass, c: nat, n: nat, k: nat, procs: set<Pid>) returns (w: World)
    requires Reached(v, lim, p, key, Phase(c, n, 0, n + 1, n), procs)
    requires c < MAX_MIRROR_EVENTS_PER_TRIAL && k <= lim.outstanding && n + k <= lim.envelope
    ensures Reached(w, lim, p, key, Phase(c, n + k, 0, n + 1, n + k), procs)
  {
    w := ReserveMany(v, lim, p, key, Phase(c, n, 0, n + 1, n), k, procs);
    w := AppendMany(w, lim, p, key, Phase(c, n, k, n + 1, n), k, procs);
  }

  // ----- the bound on receipts is reached

  /** `ReceiptBound` is exact: for every number of lifetimes and slots and every
      envelope some run puts exactly that many receipts into one trial. */
  lemma {:induction false} BoundIsReached(lifetimes: nat, lim: Limits, key: DayClass) returns (w: World)
    requires 1 <= lifetimes && 1 <= lim.outstanding
    ensures Reaches(EMPTY, lim, w)
    ensures (forall p: Pid :: p in w.procs <==> p < lifetimes) && |w.procs| == lifetimes
    ensures |Receipts(w, Base(key))| == Most(lifetimes, lim)
    decreases lifetimes
  {
    var last := lifetimes - 1;
    if last == 0 {
      w := First(lim, last, key);
      assert w.procs.Keys == {last};
    } else {
      var v := BoundIsReached(last, lim, key);
      assert |v.procs| == |v.procs.Keys|;
      w := Next(v, lim, key, last);
      assert w.procs.Keys == v.procs.Keys + {last};
    }
    assert |w.procs| == |w.procs.Keys|;
  }

  lemma First(lim: Limits, p: Pid, key: DayClass) returns (w: World)
    requires 1 <= lim.outstanding
    ensures Reaches(EMPTY, lim, w) && w.procs.Keys == {p} && |Receipts(w, Base(key))| == Most(1, lim)
  {
    var n := if lim.envelope < MAX_MIRROR_EVENTS_PER_TRIAL then lim.envelope else MAX_MIRROR_EVENTS_PER_TRIAL - 1;
    w := Fill(p, key, n, lim);
    w := Burst(w, lim, p, key, n, n, Most(1, lim) - n, {p});
  }

  /** The lifetime that comes last uses as many of its slots as the recorder lets it. */
  lemma Next(v: World, lim: Limits, key: DayClass, p: nat) returns (w: World)
    requires 1 <= lim.outstanding && 1 <= p && p !in v.procs && Reaches(EMPTY, lim, v)
    requires |Receipts(v, Base(key))| == Most(p, lim)
    ensures Reaches(EMPTY, lim, w) && w.procs.Keys == v.procs.Keys + {p} && |Receipts(w, Base(key))| == Most(p + 1, lim)
  {
    Distribute(p + 1, lim.outstanding);
    w := Join(v, lim, p, key);
    w := Burst(w, lim, p, key, 0, Most(p, lim), Most(p + 1, lim) - Most(p, lim), v.procs.Keys + {p});
  }

  lemma Distribute(m: nat, k: nat)
    requires m >= 1
    ensures m * k == (m - 1) * k + k
  {
  }

  // ----- the fewest receipts left behind

  lemma Chain(v: World, lim: Limits, p: Pid, key: DayClass, n: nat) returns (w: World)
    requires 1 <= n && 1 <= lim.outstanding
    requires Reached(v, lim, p, key, Phase(MAX_MIRROR_EVENTS_PER_TRIAL, n, 0, n, n - 1), {p})
    ensures Reaches(EMPTY, lim, w) && LeftBehind(w, p, key, 0) && Receipts(w, Base(key)) == Receipts(v, Base(key))
  {
    var next := TrialId(key.cls, 1, key.day);
    assert |next| == |Base(key)| + 2;
    assert Unnoted(v.procs[p], next) == {};
    assert FirstOpen(v.procs[p].mem, key, 1) == 1;
    assert FirstOpen(v.procs[p].mem, key, 0) == 1;
    ReachesStep(EMPTY, lim, v, Reserving(p, key));
    w := Apply(v, Reserving(p, key), lim);
  }

  /** Sequences noted one after the other, all of them behind the count. */
  lemma {:induction false} NoteBehind(v: World, lim: Limits, p: Pid, key: DayClass, f: Phase) returns (w: World)
    requires Reached(v, lim, p, key, f, {p}) && f.hi <= f.c
    ensures Reached(w, lim, p, key, f.(c := f.c + (f.hi + 1 - f.lo), lo := f.hi + 1), {p})
    decreases f.hi + 1 - f.lo
  {
    if f.lo > f.hi {
      w := v;
      assert f.lo == f.hi + 1;
    } else {
      w := DoNote(v, lim, p, key, f, false, {p});
      w := NoteBehind(w, lim, p, key, f.(c := f.c + 1, lo := f.lo + 1));
    }
  }

  /** `LeftBehindHolds` is exact: for every number of slots and every envelope that
      allows it, some process chains past a trial that holds exactly the fewest: the
      last of its sequences in flight is noted first, so all others count as one more. */
  lemma FewestIsReached(p: Pid, key: DayClass, lim: Limits) returns (w: World)
    requires 1 <= lim.outstanding && Fewest(lim.outstanding) <= lim.envelope
    ensures Reaches(EMPTY, lim, w) && LeftBehind(w, p, key, 0)
    ensures |Receipts(w, Base(key))| == Fewest(lim.outstanding)
  {
    var m := Fewest(lim.outstanding);
    var k := MAX_MIRROR_EVENTS_PER_TRIAL + 1 - m;
    var n := m - k;
    w := Fill(p, key, n, lim);
    w := Burst(w, lim, p, key, n, n, k, {p});
    w := DoNote(w, lim, p, key, Phase(n, m, 0, n + 1, m), true, {p});
    w := NoteBehind(w, lim, p, key, Phase(m, m, 0, n + 1, m - 1));
    w := Chain(w, lim, p, key, m);
  }

  /** A run after which a process has left a segment behind that is not full. */
  ghost predicate LeftShort(es: seq<Event>, lim: Limits, w: World, p: Pid, key: DayClass, s: nat) {
    && Run(EMPTY, es, lim, w) && LeftBehind(w, p, key, s)
    && |Receipts(w, TrialId(key.cls, s, key.day))| < MAX_MIRROR_EVENTS_PER_TRIAL
  }

  /** Every segment ever left behind is full exactly when slots are taken one at a
      time, or the envelope is too small for anything to be left behind. */
  lemma FullBehindExactly(lim: Limits)
    ensures (forall es, w, p, key, s :: !LeftShort(es, lim, w, p, key, s))
            <==> lim.outstanding <= 1 || lim.envelope < Fewest(lim.outstanding)
  {
    forall es, w, p, key, s | LeftShort(es, lim, w, p, key, s)
      ensures lim.envelope >= Fewest(lim.outstanding) && lim.outstanding > 1
    {
      LeftBehindHolds(es, lim, w, p, key, s);
    }
    if lim.outstanding > 1 && lim.envelope >= Fewest(lim.outstanding) {
      var w := FewestIsReached(0, DayClass("", ""), lim);
      var es :| Run(EMPTY, es, lim, w);
      assert LeftShort(es, lim, w, 0, DayClass("", ""), 0);
    }
  }

  // ----- a full trial and a process that may or may not chain

  /** Everything in flight of `p` noted or given up. */
  lemma {:induction false} Quiesce(w: World, lim: Limits, p: Pid) returns (es: seq<Event>, v: World)
    requires p in w.procs && w.procs[p].alive && Valid(w.procs[p].mem)
    ensures Run(w, es, lim, v) && p in v.procs && v.procs[p].alive && Valid(v.procs[p].mem)
    ensures v.procs[p].reserved == multiset{} && v.procs[p].unnoted == {}
    ensures v.procs[p].mem.segments == w.procs[p].mem.segments
    ensures forall trial :: Count(v.procs[p].mem, trial) >= Count(w.procs[p].mem, trial)
    decreases |w.procs[p].unnoted| + |w.procs[p].reserved|
  {
    var l := w.procs[p];
    if l.unnoted != {} {
      var r :| r in l.unnoted;
      var next := Apply(w, Noting(p, r), lim);
      es, v := Quiesce(next, lim, p);
      forall trial ensures Count(v.procs[p].mem, trial) >= Count(l.mem, trial) {
        assert Count(next.procs[p].mem, trial) >= Count(l.mem, trial);
      }
      assert ([Noting(p, r)] + es)[1..] == es;
      es := [Noting(p, r)] + es;
    } else if l.reserved != multiset{} {
      var t :| t in l.reserved;
      var next := Apply(w, Abandoning(p, t), lim);
      es, v := Quiesce(next, lim, p);
      assert ([Abandoning(p, t)] + es)[1..] == es;
      es := [Abandoning(p, t)] + es;
    } else {
      es, v := [], w;
    }
  }

  lemma ReserveChains(v: World, lim: Limits, p: Pid, key: DayClass, s: nat)
    requires p in v.procs && v.procs[p].alive && Valid(v.procs[p].mem) && 1 <= lim.outstanding
    requires v.procs[p].reserved == multiset{} && v.procs[p].unnoted == {}
    requires Segment(v.procs[p].mem, key) == s < MAX_CHAIN_SEGMENTS && Full(v.procs[p].mem, key, s)
    ensures Enabled(v, Reserving(p, key), lim) && Segment(Apply(v, Reserving(p, key), lim).procs[p].mem, key) > s
  {
    var m := v.procs[p].mem;
    assert forall trial :: Unnoted(v.procs[p], trial) == {};
    OpenFromPointer(m, key);
    assert FirstOpen(m, key, s) > s;
  }

  lemma {:induction false} DeadStays(w: World, es: seq<Event>, lim: Limits, v: World, p: Pid)
    requires p in w.procs && !w.procs[p].alive && Run(w, es, lim, v)
    ensures p in v.procs && v.procs[p] == w.procs[p]
    decreases |es|
  {
    if es != [] {
      DeadStays(Apply(w, es[0], lim), es[1..], lim, v, p);
    }
  }

  ghost predicate Chained(v: World, p: Pid, key: DayClass, s: nat) {
    p in v.procs && Segment(v.procs[p].mem, key) > s
  }

  ghost predicate NeverChains(w: World, lim: Limits, p: Pid, key: DayClass, s: nat) {
    forall es: seq<Event>, v: World :: Run(w, es, lim, v) ==> !Chained(v, p, key, s)
  }

  lemma MayChain(w: World, lim: Limits, p: Pid, key: DayClass, s: nat)
    requires AtFullTrial(w, lim, p, key, s) && 1 <= lim.outstanding && w.procs[p].alive && Full(w.procs[p].mem, key, s)
    ensures !NeverChains(w, lim, p, key, s)
  {
    var es, v := Quiesce(w, lim, p);
    ReserveChains(v, lim, p, key, s);
    Extend(w, es, v, Reserving(p, key), lim);
    assert Chained(Apply(v, Reserving(p, key), lim), p, key, s);
  }

  /** A process at a full trial never chains, in any continuation, exactly when it is
      gone or has counted fewer receipts than the cap. */
  lemma NeverChainsExactly(w: World, lim: Limits, p: Pid, key: DayClass, s: nat)
    requires AtFullTrial(w, lim, p, key, s) && 1 <= lim.outstanding
    ensures NeverChains(w, lim, p, key, s)
            <==> !w.procs[p].alive || Count(w.procs[p].mem, TrialId(key.cls, s, key.day)) < MAX_MIRROR_EVENTS_PER_TRIAL
  {
    if w.procs[p].alive && Full(w.procs[p].mem, key, s) {
      MayChain(w, lim, p, key, s);
    } else {
      forall es: seq<Event>, v: World | Run(w, es, lim, v) ensures !Chained(v, p, key, s) {
        if w.procs[p].alive {
          StuckRun(w, es, lim, v, p, key, s);
        } else {
          DeadStays(w, es, lim, v, p);
        }
      }
    }
  }
}
