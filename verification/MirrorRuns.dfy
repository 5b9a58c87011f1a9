/** What whole runs of the mirror guarantee: what a process leaves behind when it
    chains to a new segment, which processes can chain at all, and which never do. */
module MirrorRuns {
  import opened Options
  import opened TrialNames
  import opened MirrorReservation
  import opened MirrorProtocol

  /** Counts only grow, whatever order notes arrive in, and pointers never move
      back, whatever the process does in between. */
  lemma {:induction false} NothingMovesBack(w: World, es: seq<Event>, lim: Limits, w': World, p: Pid, trial: string, key: DayClass)
    requires Run(w, es, lim, w') && p in w.procs
    ensures p in w'.procs
    ensures Count(w.procs[p].mem, trial) <= Count(w'.procs[p].mem, trial)
    ensures Segment(w.procs[p].mem, key) <= Segment(w'.procs[p].mem, key)
    decreases |es|
  {
    if es != [] {
      var w1 := Apply(w, es[0], lim);
      StepMovesForward(w, es[0], lim, p, trial, key);
      NothingMovesBack(w1, es[1..], lim, w', p, trial, key);
    }
  }

  lemma StepMovesForward(w: World, e: Event, lim: Limits, p: Pid, trial: string, key: DayClass)
    requires Enabled(w, e, lim) && p in w.procs
    ensures p in Apply(w, e, lim).procs
    ensures Count(w.procs[p].mem, trial) <= Count(Apply(w, e, lim).procs[p].mem, trial)
    ensures Segment(w.procs[p].mem, key) <= Segment(Apply(w, e, lim).procs[p].mem, key)
  {
    if p == e.p && e.Reserving? {
      var m, m' := w.procs[p].mem, Reserve(w.procs[p].mem, e.key).0;
      assert m'.counts == m.counts;
      if key != e.key {
        assert Segment(m', key) == Segment(m, key);
      }
    }
    if p == e.p && e.Noting? && trial != e.receipt.trial {
      assert Count(Note(w.procs[p].mem, e.receipt.trial, Some(e.receipt.sequence)), trial) == Count(w.procs[p].mem, trial);
    }
  }

  // ----- what a count is worth

  /** The fewest receipts a segment can hold when a process leaves it behind. */
  function Fewest(outstanding: nat): nat {
    var short := MAX_MIRROR_EVENTS_PER_TRIAL + 1 - outstanding;
    if short > MAX_MIRROR_EVENTS_PER_TRIAL / 2 then short else MAX_MIRROR_EVENTS_PER_TRIAL / 2 + 1
  }

  /** A count of `c` with the sequences `u` still to note, by process `p`: each
      receipt of the trial lifts a count at most twice, once for being behind; with
      one slot at a time the count is the last sequence the process wrote itself. */
  ghost predicate Tracked(c: nat, u: set<nat>, owners: seq<Pid>, p: Pid, lim: Limits) {
    && (forall q | q in u :: 1 <= q <= |owners|)
    && (c > 0 ==> c + |u| <= 2 * |owners| - 1)
    && (lim.outstanding <= 1 ==>
          && (c > 0 ==> c <= |owners| && owners[c - 1] == p)
          && forall q | q in u :: q > c && owners[q - 1] == p)
  }

  ghost predicate AllTracked(w: World, lim: Limits) {
    forall p, trial | p in w.procs :: LifetimeTracked(w.procs[p], p, trial, Receipts(w, trial), lim)
  }

  lemma OtherAppendTracked(c: nat, u: set<nat>, owners: seq<Pid>, p: Pid, writer: Pid, lim: Limits)
    requires Tracked(c, u, owners, p, lim)
    ensures Tracked(c, u, owners + [writer], p, lim)
  {
  }

  lemma OwnAppendTracked(c: nat, u: set<nat>, owners: seq<Pid>, p: Pid, lim: Limits)
    requires Tracked(c, u, owners, p, lim) && 1 + |u| <= lim.outstanding
    ensures Tracked(c, u + {|owners| + 1}, owners + [p], p, lim)
  {
    assert lim.outstanding <= 1 ==> u == {};
  }

  lemma NoteTracked(c: nat, u: set<nat>, q: nat, owners: seq<Pid>, p: Pid, lim: Limits)
    requires Tracked(c, u, owners, p, lim) && q in u && |u| <= lim.outstanding
    ensures Tracked(Noted(c, Some(q as int)), u - {q}, owners, p, lim)
  {
    if lim.outstanding <= 1 {
      assert |u - {q}| == |u| - 1;
      assert u - {q} == {};
    }
    DistinctInRange(u - {q}, |owners|, q);
  }

  /** Numbers from 1 to n, one of them left out, are at most n - 1. */
  lemma DistinctInRange(u: set<nat>, n: nat, q: nat)
    requires 1 <= q <= n && q !in u && forall x | x in u :: 1 <= x <= n
    ensures |u| <= n - 1
  {
    SubsetSize(u + {q}, Range(1, n));
  }

  ghost predicate LifetimeTracked(l: Lifetime, p: Pid, trial: string, owners: seq<Pid>, lim: Limits) {
    Tracked(Count(l.mem, trial), Unnoted(l, trial), owners, p, lim)
  }

  lemma AppendTracked(l: Lifetime, p: Pid, t: string, at: seq<Pid>, trial: string, owners: seq<Pid>, lim: Limits)
    requires LifetimeTracked(l, p, trial, owners, lim) && LifetimeInv(l, p, trial, owners, lim)
    requires t in l.reserved && (t == trial ==> at == owners)
    ensures LifetimeTracked(AfterAppend(l, t, at), p, trial, if t == trial then owners + [p] else owners, lim)
  {
    if t == trial {
      UnnotedGrows(l, trial, owners);
      OwnAppendTracked(Count(l.mem, trial), Unnoted(l, trial), owners, p, lim);
    } else {
      assert Unnoted(AfterAppend(l, t, at), trial) == Unnoted(l, trial);
    }
  }

  lemma NotingTracked(l: Lifetime, p: Pid, r: Receipt, trial: string, owners: seq<Pid>, lim: Limits)
    requires LifetimeTracked(l, p, trial, owners, lim) && LifetimeInv(l, p, trial, owners, lim) && r in l.unnoted
    ensures LifetimeTracked(AfterNote(l, r), p, trial, owners, lim)
  {
    if r.trial == trial {
      assert r.sequence in Unnoted(l, trial);
      assert Unnoted(AfterNote(l, r), trial) == Unnoted(l, trial) - {r.sequence};
      NoteTracked(Count(l.mem, trial), Unnoted(l, trial), r.sequence, owners, p, lim);
    } else {
      assert Unnoted(AfterNote(l, r), trial) == Unnoted(l, trial);
    }
  }

  lemma CrashTracked(l: Lifetime, p: Pid, trial: string, owners: seq<Pid>, lim: Limits)
    requires LifetimeTracked(l, p, trial, owners, lim)
    ensures LifetimeTracked(AfterCrash(l), p, trial, owners, lim)
  {
    assert Unnoted(AfterCrash(l), trial) == {};
  }

  lemma ReservingTracked(l: Lifetime, p: Pid, key: DayClass, trial: string, owners: seq<Pid>, lim: Limits)
    requires LifetimeTracked(l, p, trial, owners, lim) && Valid(l.mem)
    ensures LifetimeTracked(AfterReserve(l, key), p, trial, owners, lim)
  {
    assert Unnoted(AfterReserve(l, key), trial) == Unnoted(l, trial);
  }

  lemma AbandonTracked(l: Lifetime, p: Pid, t: string, trial: string, owners: seq<Pid>, lim: Limits)
    requires LifetimeTracked(l, p, trial, owners, lim)
    ensures LifetimeTracked(l.(reserved := l.reserved - multiset{t}), p, trial, owners, lim)
  {
    assert Unnoted(l.(reserved := l.reserved - multiset{t}), trial) == Unnoted(l, trial);
  }

  lemma OwnStepTracked(w: World, e: Event, lim: Limits, trial: string)
    requires Enabled(w, e, lim) && !e.Start?
    requires LifetimeInv(w.procs[e.p], e.p, trial, Receipts(w, trial), lim)
    requires LifetimeTracked(w.procs[e.p], e.p, trial, Receipts(w, trial), lim)
    ensures var v := Apply(w, e, lim); LifetimeTracked(v.procs[e.p], e.p, trial, Receipts(v, trial), lim)
  {
    var p, owners := e.p, Receipts(w, trial);
    var l := w.procs[p];
    match e
    case Reserving(_, key) => ReservingTracked(l, p, key, trial, owners, lim);
    case Appending(_, t) => AppendTracked(l, p, t, Receipts(w, t), trial, owners, lim);
    case Abandoning(_, t) => AbandonTracked(l, p, t, trial, owners, lim);
    case Noting(_, r) => NotingTracked(l, p, r, trial, owners, lim);
    case Crash(_) => CrashTracked(l, p, trial, owners, lim);
  }

  lemma OthersTracked(w: World, e: Event, lim: Limits, p: Pid, trial: string)
    requires Enabled(w, e, lim) && p in w.procs && p != e.p
    requires LifetimeTracked(w.procs[p], p, trial, Receipts(w, trial), lim)
    ensures var v := Apply(w, e, lim); LifetimeTracked(v.procs[p], p, trial, Receipts(v, trial), lim)
  {
    OtherAppendTracked(Count(w.procs[p].mem, trial), Unnoted(w.procs[p], trial), Receipts(w, trial), p, e.p, lim);
  }

  lemma NewbornTracked(p: Pid, trial: string, owners: seq<Pid>, lim: Limits)
    ensures LifetimeTracked(NEWBORN, p, trial, owners, lim)
  {
    assert Unnoted(NEWBORN, trial) == {};
  }

  lemma StepTracked(w: World, e: Event, lim: Limits, p: Pid, trial: string)
    requires Inv(w, lim) && AllTracked(w, lim) && Enabled(w, e, lim) && p in Apply(w, e, lim).procs
    ensures var v := Apply(w, e, lim); LifetimeTracked(v.procs[p], p, trial, Receipts(v, trial), lim)
  {
    if p != e.p {
      OthersTracked(w, e, lim, p, trial);
    } else if e.Start? {
      NewbornTracked(p, trial, Receipts(w, trial), lim);
    } else {
      OwnStepTracked(w, e, lim, trial);
    }
  }

  lemma {:induction false} RunTracked(w: World, es: seq<Event>, lim: Limits, w': World)
    requires Inv(w, lim) && AllTracked(w, lim) && Run(w, es, lim, w')
    ensures AllTracked(w', lim)
    decreases |es|
  {
    if es != [] {
      var v := Apply(w, es[0], lim);
      StepKeepsInv(w, es[0], lim);
      forall p, trial | p in v.procs
        ensures LifetimeTracked(v.procs[p], p, trial, Receipts(v, trial), lim)
      {
        StepTracked(w, es[0], lim, p, trial);
      }
      RunTracked(v, es[1..], lim, w');
    }
  }

  // ----- what a process has left behind

  ghost predicate LeftBehind(w: World, p: Pid, key: DayClass, s: nat) {
    p in w.procs && s < Segment(w.procs[p].mem, key) && s < MAX_CHAIN_SEGMENTS
  }

  /** No process chains past a trial that holds fewer receipts. */
  lemma LeftBehindHolds(es: seq<Event>, lim: Limits, w: World, p: Pid, key: DayClass, s: nat)
    requires Run(EMPTY, es, lim, w) && LeftBehind(w, p, key, s)
    ensures lim.outstanding >= 1 && lim.envelope >= Fewest(lim.outstanding)
    ensures |Receipts(w, TrialId(key.cls, s, key.day))| >= Fewest(lim.outstanding)
  {
    var trial := TrialId(key.cls, s, key.day);
    EmptyInv(lim);
    RunKeepsInv(EMPTY, es, lim, w);
    RunTracked(EMPTY, es, lim, w);
    StoreBound(EMPTY, es, lim, w, trial);
    assert LifetimeInv(w.procs[p], p, trial, Receipts(w, trial), lim);
    assert LifetimeTracked(w.procs[p], p, trial, Receipts(w, trial), lim);
    assert Full(w.procs[p].mem, key, s);
  }

  /** With the recorder's envelope and one slot at a time, only the lifetime that
      wrote the last receipt of a full trial ever chains past it. */
  lemma OnlyTheFillerChains(es: seq<Event>, lim: Limits, w: World, p: Pid, key: DayClass, s: nat)
    requires lim.outstanding <= 1 && lim.envelope == MAX_TRIAL_EVENTS
    requires Run(EMPTY, es, lim, w) && LeftBehind(w, p, key, s)
    ensures var owners := Receipts(w, TrialId(key.cls, s, key.day));
            |owners| == MAX_TRIAL_EVENTS && owners[MAX_TRIAL_EVENTS - 1] == p
  {
    var trial := TrialId(key.cls, s, key.day);
    LeftBehindHolds(es, lim, w, p, key, s);
    EmptyInv(lim);
    RunKeepsInv(EMPTY, es, lim, w);
    RunTracked(EMPTY, es, lim, w);
    StoreBound(EMPTY, es, lim, w, trial);
    assert LifetimeTracked(w.procs[p], p, trial, Receipts(w, trial), lim);
    assert Full(w.procs[p].mem, key, s);
  }

  // ----- when a process never chains

  /** The pointer is on segment `s`, the recorder takes nothing more into its trial,
      and nothing of the trial is left to note. */
  ghost predicate AtFullTrial(w: World, lim: Limits, p: Pid, key: DayClass, s: nat) {
    && p in w.procs && s < MAX_CHAIN_SEGMENTS && Segment(w.procs[p].mem, key) == s && Valid(w.procs[p].mem)
    && |Receipts(w, TrialId(key.cls, s, key.day))| >= lim.envelope
    && Unnoted(w.procs[p], TrialId(key.cls, s, key.day)) == {}
  }

  lemma StuckStep(w: World, e: Event, lim: Limits, p: Pid, key: DayClass, s: nat)
    requires AtFullTrial(w, lim, p, key, s) && Enabled(w, e, lim)
    requires Count(w.procs[p].mem, TrialId(key.cls, s, key.day)) < MAX_MIRROR_EVENTS_PER_TRIAL
    ensures var v, trial := Apply(w, e, lim), TrialId(key.cls, s, key.day);
            && AtFullTrial(v, lim, p, key, s) && Receipts(v, trial) == Receipts(w, trial)
            && Count(v.procs[p].mem, trial) == Count(w.procs[p].mem, trial)
  {
    var v, trial := Apply(w, e, lim), TrialId(key.cls, s, key.day);
    assert Receipts(v, trial) == Receipts(w, trial);
    if p == e.p {
      var l, l' := w.procs[p], v.procs[p];
      assert forall r | r in l.unnoted && r.trial == trial :: r.sequence in Unnoted(l, trial);
      assert Unnoted(l', trial) == {};
      if e.Reserving? && e.key == key {
        OpenFromPointer(l.mem, key);
        assert !Full(l.mem, key, s);
      }
    }
  }

  lemma {:induction false} StuckRun(w: World, es: seq<Event>, lim: Limits, w': World, p: Pid, key: DayClass, s: nat)
    requires AtFullTrial(w, lim, p, key, s) && Run(w, es, lim, w')
    requires Count(w.procs[p].mem, TrialId(key.cls, s, key.day)) < MAX_MIRROR_EVENTS_PER_TRIAL
    ensures AtFullTrial(w', lim, p, key, s)
    ensures Receipts(w', TrialId(key.cls, s, key.day)) == Receipts(w, TrialId(key.cls, s, key.day))
    decreases |es|
  {
    if es != [] {
      StuckStep(w, es[0], lim, p, key, s);
      StuckRun(Apply(w, es[0], lim), es[1..], lim, w', p, key, s);
    }
  }

  /** A process that starts when the base trial is already full never sees it full:
      in no continuation does it chain or land a receipt in it. */
  lemma LateStarterNeverChains(es: seq<Event>, p: Pid, fs: seq<Event>, lim: Limits, w: World, w': World, key: DayClass)
    requires Run(EMPTY, es, lim, w) && p !in w.procs && |Receipts(w, TrialId(key.cls, 0, key.day))| >= lim.envelope
    requires Run(w, [Start(p)] + fs, lim, w')
    ensures p in w'.procs && Segment(w'.procs[p].mem, key) == 0
    ensures Receipts(w', TrialId(key.cls, 0, key.day)) == Receipts(w, TrialId(key.cls, 0, key.day))
  {
    var v, run := Apply(w, Start(p), lim), [Start(p)] + fs;
    assert run[0] == Start(p) && run[1..] == fs;
    assert Unnoted(v.procs[p], TrialId(key.cls, 0, key.day)) == {};
    StuckRun(v, fs, lim, w', p, key, 0);
  }
}
