/** Any number of process lifetimes, each with any number of threads, mirroring
    into shared day trials. Reserving and noting are critical sections of one
    process; the append between them is not guarded by anything. */
module MirrorProtocol {
  import opened Options
  import opened TrialNames
  import opened MirrorReservation

  type Pid = nat

  datatype Receipt = Receipt(trial: string, sequence: nat)

  /** `reserved` holds slots whose append has not happened yet, `unnoted`
      receipts that landed but whose sequence was not noted yet. */
  datatype Lifetime = Lifetime(mem: Memory, reserved: multiset<string>, unnoted: set<Receipt>, alive: bool)

  /** Per trial, the lifetime that wrote each receipt; receipt i has sequence i + 1. */
  datatype World = World(store: map<string, seq<Pid>>, procs: map<Pid, Lifetime>)

  datatype Event =
    | Start(p: Pid)
    | Reserving(p: Pid, key: DayClass)
    | Appending(p: Pid, trial: string)
    | Abandoning(p: Pid, trial: string)
    | Noting(p: Pid, receipt: Receipt)
    | Crash(p: Pid)

  /** At most `outstanding` slots per lifetime and trial are in flight; the
      recorder refuses appends to a trial that holds `envelope` receipts. */
  datatype Limits = Limits(outstanding: nat, envelope: nat)

  /** The recorder's own envelope. */
  const MAX_TRIAL_EVENTS: nat := 500

  const EMPTY := World(map[], map[])

  function Receipts(w: World, trial: string): seq<Pid> {
    if trial in w.store then w.store[trial] else []
  }

  ghost function Unnoted(l: Lifetime, trial: string): set<nat> {
    set r | r in l.unnoted && r.trial == trial :: r.sequence
  }

  ghost function Outstanding(l: Lifetime, trial: string): nat {
    l.reserved[trial] + |Unnoted(l, trial)|
  }

  ghost predicate Enabled(w: World, e: Event, lim: Limits) {
    if e.Start? then e.p !in w.procs
    else
      e.p in w.procs && w.procs[e.p].alive &&
      var l := w.procs[e.p];
      match e
      case Reserving(_, key) =>
        Valid(l.mem) &&
        var slot := Reserve(l.mem, key).1;
        slot.Some? ==> Outstanding(l, slot.value) < lim.outstanding
      case Appending(_, trial) => trial in l.reserved && |Receipts(w, trial)| < lim.envelope
      case Abandoning(_, trial) => trial in l.reserved
      case Noting(_, receipt) => Valid(l.mem) && receipt in l.unnoted
      case _ => true
  }

  const NEWBORN := Lifetime(FRESH, multiset{}, {}, true)

  function AfterReserve(l: Lifetime, key: DayClass): Lifetime
    requires Valid(l.mem)
  {
    var (mem, slot) := Reserve(l.mem, key);
    l.(mem := mem, reserved := if slot.Some? then l.reserved + multiset{slot.value} else l.reserved)
  }

  function AfterAppend(l: Lifetime, trial: string, owners: seq<Pid>): Lifetime {
    l.(reserved := l.reserved - multiset{trial}, unnoted := l.unnoted + {Receipt(trial, |owners| + 1)})
  }

  function AfterNote(l: Lifetime, receipt: Receipt): Lifetime
    requires Valid(l.mem)
  {
    l.(mem := Note(l.mem, receipt.trial, Some(receipt.sequence)), unnoted := l.unnoted - {receipt})
  }

  function AfterCrash(l: Lifetime): Lifetime {
    l.(reserved := multiset{}, unnoted := {}, alive := false)
  }

  ghost function Apply(w: World, e: Event, lim: Limits): World
    requires Enabled(w, e, lim)
  {
    match e
    case Start(p) => w.(procs := w.procs[p := NEWBORN])
    case Reserving(p, key) => w.(procs := w.procs[p := AfterReserve(w.procs[p], key)])
    case Appending(p, trial) =>
      var owners := Receipts(w, trial);
      World(w.store[trial := owners + [p]], w.procs[p := AfterAppend(w.procs[p], trial, owners)])
    case Abandoning(p, trial) =>
      w.(procs := w.procs[p := w.procs[p].(reserved := w.procs[p].reserved - multiset{trial})])
    case Noting(p, receipt) => w.(procs := w.procs[p := AfterNote(w.procs[p], receipt)])
    case Crash(p) => w.(procs := w.procs[p := AfterCrash(w.procs[p])])
  }

  ghost predicate Run(w: World, es: seq<Event>, lim: Limits, w': World)
    decreases |es|
  {
    if es == [] then w == w'
    else Enabled(w, es[0], lim) && Run(Apply(w, es[0], lim), es[1..], lim, w')
  }

  /** The sequence numbers in `within` of receipts written by `p`. */
  ghost function Owned(owners: seq<Pid>, within: set<nat>, p: Pid): set<nat> {
    set q | q in within && 1 <= q <= |owners| && owners[q - 1] == p
  }

  function Range(lo: nat, hi: nat): (r: set<nat>)
    ensures forall q :: q in r <==> lo <= q <= hi
    ensures |r| == if lo <= hi then hi - lo + 1 else 0
    decreases hi - lo
  {
    if lo <= hi then {lo} + Range(lo + 1, hi) else {}
  }

  /** Sequence numbers from the cap up that lifetime `p` wrote. */
  ghost function Over(owners: seq<Pid>, p: Pid): set<nat> {
    Owned(owners, Range(MAX_MIRROR_EVENTS_PER_TRIAL, |owners|), p)
  }

  // ----- what every step keeps

  /** Unnoted sequences that will count as one more receipt when noted. */
  ghost function Behind(l: Lifetime, trial: string): set<nat> {
    set q | q in Unnoted(l, trial) && q <= Count(l.mem, trial)
  }

  /** How far a count can run ahead of the trial it counts. */
  function Slack(lim: Limits): nat {
    if lim.outstanding == 0 then 0 else lim.outstanding - 1
  }

  ghost predicate SlotsInv(l: Lifetime, trial: string, owners: seq<Pid>, lim: Limits) {
    && Valid(l.mem)
    && Outstanding(l, trial) <= lim.outstanding
    && (forall q | q in Unnoted(l, trial) :: 1 <= q <= |owners|)
  }

  /** Receipts past the cap come from slots that were in flight when this
      lifetime first saw the trial full. */
  ghost predicate CapInv(l: Lifetime, p: Pid, trial: string, owners: seq<Pid>, lim: Limits) {
    && |Over(owners, p)| + l.reserved[trial] <= lim.outstanding
    && (l.alive && Count(l.mem, trial) < MAX_MIRROR_EVENTS_PER_TRIAL ==> Over(owners, p) <= Unnoted(l, trial))
  }

  ghost predicate CountInv(l: Lifetime, trial: string, owners: seq<Pid>, lim: Limits) {
    Count(l.mem, trial) + |Behind(l, trial)| <= |owners| + Slack(lim)
  }

  ghost predicate LifetimeInv(l: Lifetime, p: Pid, trial: string, owners: seq<Pid>, lim: Limits) {
    SlotsInv(l, trial, owners, lim) && CapInv(l, p, trial, owners, lim) && CountInv(l, trial, owners, lim)
  }

  ghost predicate Inv(w: World, lim: Limits) {
    && (forall p, trial | p in w.procs :: LifetimeInv(w.procs[p], p, trial, Receipts(w, trial), lim))
    && (forall trial, i | 0 <= i < |Receipts(w, trial)| :: Receipts(w, trial)[i] in w.procs)
  }

  lemma SubsetSize<T>(a: set<T>, b: set<T>)
    requires a <= b
    ensures |a| <= |b|
  {
    assert b == a + (b - a);
  }

  lemma ReserveKeeps(l: Lifetime, p: Pid, key: DayClass, trial: string, owners: seq<Pid>, lim: Limits)
    requires LifetimeInv(l, p, trial, owners, lim) && l.alive
    requires Reserve(l.mem, key).1 == Some(trial) ==> Outstanding(l, trial) < lim.outstanding
    ensures LifetimeInv(AfterReserve(l, key), p, trial, owners, lim)
  {
    var l' := AfterReserve(l, key);
    assert Unnoted(l', trial) == Unnoted(l, trial) && Behind(l', trial) == Behind(l, trial);
    if Reserve(l.mem, key).1 == Some(trial) {
      SubsetSize(Over(owners, p), Unnoted(l, trial));
    }
  }

  lemma UnnotedGrows(l: Lifetime, trial: string, owners: seq<Pid>)
    ensures Unnoted(AfterAppend(l, trial, owners), trial) == Unnoted(l, trial) + {|owners| + 1}
  {
    assert Receipt(trial, |owners| + 1) in AfterAppend(l, trial, owners).unnoted;
  }

  lemma OverGrows(owners: seq<Pid>, p: Pid)
    ensures var n := |owners| + 1;
            Over(owners + [p], p) == Over(owners, p) + (if n >= MAX_MIRROR_EVENTS_PER_TRIAL then {n} else {})
  {
  }

  lemma AppendGrows(l: Lifetime, p: Pid, trial: string, owners: seq<Pid>)
    ensures var l' := AfterAppend(l, trial, owners);
            var n := |owners| + 1;
            && Unnoted(l', trial) == Unnoted(l, trial) + {n}
            && Over(owners + [p], p) == Over(owners, p) + (if n >= MAX_MIRROR_EVENTS_PER_TRIAL then {n} else {})
            && Behind(l', trial) == Behind(l, trial) + (if n <= Count(l.mem, trial) then {n} else {})
  {
    UnnotedGrows(l, trial, owners);
    OverGrows(owners, p);
  }

  lemma AppendKeeps(l: Lifetime, p: Pid, trial: string, owners: seq<Pid>, lim: Limits)
    requires LifetimeInv(l, p, trial, owners, lim) && trial in l.reserved
    ensures LifetimeInv(AfterAppend(l, trial, owners), p, trial, owners + [p], lim)
  {
    AppendGrows(l, p, trial, owners);
  }

  /** Receipts of other trials and other lifetimes leave the facts as they are. */
  lemma OthersKeep(l: Lifetime, l': Lifetime, p: Pid, trial: string, owners: seq<Pid>, writer: Pid, lim: Limits)
    requires LifetimeInv(l, p, trial, owners, lim)
    requires Valid(l'.mem) && Count(l'.mem, trial) == Count(l.mem, trial) && l'.alive == l.alive
    requires l'.reserved[trial] <= l.reserved[trial] && Unnoted(l', trial) == Unnoted(l, trial)
    ensures LifetimeInv(l', p, trial, owners, lim)
    ensures writer != p ==> LifetimeInv(l', p, trial, owners + [writer], lim)
  {
    assert Behind(l', trial) == Behind(l, trial);
    assert writer != p ==> Over(owners + [writer], p) == Over(owners, p);
  }

  lemma NoteKeeps(l: Lifetime, p: Pid, trial: string, q: nat, owners: seq<Pid>, lim: Limits)
    requires LifetimeInv(l, p, trial, owners, lim) && l.alive && Receipt(trial, q) in l.unnoted
    ensures LifetimeInv(AfterNote(l, Receipt(trial, q)), p, trial, owners, lim)
  {
    var l' := AfterNote(l, Receipt(trial, q));
    var u := Unnoted(l, trial);
    assert q in u;
    assert Unnoted(l', trial) == u - {q};
    NoteKeepsCap(l, l', p, trial, q, owners, lim);
    NoteKeepsCount(l, l', trial, q, owners, lim);
  }

  lemma NoteKeepsCap(l: Lifetime, l': Lifetime, p: Pid, trial: string, q: nat, owners: seq<Pid>, lim: Limits)
    requires SlotsInv(l, trial, owners, lim) && CapInv(l, p, trial, owners, lim) && l.alive
    requires l'.reserved == l.reserved && Unnoted(l', trial) == Unnoted(l, trial) - {q}
    requires Count(l'.mem, trial) == Noted(Count(l.mem, trial), Some(q as int))
    ensures CapInv(l', p, trial, owners, lim)
  {
    if Count(l.mem, trial) < MAX_MIRROR_EVENTS_PER_TRIAL {
      SubsetSize(Over(owners, p), Unnoted(l, trial));
    }
  }

  lemma NoteKeepsCount(l: Lifetime, l': Lifetime, trial: string, q: nat, owners: seq<Pid>, lim: Limits)
    requires SlotsInv(l, trial, owners, lim) && CountInv(l, trial, owners, lim)
    requires q in Unnoted(l, trial) && Unnoted(l', trial) == Unnoted(l, trial) - {q}
    requires Count(l'.mem, trial) == Noted(Count(l.mem, trial), Some(q as int))
    ensures CountInv(l', trial, owners, lim)
  {
    var u, c := Unnoted(l, trial), Count(l.mem, trial);
    SubsetSize(Behind(l', trial), u - {q});
    if q <= c && c + 1 !in u {
      assert Behind(l', trial) == Behind(l, trial) - {q};
    }
  }

  lemma CrashKeeps(l: Lifetime, p: Pid, trial: string, owners: seq<Pid>, lim: Limits)
    requires LifetimeInv(l, p, trial, owners, lim)
    ensures LifetimeInv(AfterCrash(l), p, trial, owners, lim)
  {
    assert Unnoted(AfterCrash(l), trial) == {} && Behind(AfterCrash(l), trial) == {};
  }

  lemma StartHolds(w: World, p: Pid, trial: string, lim: Limits)
    requires Inv(w, lim) && p !in w.procs
    ensures LifetimeInv(NEWBORN, p, trial, Receipts(w, trial), lim)
  {
    assert Over(Receipts(w, trial), p) == {};
    assert Unnoted(NEWBORN, trial) == {} && Behind(NEWBORN, trial) == {};
  }

  lemma AppendStep(l: Lifetime, p: Pid, t: string, at: seq<Pid>, trial: string, owners: seq<Pid>, lim: Limits)
    requires LifetimeInv(l, p, trial, owners, lim) && t in l.reserved && (t == trial ==> at == owners)
    ensures LifetimeInv(AfterAppend(l, t, at), p, trial, if t == trial then owners + [p] else owners, lim)
  {
    if t == trial {
      AppendKeeps(l, p, trial, owners, lim);
    } else {
      var l' := AfterAppend(l, t, at);
      assert Unnoted(l', trial) == Unnoted(l, trial);
      OthersKeep(l, l', p, trial, owners, p, lim);
    }
  }

  lemma NoteStep(l: Lifetime, p: Pid, r: Receipt, trial: string, owners: seq<Pid>, lim: Limits)
    requires LifetimeInv(l, p, trial, owners, lim) && l.alive && r in l.unnoted
    ensures LifetimeInv(AfterNote(l, r), p, trial, owners, lim)
  {
    if r.trial == trial {
      NoteKeeps(l, p, trial, r.sequence, owners, lim);
    } else {
      var l' := AfterNote(l, r);
      assert Unnoted(l', trial) == Unnoted(l, trial);
      OthersKeep(l, l', p, trial, owners, p, lim);
    }
  }

  lemma StepKeepsOwner(w: World, e: Event, lim: Limits, trial: string)
    requires Inv(w, lim) && Enabled(w, e, lim)
    ensures var w' := Apply(w, e, lim); LifetimeInv(w'.procs[e.p], e.p, trial, Receipts(w', trial), lim)
  {
    var p, owners := e.p, Receipts(w, trial);
    if e.Start? {
      StartHolds(w, p, trial, lim);
    } else {
      var l := w.procs[p];
      assert LifetimeInv(l, p, trial, owners, lim);
      match e
      case Reserving(_, key) => ReserveKeeps(l, p, key, trial, owners, lim);
      case Appending(_, t) => AppendStep(l, p, t, Receipts(w, t), trial, owners, lim);
      case Abandoning(_, t) => AbandonStep(l, p, t, trial, owners, lim);
      case Noting(_, r) => NoteStep(l, p, r, trial, owners, lim);
      case Crash(_) => CrashKeeps(l, p, trial, owners, lim);
    }
  }

  lemma AbandonStep(l: Lifetime, p: Pid, t: string, trial: string, owners: seq<Pid>, lim: Limits)
    requires LifetimeInv(l, p, trial, owners, lim)
    ensures LifetimeInv(l.(reserved := l.reserved - multiset{t}), p, trial, owners, lim)
  {
    var l' := l.(reserved := l.reserved - multiset{t});
    assert Unnoted(l', trial) == Unnoted(l, trial);
    OthersKeep(l, l', p, trial, owners, p, lim);
  }

  lemma StepKeepsWriters(w: World, e: Event, lim: Limits, trial: string)
    requires Inv(w, lim) && Enabled(w, e, lim)
    ensures var w' := Apply(w, e, lim); forall i | 0 <= i < |Receipts(w', trial)| :: Receipts(w', trial)[i] in w'.procs
  {
    var w' := Apply(w, e, lim);
    assert Receipts(w', trial) == Receipts(w, trial)
           || (e.Appending? && Receipts(w', trial) == Receipts(w, trial) + [e.p]);
  }

  lemma StepKeepsOthers(w: World, e: Event, lim: Limits, trial: string, p: Pid)
    requires Inv(w, lim) && Enabled(w, e, lim) && p in w.procs && p != e.p
    ensures var w' := Apply(w, e, lim); p in w'.procs && LifetimeInv(w'.procs[p], p, trial, Receipts(w', trial), lim)
  {
    assert LifetimeInv(w.procs[p], p, trial, Receipts(w, trial), lim);
    OthersKeep(w.procs[p], w.procs[p], p, trial, Receipts(w, trial), e.p, lim);
  }

  lemma StepKeepsInv(w: World, e: Event, lim: Limits)
    requires Inv(w, lim) && Enabled(w, e, lim)
    ensures Inv(Apply(w, e, lim), lim)
  {
    var w' := Apply(w, e, lim);
    forall p, trial | p in w'.procs ensures LifetimeInv(w'.procs[p], p, trial, Receipts(w', trial), lim) {
      if p == e.p {
        StepKeepsOwner(w, e, lim, trial);
      } else {
        StepKeepsOthers(w, e, lim, trial, p);
      }
    }
    forall trial, i | 0 <= i < |Receipts(w', trial)| ensures Receipts(w', trial)[i] in w'.procs {
      StepKeepsWriters(w, e, lim, trial);
    }
  }

  lemma {:induction false} RunKeepsInv(w: World, es: seq<Event>, lim: Limits, w': World)
    requires Inv(w, lim) && Run(w, es, lim, w')
    ensures Inv(w', lim)
    decreases |es|
  {
    if es != [] {
      StepKeepsInv(w, es[0], lim);
      RunKeepsInv(Apply(w, es[0], lim), es[1..], lim, w');
    }
  }

  lemma EmptyInv(lim: Limits)
    ensures Inv(EMPTY, lim)
  {
  }

  // ----- the cap

  lemma {:induction false} OwnersCover(owners: seq<Pid>, within: set<nat>, ps: set<Pid>, k: nat)
    requires forall q | q in within :: 1 <= q <= |owners| && owners[q - 1] in ps
    requires forall p | p in ps :: |Owned(owners, within, p)| <= k
    ensures |within| <= |ps| * k
    decreases ps
  {
    if ps == {} {
      assert within == {};
    } else {
      var p :| p in ps;
      var mine := Owned(owners, within, p);
      forall other | other in ps - {p} ensures |Owned(owners, within - mine, other)| <= k {
        assert Owned(owners, within - mine, other) == Owned(owners, within, other);
      }
      OwnersCover(owners, within - mine, ps - {p}, k);
      PartSizes(within, mine);
      OneMore(ps, p, k);
    }
  }

  lemma PartSizes(whole: set<nat>, part: set<nat>)
    requires part <= whole
    ensures |whole| == |part| + |whole - part|
  {
    assert whole == part + (whole - part);
  }

  lemma OneMore(ps: set<Pid>, p: Pid, k: nat)
    requires p in ps
    ensures |ps| * k == |ps - {p}| * k + k
  {
    assert |ps| == |ps - {p}| + 1;
  }

  /** The most receipts a trial can hold: what the recorder lets in, or one below
      the cap plus one receipt for every slot any lifetime could hold at once. */
  function Most(lifetimes: nat, lim: Limits): nat {
    var slots := MAX_MIRROR_EVENTS_PER_TRIAL - 1 + lifetimes * lim.outstanding;
    if lifetimes == 0 || lim.outstanding == 0 then 0
    else if lim.envelope <= slots then lim.envelope
    else slots
  }

  /** Whatever the interleaving, no trial ever holds more. */
  lemma ReceiptBound(es: seq<Event>, lim: Limits, w: World, trial: string)
    requires Run(EMPTY, es, lim, w)
    ensures |Receipts(w, trial)| <= Most(|w.procs|, lim)
  {
    EmptyInv(lim);
    RunKeepsInv(EMPTY, es, lim, w);
    SlotBound(w, lim, trial);
    StoreBound(EMPTY, es, lim, w, trial);
    assert Receipts(w, trial) != [] ==> Receipts(w, trial)[0] in w.procs;
  }

  lemma SlotBound(w: World, lim: Limits, trial: string)
    requires Inv(w, lim)
    ensures |Receipts(w, trial)| <= MAX_MIRROR_EVENTS_PER_TRIAL - 1 + |w.procs| * lim.outstanding
  {
    var owners := Receipts(w, trial);
    forall p | p in w.procs.Keys
      ensures |Owned(owners, Range(MAX_MIRROR_EVENTS_PER_TRIAL, |owners|), p)| <= lim.outstanding
    {
      assert CapInv(w.procs[p], p, trial, owners, lim);
    }
    OwnersCover(owners, Range(MAX_MIRROR_EVENTS_PER_TRIAL, |owners|), w.procs.Keys, lim.outstanding);
    assert |w.procs.Keys| == |w.procs|;
  }

  /** The recorder's envelope holds, and without slots nothing is appended. */
  lemma {:induction false} StoreBound(w: World, es: seq<Event>, lim: Limits, w': World, trial: string)
    requires Run(w, es, lim, w') && Inv(w, lim)
    requires |Receipts(w, trial)| <= if lim.outstanding == 0 then 0 else lim.envelope
    ensures |Receipts(w', trial)| <= if lim.outstanding == 0 then 0 else lim.envelope
    decreases |es|
  {
    if es != [] {
      assert es[0].Appending? ==> LifetimeInv(w.procs[es[0].p], es[0].p, es[0].trial, Receipts(w, es[0].trial), lim);
      StepKeepsInv(w, es[0], lim);
      StoreBound(Apply(w, es[0], lim), es[1..], lim, w', trial);
    }
  }

  /** With the recorder's own envelope no trial ever exceeds the cap, however many
      processes and slots share it; without it, one lifetime with one slot at a time
      would not either. */
  lemma NeverAboveCap(es: seq<Event>, lim: Limits, w: World, trial: string)
    requires Run(EMPTY, es, lim, w)
    requires lim.envelope <= MAX_MIRROR_EVENTS_PER_TRIAL || |w.procs| * lim.outstanding <= 1
    ensures |Receipts(w, trial)| <= MAX_MIRROR_EVENTS_PER_TRIAL
  {
    ReceiptBound(es, lim, w, trial);
  }
}
