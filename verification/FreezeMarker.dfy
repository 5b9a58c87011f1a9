/** The judging-freeze marker: how one freezer sets it, and what any number of
    freezers, crashes and Captain clears can do to it. */
module FreezeMarker {
  type Pid = nat

  const MAX_REASON := 200
  const MAX_NAME := 64

  /** What a caller asks for. */
  datatype Args = Args(reason: string, kinds: seq<string>, setBy: string, drill: bool)

  /** What a marker says; `at` is when it was made. */
  datatype Payload = Payload(at: string, reason: string, kinds: set<string>, setBy: string, drill: bool)

  function Clip(s: string, n: nat): (r: string)
    ensures |r| <= n && r <= s && (|s| <= n ==> r == s)
  {
    if |s| <= n then s else s[..n]
  }

  predicate Bounded(p: Payload) {
    |p.reason| <= MAX_REASON && |p.setBy| <= MAX_NAME && forall k | k in p.kinds :: |k| <= MAX_NAME
  }

  function MakePayload(at: string, args: Args): Payload {
    Payload(at, Clip(args.reason, MAX_REASON), set k | k in args.kinds :: Clip(k, MAX_NAME), Clip(args.setBy, MAX_NAME), args.drill)
  }

  /** Whatever was asked for, the payload is within the bounds, says the start of
      it, and says all of it where that fits. */
  lemma PayloadClips(at: string, args: Args)
    ensures var p := MakePayload(at, args);
            && Bounded(p) && p.reason <= args.reason && p.setBy <= args.setBy
            && (|args.reason| <= MAX_REASON ==> p.reason == args.reason)
            && (forall k | k in p.kinds :: exists raw :: raw in args.kinds && k <= raw)
            && (forall raw | raw in args.kinds && |raw| <= MAX_NAME :: raw in p.kinds)
  {
    var p := MakePayload(at, args);
    forall k | k in p.kinds ensures exists raw :: raw in args.kinds && k <= raw {
      var raw :| raw in args.kinds && k == Clip(raw, MAX_NAME);
    }
    forall raw | raw in args.kinds && |raw| <= MAX_NAME ensures raw in p.kinds {
      assert Clip(raw, MAX_NAME) == raw;
    }
  }

  /** The marker path. `author` is the freezer whose rename put it there. */
  datatype Marker =
    | Absent
    | Present(content: Payload, author: Pid, immutable: bool)

  /** What `lstat` of the path can answer. Only a missing entry reads unfrozen. */
  datatype Lstat = NoEntry | Entry | OtherError

  predicate ReadsFrozen(answer: Lstat) {
    answer != NoEntry
  }

  function LstatOf(marker: Marker): Lstat {
    if marker.Absent? then NoEntry else Entry
  }

  // ----- the protocol, one system call at a time

  datatype Stage =
    | Started     // before the presence check
    | Checked     // found nothing, temporary file not yet made
    | Opened      // temporary file made, not yet complete
    | Written     // temporary file complete, not yet renamed
    | Settled     // renamed, or found another marker in place
    | Failing     // an error is on its way out
    | Cleaned     // temporary file dealt with, flag not yet set
    | Returned
    | Raised

  /** `at` is when the freezer, past its check, made its payload. */
  datatype Freezer = Freezer(stage: Stage, args: Args, at: string)

  function PayloadOf(f: Freezer): Payload {
    MakePayload(f.at, f.args)
  }

  /** `temps` are the temporary files by the pid in their name, true when complete. */
  datatype World = World(marker: Marker, temps: map<Pid, (Payload, bool)>, freezers: map<Pid, Freezer>)

  /** `ok` says whether a call that may fail for reasons of its own does not. */
  datatype Event =
    | Start(pid: Pid, args: Args)
    | Check(pid: Pid, at: string)
    | Open(pid: Pid)
    | Write(pid: Pid, ok: bool)
    | Rename(pid: Pid, ok: bool)
    | Cleanup(pid: Pid, ok: bool)
    | Protect(pid: Pid, ok: bool)
    | Crash(pid: Pid)
    | Lift
    | Unlink

  predicate At(w: World, pid: Pid, stage: Stage) {
    pid in w.freezers && w.freezers[pid].stage == stage
  }

  /** A pid is used by one process at a time, and may be used again after it. */
  predicate Enabled(w: World, e: Event) {
    match e
    case Start(pid, _) => pid !in w.freezers
    case Check(pid, _) => At(w, pid, Started)
    case Open(pid) => At(w, pid, Checked)
    case Write(pid, _) => At(w, pid, Opened) && pid in w.temps
    case Rename(pid, _) => At(w, pid, Written) && pid in w.temps
    case Cleanup(pid, _) => At(w, pid, Settled) || At(w, pid, Failing)
    case Protect(pid, _) => At(w, pid, Cleaned)
    case Crash(pid) => pid in w.freezers
    case Lift => true
    case Unlink => true
  }

  function To(w: World, pid: Pid, stage: Stage): World
    requires pid in w.freezers
  {
    w.(freezers := w.freezers[pid := w.freezers[pid].(stage := stage)])
  }

  function Flagged(marker: Marker, immutable: bool): Marker {
    if marker.Absent? then marker else marker.(immutable := immutable)
  }

  function Apply(w: World, e: Event): World
    requires Enabled(w, e)
  {
    match e
    case Start(pid, args) => w.(freezers := w.freezers[pid := Freezer(Started, args, "")])
    case Check(pid, at) =>
      var stage := if ReadsFrozen(LstatOf(w.marker)) then Returned else Checked;
      w.(freezers := w.freezers[pid := Freezer(stage, w.freezers[pid].args, at)])
    case Open(pid) =>
      // an existing file of that name is an error outside the cleanup block
      if pid in w.temps then To(w, pid, Raised)
      else To(w, pid, Opened).(temps := w.temps[pid := (PayloadOf(w.freezers[pid]), false)])
    case Write(pid, ok) =>
      if ok then To(w, pid, Written).(temps := w.temps[pid := (PayloadOf(w.freezers[pid]), true)])
      else To(w, pid, Failing)
    case Rename(pid, ok) =>
      if ok && !(w.marker.Present? && w.marker.immutable) then
        To(w, pid, Settled).(marker := Present(w.temps[pid].0, pid, false), temps := w.temps - {pid})
      else To(w, pid, if ReadsFrozen(LstatOf(w.marker)) then Settled else Failing)
    case Cleanup(pid, ok) =>
      var next := To(w, pid, if At(w, pid, Settled) then Cleaned else Raised);
      if ok then next.(temps := w.temps - {pid}) else next
    case Protect(pid, ok) =>
      To(w, pid, Returned).(marker := if ok then Flagged(w.marker, true) else w.marker)
    case Crash(pid) => w.(freezers := w.freezers - {pid})
    case Lift => w.(marker := Flagged(w.marker, false))
    case Unlink => if w.marker.Present? && w.marker.immutable then w else w.(marker := Absent)
  }

  const UNFROZEN := World(Absent, map[], map[])

  ghost predicate Follows(trace: seq<World>, events: seq<Event>) {
    && |trace| == |events| + 1
    && forall i | 0 <= i < |events| :: Enabled(trace[i], events[i]) && trace[i + 1] == Apply(trace[i], events[i])
  }

  // ----- the marker is whole

  /** A freezer was started with some arguments and passed its check at some time,
      and this is what it made of them. */
  ghost predicate Makes(events: seq<Event>, p: Payload) {
    exists i, j :: 0 <= i < j < |events| && events[i].Start? && events[j].Check? && events[i].pid == events[j].pid
      && p == MakePayload(events[j].at, events[i].args)
  }

  /** What was started so far, and what was made of it. */
  ghost function Begun(events: seq<Event>): iset<(Pid, Args)> {
    iset i | 0 <= i < |events| && events[i].Start? :: (events[i].pid, events[i].args)
  }

  ghost function Made(events: seq<Event>): iset<Payload> {
    iset p | Makes(events, p)
  }

  lemma StartBegins(events: seq<Event>, e: Event)
    ensures Begun(events) <= Begun(events + [e])
    ensures e.Start? ==> (e.pid, e.args) in Begun(events + [e])
  {
    var more := events + [e];
    assert more[|events|] == e;
    forall b | b in Begun(events) ensures b in Begun(more) {
      var i :| 0 <= i < |events| && events[i].Start? && b == (events[i].pid, events[i].args);
      assert more[i] == events[i];
    }
  }

  lemma CheckMakes(events: seq<Event>, e: Event)
    ensures Made(events) <= Made(events + [e])
    ensures e.Check? ==> forall args | (e.pid, args) in Begun(events) :: MakePayload(e.at, args) in Made(events + [e])
  {
    var more := events + [e];
    assert forall i | 0 <= i < |events| :: more[i] == events[i];
    assert more[|events|] == e;
    forall p | Makes(events, p) ensures Makes(more, p) {
      var i, j :| 0 <= i < j < |events| && events[i].Start? && events[j].Check? && events[i].pid == events[j].pid
        && p == MakePayload(events[j].at, events[i].args);
      assert more[i].Start? && more[j].Check? && more[i].pid == more[j].pid && p == MakePayload(more[j].at, more[i].args);
    }
    if e.Check? {
      forall args | (e.pid, args) in Begun(events) ensures Makes(more, MakePayload(e.at, args)) {
        var i :| 0 <= i < |events| && events[i].Start? && (e.pid, args) == (events[i].pid, events[i].args);
        assert more[i].Start? && more[|events|].Check? && more[i].pid == more[|events|].pid;
      }
    }
  }

  ghost predicate FreezerWhole(f: Freezer, pid: Pid, temps: map<Pid, (Payload, bool)>, begun: iset<(Pid, Args)>, made: iset<Payload>) {
    && (pid, f.args) in begun
    && (f.stage != Started ==> PayloadOf(f) in made)
    && (f.stage == Opened ==> pid in temps)
    && (f.stage == Written ==> pid in temps && temps[pid] == (PayloadOf(f), true))
  }

  /** Temporary files of freezers at work hold what those freezers write; only a
      complete one reaches the marker. */
  ghost predicate Whole(w: World, begun: iset<(Pid, Args)>, made: iset<Payload>) {
    && (w.marker.Present? ==> w.marker.content in made)
    && forall pid | pid in w.freezers :: FreezerWhole(w.freezers[pid], pid, w.temps, begun, made)
  }

  predicate ActsFor(e: Event, pid: Pid) {
    !e.Lift? && !e.Unlink? && e.pid == pid
  }

  lemma OthersUntouched(w: World, e: Event, pid: Pid)
    requires Enabled(w, e) && !ActsFor(e, pid) && pid in Apply(w, e).freezers
    ensures pid in w.freezers && Apply(w, e).freezers[pid] == w.freezers[pid]
    ensures pid in w.temps ==> pid in Apply(w, e).temps && Apply(w, e).temps[pid] == w.temps[pid]
  {
  }

  lemma ActorKeepsWhole(w: World, e: Event, pid: Pid, begun: iset<(Pid, Args)>, made: iset<Payload>)
    requires Enabled(w, e) && ActsFor(e, pid) && pid in Apply(w, e).freezers
    requires if e.Start? then (pid, e.args) in begun else FreezerWhole(w.freezers[pid], pid, w.temps, begun, made)
    requires e.Check? ==> MakePayload(e.at, w.freezers[pid].args) in made
    ensures FreezerWhole(Apply(w, e).freezers[pid], pid, Apply(w, e).temps, begun, made)
  {
  }

  lemma MarkerKeepsWhole(w: World, e: Event, begun: iset<(Pid, Args)>, made: iset<Payload>)
    requires Whole(w, begun, made) && Enabled(w, e) && Apply(w, e).marker.Present?
    ensures Apply(w, e).marker.content in made
  {
    if e.Rename? {
      assert FreezerWhole(w.freezers[e.pid], e.pid, w.temps, begun, made);
    }
  }

  lemma StepKeepsWhole(w: World, e: Event, begun: iset<(Pid, Args)>, made: iset<Payload>,
                       begun': iset<(Pid, Args)>, made': iset<Payload>)
    requires Whole(w, begun, made) && Enabled(w, e)
    requires begun <= begun' && (e.Start? ==> (e.pid, e.args) in begun')
    requires made <= made' && (e.Check? ==> MakePayload(e.at, w.freezers[e.pid].args) in made')
    ensures Whole(Apply(w, e), begun', made')
  {
    var w' := Apply(w, e);
    if w'.marker.Present? {
      MarkerKeepsWhole(w, e, begun, made);
    }
    forall pid | pid in w'.freezers ensures FreezerWhole(w'.freezers[pid], pid, w'.temps, begun', made') {
      if pid in w.freezers {
        assert FreezerWhole(w.freezers[pid], pid, w.temps, begun, made);
        assert FreezerWhole(w.freezers[pid], pid, w.temps, begun', made');
      }
      if ActsFor(e, pid) {
        ActorKeepsWhole(w, e, pid, begun', made');
      } else {
        OthersUntouched(w, e, pid);
      }
    }
  }

  lemma {:induction false} RunIsWhole(trace: seq<World>, events: seq<Event>)
    requires Follows(trace, events) && trace[0] == UNFROZEN
    ensures Whole(trace[|events|], Begun(events), Made(events))
  {
    if events != [] {
      var n := |events| - 1;
      var past, e := events[..n], events[n];
      RunIsWhole(trace[..n + 1], past);
      assert trace[..n + 1][n] == trace[n] && past + [e] == events;
      StartBegins(past, e);
      CheckMakes(past, e);
      StepKeepsWhole(trace[n], e, Begun(past), Made(past), Begun(events), Made(events));
    }
  }

  /** Whatever freezers race and wherever they crash, the marker is absent or the
      complete payload one of them made of its arguments, which is within the
      bounds whatever the arguments were. */
  lemma MarkerIsWhole(trace: seq<World>, events: seq<Event>)
    requires Follows(trace, events) && trace[0] == UNFROZEN
    ensures trace[|events|].marker.Present? ==>
              Makes(events, trace[|events|].marker.content) && Bounded(trace[|events|].marker.content)
  {
    RunIsWhole(trace, events);
    var marker := trace[|events|].marker;
    if marker.Present? {
      var i, j :| 0 <= i < j < |events| && events[i].Start? && events[j].Check? && events[i].pid == events[j].pid
        && marker.content == MakePayload(events[j].at, events[i].args);
      PayloadClips(events[j].at, events[i].args);
    }
  }

  // ----- presence and content

  /** Only unlinking a mutable marker unfreezes. */
  lemma UnfreezesExactly(w: World, e: Event)
    requires w.marker.Present? && Enabled(w, e)
    ensures Apply(w, e).marker.Absent? <==> e == Unlink && !w.marker.immutable
  {
  }

  /** A standing marker changes content exactly when a freezer that has passed its
      check renames over it while it is mutable, with something else to say. */
  lemma ContentChangesExactly(w: World, e: Event)
    requires w.marker.Present? && Enabled(w, e) && Apply(w, e).marker.Present?
    ensures (Apply(w, e).marker.content, Apply(w, e).marker.author) != (w.marker.content, w.marker.author)
            <==> && e.Rename? && e.ok && !w.marker.immutable
                 && (w.temps[e.pid].0, e.pid) != (w.marker.content, w.marker.author)
  {
  }

  /** Freezers past their check that may still rename. */
  ghost predicate InFlight(w: World, pid: Pid) {
    pid in w.freezers && w.freezers[pid].stage in {Checked, Opened, Written}
  }

  ghost predicate NoUnlink(events: seq<Event>) {
    forall i | 0 <= i < |events| :: !events[i].Unlink?
  }

  /** Once set, the marker stands until it is unlinked, and only freezers already in
      flight can rename over it: one that checks later leaves it alone. */
  lemma {:induction false} FirstFreezersWin(trace: seq<World>, events: seq<Event>)
    requires Follows(trace, events) && trace[0].marker.Present? && NoUnlink(events)
    ensures trace[|events|].marker.Present?
    ensures trace[|events|].marker.author == trace[0].marker.author || InFlight(trace[0], trace[|events|].marker.author)
    ensures forall pid | InFlight(trace[|events|], pid) :: InFlight(trace[0], pid)
  {
    if events != [] {
      var n := |events| - 1;
      FirstFreezersWin(trace[..n + 1], events[..n]);
      assert trace[..n + 1][n] == trace[n] && trace[..n + 1][0] == trace[0];
      assert Enabled(trace[n], events[n]) && trace[n + 1] == Apply(trace[n], events[n]) && !events[n].Unlink?;
    }
  }

  /** Once the flag is on, nothing but lifting it changes anything about the marker. */
  lemma {:induction false} ProtectedIsFixed(trace: seq<World>, events: seq<Event>)
    requires Follows(trace, events) && trace[0].marker.Present? && trace[0].marker.immutable
    requires forall i | 0 <= i < |events| :: !events[i].Lift?
    ensures trace[|events|].marker == trace[0].marker
  {
    if events != [] {
      var n := |events| - 1;
      ProtectedIsFixed(trace[..n + 1], events[..n]);
      assert trace[..n + 1][n] == trace[n] && trace[..n + 1][0] == trace[0];
      assert Enabled(trace[n], events[n]) && trace[n + 1] == Apply(trace[n], events[n]) && !events[n].Lift?;
    }
  }

  /** A freezer that has returned, or is about to, has a marker behind it. */
  ghost predicate ReturnedMeansFrozen(w: World) {
    forall pid | pid in w.freezers && w.freezers[pid].stage in {Settled, Cleaned, Returned} :: w.marker.Present?
  }

  lemma {:induction false} ReturningFreezes(trace: seq<World>, events: seq<Event>)
    requires Follows(trace, events) && trace[0] == UNFROZEN && NoUnlink(events)
    ensures ReturnedMeansFrozen(trace[|events|])
  {
    if events != [] {
      var n := |events| - 1;
      ReturningFreezes(trace[..n + 1], events[..n]);
      assert trace[..n + 1][n] == trace[n] && trace[..n + 1][0] == trace[0];
      assert Enabled(trace[n], events[n]) && trace[n + 1] == Apply(trace[n], events[n]) && !events[n].Unlink?;
    }
  }

  /** A freezer whose write fails, cleaned up after, raises: its temporary file is gone
      and the marker is as it was. So does one whose rename fails over no marker. */
  lemma FailureRaises(w: World, pid: Pid)
    requires At(w, pid, Failing)
    ensures Enabled(w, Cleanup(pid, true))
    ensures var after := Apply(w, Cleanup(pid, true));
            At(after, pid, Raised) && after.temps == w.temps - {pid} && after.marker == w.marker
  {
  }

  /** A failed write or rename leads there; a rename that fails with a marker standing
      counts as settled. */
  lemma FailuresExactly(w: World, e: Event)
    requires Enabled(w, e) && (e.Write? || e.Rename?)
    ensures At(Apply(w, e), e.pid, Failing) <==> !e.ok && (e.Write? || w.marker.Absent?)
    ensures At(Apply(w, e), e.pid, Settled) <==> e.Rename? && (e.ok || w.marker.Present?)
  {
  }

  // ----- limits

  /** First-freeze-wins holds for freezers that check one after the other, not for
      two that check before either renames: the later rename stands. */
  lemma LaterRenameCanStand(a: Args, b: Args, at: string)
    returns (w: World)
    ensures w == Apply(Apply(BothWritten(a, b, at), Rename(0, true)), Rename(1, true))
    ensures Apply(BothWritten(a, b, at), Rename(0, true)).marker == Present(MakePayload(at, a), 0, false)
    ensures w.marker == Present(MakePayload(at, b), 1, false)
  {
    w := Apply(Apply(BothWritten(a, b, at), Rename(0, true)), Rename(1, true));
  }

  /** Both freezers have checked, at the same time, opened and written. */
  function BothWritten(a: Args, b: Args, at: string): (w: World)
    ensures w.marker.Absent? && At(w, 0, Written) && At(w, 1, Written)
    ensures w.temps == map[0 := (MakePayload(at, a), true), 1 := (MakePayload(at, b), true)]
  {
    var w0 := Apply(Apply(UNFROZEN, Start(0, a)), Start(1, b));
    var w1 := Apply(Apply(w0, Check(0, at)), Check(1, at));
    var w2 := Apply(Apply(w1, Open(0)), Open(1));
    Apply(Apply(w2, Write(0, true)), Write(1, true))
  }

  /** The steps of one freezer that is not disturbed and whose calls succeed. */
  function Alone(w: World, pid: Pid, args: Args, at: string): World
    requires pid !in w.freezers
  {
    var checked := Apply(Apply(w, Start(pid, args)), Check(pid, at));
    if At(checked, pid, Returned) then checked
    else
      var made := Apply(checked, Open(pid));
      if At(made, pid, Raised) then made else Finished(made, pid)
  }

  function Finished(w: World, pid: Pid): World
    requires At(w, pid, Opened) && pid in w.temps
  {
    var renamed := Renamed(w, pid);
    Apply(Apply(renamed, Cleanup(pid, true)), Protect(pid, true))
  }

  function Renamed(w: World, pid: Pid): (r: World)
    requires At(w, pid, Opened) && pid in w.temps
    ensures At(r, pid, Settled) || At(r, pid, Failing)
    ensures w.marker.Absent? ==>
              && At(r, pid, Settled) && r.temps == w.temps - {pid}
              && r.marker == Present(PayloadOf(w.freezers[pid]), pid, false)
  {
    Apply(Apply(w, Write(pid, true)), Rename(pid, true))
  }

  lemma FinishedLeaves(w: World, pid: Pid)
    requires At(w, pid, Opened) && pid in w.temps && w.marker.Absent?
    ensures Finished(w, pid).marker == Present(PayloadOf(w.freezers[pid]), pid, true)
    ensures Finished(w, pid).temps == w.temps - {pid} && At(Finished(w, pid), pid, Returned)
  {
    assert Renamed(w, pid).temps - {pid} == w.temps - {pid};
  }

  /** An undisturbed freezer leaves judging frozen exactly when it already was or no
      earlier process with the same pid left its temporary file behind; such a
      leftover makes it raise and freeze nothing. */
  lemma AloneFreezesExactly(w: World, pid: Pid, args: Args, at: string)
    requires pid !in w.freezers
    ensures Alone(w, pid, args, at).marker.Present? <==> w.marker.Present? || pid !in w.temps
    ensures Alone(w, pid, args, at).marker
            == if w.marker.Absent? && pid !in w.temps then Present(MakePayload(at, args), pid, true) else w.marker
    ensures Alone(w, pid, args, at).temps == w.temps
    ensures At(Alone(w, pid, args, at), pid, Raised) <==> w.marker.Absent? && pid in w.temps
  {
    if w.marker.Absent? && pid !in w.temps {
      var made := Apply(Apply(Apply(w, Start(pid, args)), Check(pid, at)), Open(pid));
      FinishedLeaves(made, pid);
      assert made.temps - {pid} == w.temps;
    }
  }

  /** A crash leaves such a file, for good: only a later cleanup under that pid, which
      needs an open that fails, would take it away. */
  lemma CrashLeavesTemp(args: Args, at: string, pid: Pid, next: Args, later: string)
    ensures var made := Apply(Apply(Apply(UNFROZEN, Start(pid, args)), Check(pid, at)), Open(pid));
            var crashed := Apply(made, Crash(pid));
            && crashed.marker.Absent? && pid !in crashed.freezers && pid in crashed.temps
            && Alone(crashed, pid, next, later).marker.Absent?
  {
    var made := Apply(Apply(Apply(UNFROZEN, Start(pid, args)), Check(pid, at)), Open(pid));
    AloneFreezesExactly(Apply(made, Crash(pid)), pid, next, later);
  }

  // ----- the same steps as the program takes them

  datatype Outcome = Ok | Error

  datatype Clearing = NothingToClear | NoStore | TokenRefused | UnlinkFailed | Cleared

  /** The disk and the outcome are what the undisturbed run leaves. */
  ghost predicate AsAlone(w: World, pid: Pid, args: Args, at: string, marker: Marker, temps: map<Pid, (Payload, bool)>, outcome: Outcome)
    requires pid !in w.freezers
  {
    var after := Alone(w, pid, args, at);
    marker == after.marker && temps == after.temps && (outcome == Error <==> At(after, pid, Raised))
  }

  lemma AloneIs(w: World, pid: Pid, args: Args, at: string)
    requires pid !in w.freezers
    ensures w.marker.Present? ==> AsAlone(w, pid, args, at, w.marker, w.temps, Ok)
    ensures w.marker.Absent? && pid in w.temps ==> AsAlone(w, pid, args, at, w.marker, w.temps, Error)
    ensures w.marker.Absent? && pid !in w.temps ==>
              AsAlone(w, pid, args, at, Present(MakePayload(at, args), pid, true), w.temps, Ok)
  {
    AloneFreezesExactly(w, pid, args, at);
  }

  class Disk {
    var marker: Marker
    var temps: map<Pid, (Payload, bool)>

    constructor ()
      ensures marker == Absent && temps == map[]
    {
      marker, temps := Absent, map[];
    }

    /** One freeze, undisturbed, with calls that succeed. */
    method Freeze(pid: Pid, args: Args, at: string) returns (outcome: Outcome)
      modifies this
      ensures AsAlone(World(old(marker), old(temps), map[]), pid, args, at, marker, temps, outcome)
    {
      ghost var before := World(marker, temps, map[]);
      if marker.Present? {
        AloneIs(before, pid, args, at);
        return Ok;
      }
      var payload := MakePayload(at, args);
      if pid in temps {
        AloneIs(before, pid, args, at);
        return Error;
      }
      temps := temps[pid := (payload, false)];
      temps := temps[pid := (payload, true)];
      marker := Present(temps[pid].0, pid, false);
      temps := temps - {pid};
      assert temps == old(temps);
      marker := Flagged(marker, true);
      AloneIs(before, pid, args, at);
      outcome := Ok;
    }

    /** The Captain's clear. `lifts` and `unlinks` say whether the two calls work
        when the file system alone decides; the token is judged elsewhere. The
        marker goes only for an accepted token over an existing store, every
        refusal before that leaves it as it was, and a clear that fails at the last
        call leaves it standing with its protection lifted. */
    method CaptainClear(storeIsThere: bool, tokenAccepted: bool, lifts: bool, unlinks: bool) returns (outcome: Clearing)
      modifies this`marker
      ensures marker.Absent? <==>
                (old(marker).Absent? || (storeIsThere && tokenAccepted && unlinks && (lifts || !old(marker).immutable)))
      ensures outcome == NothingToClear <==> old(marker).Absent?
      ensures outcome == Cleared <==> old(marker).Present? && marker.Absent?
      ensures outcome == NoStore <==> old(marker).Present? && !storeIsThere
      ensures outcome == TokenRefused <==> old(marker).Present? && storeIsThere && !tokenAccepted
      ensures outcome in {NoStore, TokenRefused} ==> marker == old(marker)
      ensures outcome == UnlinkFailed ==> marker == if lifts then Flagged(old(marker), false) else old(marker)
    {
      if marker.Absent? {
        return NothingToClear;
      }
      if !storeIsThere {
        return NoStore;
      }
      if !tokenAccepted {
        return TokenRefused;
      }
      if lifts {
        marker := Flagged(marker, false);
      }
      if !unlinks || marker.immutable {
        return UnlinkFailed;
      }
      marker := Absent;
      outcome := Cleared;
    }
  }
}
