/** The broker's serve loop: one connection at a time, logged before answered,
    and what that gives over every run. */
module BrokerRuns {
  import opened Options
  import RateLimiter
  import opened MintedMemory
  import opened SigningBroker

  datatype Read = Parsed(request: Json) | ReadRefused(code: string) | ReadFailed

  /** One connection: the attested uid, what could be read from it, the clock,
      and whether the log row could be written. */
  datatype Input = Input(uid: Option<int>, read: Read, now: real, logOk: bool)

  datatype LogRow = LogRow(uid: Option<int>, identity: Option<string>, outcome: string, verb: Option<string>, ids: Fields)

  datatype Wire = Ok(reply: Reply) | Refused(code: string)

  datatype Emission = Logged(row: LogRow) | Sent(wire: Wire)

  /** `minting`: what the connection committed the memory to. */
  datatype Served = Served(state: State, emitted: seq<Emission>, minting: Option<Entry>, stopped: bool)

  function Loggable(v: Json): bool {
    v.Str? || v.Int?
  }

  function Row(cfg: Config, uid: Option<int>, read: Read, outcome: string): LogRow {
    var identity := match IdentityFor(cfg, uid) case Pass(name) => Some(name) case Fail(_) => None;
    if read.Parsed? && read.request.Obj? then
      var f := read.request.fields;
      LogRow(uid, identity, outcome,
             if Get(f, "verb").Str? then Some(Get(f, "verb").s) else None,
             map name | name in {"trial_id", "sequence", "event_hash", "purpose"} && Loggable(Get(f, name)) :: Get(f, name))
    else LogRow(uid, identity, outcome, None, map[])
  }

  function ToWire(outcome: Outcome): Wire
    requires !outcome.Raised?
  {
    match outcome case Answer(reply) => Ok(reply) case Refusal(code) => Refused(code)
  }

  function OutcomeCode(wire: Wire): string {
    match wire case Ok(_) => "ok" case Refused(code) => code
  }

  function LogThenSend(cfg: Config, in_: Input, wire: Wire): seq<Emission> {
    if in_.logOk then [Logged(Row(cfg, in_.uid, in_.read, OutcomeCode(wire))), Sent(wire)]
    else [Sent(Refused("log_unavailable"))]
  }

  function Connection(cfg: Config, st: State, in_: Input): Served {
    match in_.read
    case ReadRefused(code) => Served(st, LogThenSend(cfg, in_, Refused(code)), None, false)
    case ReadFailed => Served(st, LogThenSend(cfg, in_, Refused("io_error")), None, false)
    case Parsed(request) =>
      var h := Handle(cfg, st, in_.uid, request, in_.now);
      if h.outcome.Raised? then Served(h.state, [], h.minting, true)
      else Served(h.state, LogThenSend(cfg, in_, ToWire(h.outcome)), h.minting, false)
  }

  /** What a connection says on the wire: the answer or the refusal, whatever kept the
      request from being read, and nothing when the handler raised. */
  lemma EmissionsExactly(cfg: Config, st: State, in_: Input)
    ensures var s := Connection(cfg, st, in_);
            var h := if in_.read.Parsed? then Handle(cfg, st, in_.uid, in_.read.request, in_.now) else Handled(st, Raised, None);
            var raised := in_.read.Parsed? && h.outcome == Raised;
            && s.state == h.state && s.minting == h.minting && s.stopped == raised
            && (raised ==> s.emitted == [])
            && (!raised && !in_.logOk ==> s.emitted == [Sent(Refused("log_unavailable"))])
            && (!raised && in_.logOk ==> |s.emitted| == 2 && s.emitted[0].Logged? && s.emitted[1].Sent?)
            && (!raised && in_.logOk ==>
                  var wire, row := s.emitted[1].wire, s.emitted[0].row;
                  && (in_.read.ReadFailed? ==> wire == Refused("io_error"))
                  && (in_.read.ReadRefused? ==> wire == Refused(in_.read.code))
                  && (in_.read.Parsed? && h.outcome.Answer? ==> wire == Ok(h.outcome.reply))
                  && (in_.read.Parsed? && h.outcome.Refusal? ==> wire == Refused(h.outcome.code))
                  && row == Row(cfg, in_.uid, in_.read, if wire.Ok? then "ok" else wire.code))
  {
  }

  /** What a log row says: who, under which name, with what outcome, and of a request
      that could be read its verb and the four fields that are text or whole numbers. */
  lemma RowExactly(cfg: Config, uid: Option<int>, read: Read, outcome: string, name: string)
    ensures var row := Row(cfg, uid, read, outcome);
            && row.uid == uid && row.outcome == outcome
            && (row.identity == Some(name) <==> uid.Some? && uid.value in cfg.identities && cfg.identities[uid.value] == name)
            && (row.identity.None? <==> uid.None? || uid.value !in cfg.identities)
            && var f := if read.Parsed? && read.request.Obj? then read.request.fields else map[];
               && (row.verb == Some(name) <==> "verb" in f && f["verb"] == Str(name))
               && (name in row.ids <==>
                     name in {"trial_id", "sequence", "event_hash", "purpose"} && name in f && (f[name].Str? || f[name].Int?))
               && (name in row.ids ==> row.ids[name] == f[name])
  {
  }

  /** Everything the loop emits over `inputs`, until an exception stops it. */
  function Trace(cfg: Config, st: State, inputs: seq<Input>): seq<Emission>
    decreases |inputs|
  {
    if inputs == [] then []
    else
      var s := Connection(cfg, st, inputs[0]);
      if s.stopped then s.emitted else s.emitted + Trace(cfg, s.state, inputs[1..])
  }

  method ServeOne(core: BrokerCore, in_: Input) returns (emitted: seq<Emission>, stopped: bool)
    requires core.Valid()
    modifies core.limiter, core.minted
    ensures core.Valid()
    ensures var s := Connection(core.cfg, old(core.Abstract()), in_);
            core.Abstract() == s.state && emitted == s.emitted && stopped == s.stopped
  {
    var wire;
    match in_.read {
      case ReadRefused(code) => wire := Refused(code);
      case ReadFailed => wire := Refused("io_error");
      case Parsed(request) =>
        var outcome := core.HandleRequest(in_.uid, request, in_.now);
        if outcome.Raised? {
          return [], true;
        }
        wire := ToWire(outcome);
    }
    emitted := [];
    if in_.logOk {
      emitted := emitted + [Logged(Row(core.cfg, in_.uid, in_.read, OutcomeCode(wire)))];
    } else {
      wire := Refused("log_unavailable");
    }
    emitted := emitted + [Sent(wire)];
    stopped := false;
  }

  lemma TraceStep(cfg: Config, st: State, inputs: seq<Input>, i: nat)
    requires i < |inputs|
    ensures var s := Connection(cfg, st, inputs[i]);
            Trace(cfg, st, inputs[i..])
            == if s.stopped then s.emitted else s.emitted + Trace(cfg, s.state, inputs[i + 1..])
  {
    assert inputs[i..][0] == inputs[i] && inputs[i..][1..] == inputs[i + 1..];
  }

  method Serve(core: BrokerCore, inputs: seq<Input>) returns (trace: seq<Emission>)
    requires core.Valid()
    modifies core.limiter, core.minted
    ensures core.Valid()
    ensures trace == Trace(core.cfg, old(core.Abstract()), inputs)
  {
    trace := [];
    var i := 0;
    ghost var whole := Trace(core.cfg, core.Abstract(), inputs);
    assert inputs[0..] == inputs;
    while i < |inputs|
      invariant i <= |inputs| && core.Valid()
      invariant whole == trace + Trace(core.cfg, core.Abstract(), inputs[i..])
    {
      TraceStep(core.cfg, core.Abstract(), inputs, i);
      ghost var before := trace;
      var emitted, stopped := ServeOne(core, inputs[i]);
      trace := trace + emitted;
      if stopped {
        return;
      }
      Regroup(before, emitted, Trace(core.cfg, core.Abstract(), inputs[i + 1..]));
      i := i + 1;
    }
  }

  lemma Regroup(a: seq<Emission>, b: seq<Emission>, c: seq<Emission>)
    ensures a + (b + c) == (a + b) + c
  {
  }

  // ----- a signature is in the log before it is on the wire

  /** `row` records that a known identity was signed `mac`; for an event
      signature the row alone determines what was signed. */
  ghost predicate Records(cfg: Config, row: LogRow, mac: string) {
    && row.outcome == "ok"
    && row.uid.Some? && row.uid.value in cfg.identities && row.identity == Some(cfg.identities[row.uid.value])
    && row.verb in {Some("sign-event"), Some("sign-object")}
    && (row.verb == Some("sign-event") ==>
          && "trial_id" in row.ids && row.ids["trial_id"].Str?
          && "sequence" in row.ids && row.ids["sequence"].Int?
          && "event_hash" in row.ids && row.ids["event_hash"].Str?
          && row.ids["sequence"].n > 0
          && mac == cfg.mac(EventMessage(Entry(Key(row.ids["trial_id"].s, row.ids["sequence"].n), row.ids["event_hash"].s))))
    && (row.verb == Some("sign-object") ==> "purpose" in row.ids && row.ids["purpose"] == Str("anchor"))
  }

  ghost predicate LoggedFirst(cfg: Config, trace: seq<Emission>) {
    forall i | 0 <= i < |trace| && trace[i].Sent? && trace[i].wire.Ok? && trace[i].wire.reply.Signature? ::
      i > 0 && trace[i - 1].Logged? && Records(cfg, trace[i - 1].row, trace[i].wire.reply.mac)
  }

  lemma RowRecords(cfg: Config, st: State, uid: Option<int>, request: Json, now: real, mac: string)
    requires Handle(cfg, st, uid, request, now).outcome == Answer(Signature(mac))
    ensures Records(cfg, Row(cfg, uid, Parsed(request), "ok"), mac)
  {
    SignsOnlyFrozenShapes(cfg, st, uid, request, now, mac);
  }

  lemma PairLogsFirst(cfg: Config, in_: Input, wire: Wire)
    requires wire.Ok? && wire.reply.Signature? ==> Records(cfg, Row(cfg, in_.uid, in_.read, "ok"), wire.reply.mac)
    ensures LoggedFirst(cfg, LogThenSend(cfg, in_, wire))
  {
  }

  lemma ConnectionLogsFirst(cfg: Config, st: State, in_: Input)
    ensures LoggedFirst(cfg, Connection(cfg, st, in_).emitted)
  {
    match in_.read
    case ReadRefused(code) => PairLogsFirst(cfg, in_, Refused(code));
    case ReadFailed => PairLogsFirst(cfg, in_, Refused("io_error"));
    case Parsed(request) =>
      var outcome := Handle(cfg, st, in_.uid, request, in_.now).outcome;
      if outcome.Answer? && outcome.reply.Signature? {
        RowRecords(cfg, st, in_.uid, request, in_.now, outcome.reply.mac);
      }
      if !outcome.Raised? {
        PairLogsFirst(cfg, in_, ToWire(outcome));
      }
  }

  /** Over every run, whatever fails: no signature leaves the broker without the
      log row that records it having been written just before. */
  lemma {:induction false} SignaturesLoggedFirst(cfg: Config, st: State, inputs: seq<Input>)
    ensures LoggedFirst(cfg, Trace(cfg, st, inputs))
    decreases |inputs|
  {
    if inputs != [] {
      var s := Connection(cfg, st, inputs[0]);
      ConnectionLogsFirst(cfg, st, inputs[0]);
      if !s.stopped {
        SignaturesLoggedFirst(cfg, s.state, inputs[1..]);
        var rest := Trace(cfg, s.state, inputs[1..]);
        assert forall i | 0 <= i < |rest| :: (s.emitted + rest)[|s.emitted| + i] == rest[i];
      }
    }
  }

  // ----- divergence over whole runs

  /** What each connection committed the memory to. */
  function Mintings(cfg: Config, st: State, inputs: seq<Input>): seq<Option<Entry>>
    decreases |inputs|
  {
    if inputs == [] then []
    else
      var s := Connection(cfg, st, inputs[0]);
      [s.minting] + if s.stopped then [] else Mintings(cfg, s.state, inputs[1..])
  }

  lemma ConnectionCommits(cfg: Config, st: State, in_: Input)
    ensures var s := Connection(cfg, st, in_);
            && (s.minting.Some? ==> Accepts(st.minted, s.minting.value))
            && s.state.minted == if s.minting.Some? then Remember(st.minted, s.minting.value, MINTED_MEMORY) else st.minted
  {
    if in_.read.Parsed? {
      OnlyMintingRemembers(cfg, st, in_.uid, in_.read.request, in_.now);
    }
  }

  /** Whatever a run commits the memory to, the memory accepted at the time. */
  lemma {:induction false} RunIsLegal(cfg: Config, st: State, inputs: seq<Input>)
    ensures LegalRun(st.minted, Mintings(cfg, st, inputs), MINTED_MEMORY)
    decreases |inputs|
  {
    if inputs != [] {
      var s := Connection(cfg, st, inputs[0]);
      ConnectionCommits(cfg, st, inputs[0]);
      var rest := if s.stopped then [] else Mintings(cfg, s.state, inputs[1..]);
      assert Mintings(cfg, st, inputs)[1..] == rest;
      if !s.stopped {
        RunIsLegal(cfg, s.state, inputs[1..]);
      }
    }
  }

  /** Over every run from a fresh start: when one (trial, sequence) is committed
      to two different hashes, at least MINTED_MEMORY other keys were committed
      in between. Refused and unanswerable requests count for nothing. */
  lemma ConflictingCommitmentsFarApart(cfg: Config, inputs: seq<Input>, i: nat, j: nat)
    requires var ms := Mintings(cfg, State(map[], []), inputs);
             && i < j < |ms| && ms[i].Some? && ms[j].Some?
             && ms[i].value.key == ms[j].value.key && ms[i].value.hash != ms[j].value.hash
    ensures var ms := Mintings(cfg, State(map[], []), inputs);
            |Keys(Somes(ms[i + 1..j])) - {ms[i].value.key}| >= MINTED_MEMORY
  {
    RunIsLegal(cfg, State(map[], []), inputs);
    ConflictInRun(Mintings(cfg, State(map[], []), inputs), MINTED_MEMORY, i, j);
  }
}
