/** Any number of overlapping relay runs over one outbox, with every request,
    answer, deletion and process free to fail at any point. */
module RelayRuns {
  import opened Options
  import opened Xrange
  import opened Relay
  import Counting

  type Pid = nat

  /** Who talks to whom, and how many rows a run reads at most. */
  datatype Link = Link(thisCabinet: string, peerId: string, receiver: string, batch: nat)

  /** A run has entries still to post, and possibly one acknowledged but not yet
      deleted. */
  datatype Run = Run(pending: seq<Entry>, acknowledged: Option<Entry>)

  /** `queued` is everything ever put in the outbox; `accepted` what the relay saw
      answered queued or delivered; `received` what the receiver turned into
      triggers, from which entry. */
  datatype World = World(outbox: seq<Stored>, queued: seq<Stored>, runs: map<Pid, Run>,
                         accepted: seq<(Entry, Reply)>, received: seq<(Entry, Trigger)>)

  const EMPTY := World([], [], map[], [], [])

  datatype Transport = RequestLost | AnswerLost | Answered

  datatype Event =
    | Enqueue(row: Stored)
    | Start(pid: Pid)
    | Post(pid: Pid, transport: Transport, s: Surroundings)
    | Delete(pid: Pid, done: bool)
    | Crash(pid: Pid)

  function EntryOf(row: Stored): Entry {
    Entry(row.id, FieldMap(row.row, map[]))
  }

  function Without(outbox: seq<Stored>, id: string): (r: seq<Stored>)
    ensures forall row :: row in r <==> row in outbox && row.id != id
  {
    if outbox == [] then []
    else if outbox[0].id == id then Without(outbox[1..], id)
    else [outbox[0]] + Without(outbox[1..], id)
  }

  /** Ids are assigned by the stream, never twice; field names by the writers. */
  ghost predicate Enabled(w: World, e: Event) {
    match e
    case Enqueue(row) => WellFormed(row) && DistinctNames(row.row) && forall q | q in w.queued :: q.id != row.id
    case Start(pid) => pid !in w.runs
    case Post(pid, _, _) => pid in w.runs && w.runs[pid].pending != [] && w.runs[pid].acknowledged.None?
    case Delete(pid, _) => pid in w.runs && w.runs[pid].acknowledged.Some?
    case Crash(pid) => pid in w.runs
  }

  function FirstRows(outbox: seq<Stored>, batch: nat): seq<Stored> {
    if |outbox| <= batch then outbox else outbox[..batch]
  }

  function AnswerTo(transport: Transport, reply: Reply): Answer {
    match transport
    case RequestLost => NotSent
    case AnswerLost => NoAnswer
    case Answered => Result(reply)
  }

  function Apply(link: Link, w: World, e: Event): World
    requires Enabled(w, e)
  {
    match e
    case Enqueue(row) => w.(outbox := w.outbox + [row], queued := w.queued + [row])
    case Start(pid) => w.(runs := w.runs[pid := Run(Read(Text(FirstRows(w.outbox, link.batch))), None)])
    case Post(pid, transport, s) =>
      var entry, pending := w.runs[pid].pending[0], w.runs[pid].pending[1..];
      var outcome := Receive(link.receiver, BuildSendPayload(link.peerId, link.thisCabinet, entry), s);
      var arrived := !transport.RequestLost?;
      var ok := Succeeded(AnswerTo(transport, outcome.reply));
      w.(runs := w.runs[pid := Run(pending, if ok then Some(entry) else None)],
         accepted := if ok then w.accepted + [(entry, outcome.reply)] else w.accepted,
         received := if arrived && outcome.trigger.Some? then w.received + [(entry, outcome.trigger.value)] else w.received)
    case Delete(pid, done) =>
      var run := w.runs[pid];
      w.(runs := w.runs[pid := run.(acknowledged := None)],
         outbox := if done then Without(w.outbox, run.acknowledged.value.id) else w.outbox)
    case Crash(pid) => w.(runs := w.runs - {pid})
  }

  ghost predicate Follows(link: Link, trace: seq<World>, events: seq<Event>) {
    && |trace| == |events| + 1 && trace[0] == EMPTY
    && forall i | 0 <= i < |events| :: Enabled(trace[i], events[i]) && trace[i + 1] == Apply(link, trace[i], events[i])
  }

  // ----- what every step keeps

  /** Rows that may be in the outbox together when a run reads it. */
  ghost predicate Snapshot(link: Link, queued: seq<Stored>, rows: seq<Stored>) {
    |rows| <= link.batch && (forall row | row in rows :: row in queued) && DistinctIds(rows)
  }

  predicate DistinctIds(rows: seq<Stored>) {
    forall i, j | 0 <= i < j < |rows| :: rows[i].id != rows[j].id
  }

  /** The entry was read from the text of some rows queued so far. */
  ghost predicate FromText(link: Link, queued: seq<Stored>, entry: Entry) {
    exists rows :: Snapshot(link, queued, rows) && entry in Read(Text(rows))
  }

  /** `origin` takes in every entry that can be read from rows queued so far. */
  ghost predicate Covers(link: Link, queued: seq<Stored>, origin: iset<Entry>) {
    forall rows | Snapshot(link, queued, rows) :: Among(Read(Text(rows)), origin)
  }

  ghost predicate Among(entries: seq<Entry>, origin: iset<Entry>) {
    forall entry | entry in entries :: entry in origin
  }

  /** What the receiver asks of a message before anything else. */
  predicate Sendable(link: Link, entry: Entry) {
    var payload := BuildSendPayload(link.peerId, link.thisCabinet, entry);
    payload.toCabinet != "" && payload.fromAgent != "" && payload.content != ""
  }

  ghost predicate QueueInv(w: World) {
    && (forall row | row in w.queued :: WellFormed(row) && DistinctNames(row.row))
    && DistinctIds(w.queued) && DistinctIds(w.outbox)
    && (forall row | row in w.outbox :: row in w.queued)
  }

  ghost predicate Accepted(w: World, entry: Entry) {
    exists k | 0 <= k < |w.accepted| :: w.accepted[k].0 == entry
  }

  ghost predicate AcceptedId(w: World, id: string) {
    exists k | 0 <= k < |w.accepted| :: w.accepted[k].0.id == id
  }

  /** Runs carry entries read from the outbox. */
  ghost predicate CarriedInv(w: World, origin: iset<Entry>) {
    forall pid | pid in w.runs :: Among(w.runs[pid].pending, origin)
  }

  /** Each row is still in the outbox, or an entry with its id was acknowledged; what
      runs hold as acknowledged was. */
  ghost predicate KeptInv(w: World) {
    && (forall pid | pid in w.runs && w.runs[pid].acknowledged.Some? :: Accepted(w, w.runs[pid].acknowledged.value))
    && forall row | row in w.queued :: row in w.outbox || AcceptedId(w, row.id)
  }

  /** Whatever was acknowledged or received was read from the outbox and could be sent. */
  ghost predicate SentInv(link: Link, w: World, origin: iset<Entry>) {
    && (forall k | 0 <= k < |w.accepted| :: w.accepted[k].0 in origin && Sendable(link, w.accepted[k].0))
    && (forall k | 0 <= k < |w.received| :: w.received[k].0 in origin && Sendable(link, w.received[k].0))
  }

  ghost predicate TriggerFrom(link: Link, entry: Entry, trigger: Trigger) {
    exists peer :: trigger == TriggerOf(BuildSendPayload(link.peerId, link.thisCabinet, entry), peer)
  }

  /** Each trigger is what its entry says, and what was acknowledged as delivered is
      among them. */
  ghost predicate ReceivedInv(link: Link, w: World) {
    && (forall k | 0 <= k < |w.received| :: TriggerFrom(link, w.received[k].0, w.received[k].1))
    && (forall k | 0 <= k < |w.accepted| && w.accepted[k].1 == Delivered ::
          exists j | 0 <= j < |w.received| :: w.received[j].0 == w.accepted[k].0)
  }

  ghost predicate Inv(link: Link, w: World, origin: iset<Entry>) {
    QueueInv(w) && CarriedInv(w, origin) && KeptInv(w) && SentInv(link, w, origin) && ReceivedInv(link, w)
  }

  lemma {:induction false} WithoutDistinct(rows: seq<Stored>, id: string)
    requires DistinctIds(rows)
    ensures DistinctIds(Without(rows, id))
  {
    if rows != [] {
      assert DistinctIds(rows[1..]);
      WithoutDistinct(rows[1..], id);
      assert forall row | row in rows[1..] :: row.id != rows[0].id;
    }
  }

  lemma StepKeepsQueue(link: Link, w: World, e: Event)
    requires QueueInv(w) && Enabled(w, e)
    ensures QueueInv(Apply(link, w, e))
  {
    if e.Enqueue? {
      assert forall q | q in w.outbox :: q.id != e.row.id;
    }
    if e.Delete? {
      WithoutDistinct(w.outbox, w.runs[e.pid].acknowledged.value.id);
    }
  }

  lemma StepKeepsCarried(link: Link, w: World, e: Event, origin: iset<Entry>)
    requires QueueInv(w) && CarriedInv(w, origin) && Covers(link, w.queued, origin) && Enabled(w, e)
    ensures CarriedInv(Apply(link, w, e), origin)
  {
    if e.Start? {
      var rows := FirstRows(w.outbox, link.batch);
      assert forall row | row in rows :: row in w.outbox;
      assert Snapshot(link, w.queued, rows);
    }
    if e.Post? {
      assert forall x | x in w.runs[e.pid].pending[1..] :: x in w.runs[e.pid].pending;
    }
  }

  lemma StepKeepsKept(link: Link, w: World, e: Event)
    requires KeptInv(w) && Enabled(w, e)
    ensures KeptInv(Apply(link, w, e))
  {
    var v := Apply(link, w, e);
    assert forall k | 0 <= k < |w.accepted| :: v.accepted[k] == w.accepted[k];
    assert forall x | Accepted(w, x) :: Accepted(v, x);
    assert forall id | AcceptedId(w, id) :: AcceptedId(v, id);
    if e.Post? && v.runs[e.pid].acknowledged.Some? {
      assert v.accepted[|w.accepted|].0 == w.runs[e.pid].pending[0];
    }
    if e.Delete? {
      assert Accepted(w, w.runs[e.pid].acknowledged.value);
    }
  }

  lemma OnlySendable(link: Link, entry: Entry, transport: Transport, s: Surroundings)
    ensures var outcome := Receive(link.receiver, BuildSendPayload(link.peerId, link.thisCabinet, entry), s);
            Succeeded(AnswerTo(transport, outcome.reply)) || outcome.trigger.Some? ==> Sendable(link, entry)
  {
  }

  lemma PostSends(link: Link, w: World, pid: Pid, transport: Transport, s: Surroundings, origin: iset<Entry>)
    requires SentInv(link, w, origin) && Enabled(w, Post(pid, transport, s)) && w.runs[pid].pending[0] in origin
    ensures SentInv(link, Apply(link, w, Post(pid, transport, s)), origin)
  {
    OnlySendable(link, w.runs[pid].pending[0], transport, s);
  }

  lemma StepKeepsSent(link: Link, w: World, e: Event, origin: iset<Entry>)
    requires CarriedInv(w, origin) && SentInv(link, w, origin) && Enabled(w, e)
    ensures SentInv(link, Apply(link, w, e), origin)
  {
    if e.Post? {
      assert w.runs[e.pid].pending[0] in w.runs[e.pid].pending;
      PostSends(link, w, e.pid, e.transport, e.s, origin);
    }
  }

  lemma StepKeepsReceived(link: Link, w: World, e: Event)
    requires ReceivedInv(link, w) && Enabled(w, e)
    ensures ReceivedInv(link, Apply(link, w, e))
  {
    if e.Post? {
      PostReceives(link, w, e.pid, e.transport, e.s);
    }
  }

  lemma PostReceives(link: Link, w: World, pid: Pid, transport: Transport, s: Surroundings)
    requires ReceivedInv(link, w) && Enabled(w, Post(pid, transport, s))
    ensures ReceivedInv(link, Apply(link, w, Post(pid, transport, s)))
  {
    var v, entry := Apply(link, w, Post(pid, transport, s)), w.runs[pid].pending[0];
    var payload := BuildSendPayload(link.peerId, link.thisCabinet, entry);
    forall k | 0 <= k < |v.received| ensures TriggerFrom(link, v.received[k].0, v.received[k].1) {
      if k < |w.received| {
        assert v.received[k] == w.received[k];
      } else {
        assert v.received[k].1 == TriggerOf(payload, s.provenPeer);
      }
    }
    forall k | 0 <= k < |v.accepted| && v.accepted[k].1 == Delivered
      ensures exists j | 0 <= j < |v.received| :: v.received[j].0 == v.accepted[k].0
    {
      if k < |w.accepted| {
        assert v.accepted[k] == w.accepted[k];
        var j :| 0 <= j < |w.received| && w.received[j].0 == w.accepted[k].0;
        assert v.received[j] == w.received[j];
      } else {
        assert v.received[|w.received|].0 == entry;
      }
    }
  }

  lemma StepKeepsInv(link: Link, w: World, e: Event, origin: iset<Entry>)
    requires Inv(link, w, origin) && Covers(link, w.queued, origin) && Enabled(w, e)
    ensures Inv(link, Apply(link, w, e), origin)
  {
    StepKeepsQueue(link, w, e);
    StepKeepsCarried(link, w, e, origin);
    StepKeepsKept(link, w, e);
    StepKeepsSent(link, w, e, origin);
    StepKeepsReceived(link, w, e);
  }

  lemma CoversEarlier(link: Link, w: World, e: Event, origin: iset<Entry>)
    requires Enabled(w, e) && Covers(link, Apply(link, w, e).queued, origin)
    ensures Covers(link, w.queued, origin)
  {
    var later := Apply(link, w, e).queued;
    forall rows | Snapshot(link, w.queued, rows) ensures Among(Read(Text(rows)), origin) {
      assert Snapshot(link, later, rows);
    }
  }

  lemma {:induction false} RunKeepsInv(link: Link, trace: seq<World>, events: seq<Event>, origin: iset<Entry>)
    requires Follows(link, trace, events) && Covers(link, trace[|events|].queued, origin)
    ensures Inv(link, trace[|events|], origin)
  {
    if events != [] {
      var n := |events| - 1;
      FollowsBefore(link, trace, events);
      assert Enabled(trace[n], events[n]) && trace[n + 1] == Apply(link, trace[n], events[n]);
      CoversEarlier(link, trace[n], events[n], origin);
      RunKeepsInv(link, trace[..n + 1], events[..n], origin);
      StepKeepsInv(link, trace[n], events[n], origin);
    }
  }

  lemma FollowsBefore(link: Link, trace: seq<World>, events: seq<Event>)
    requires Follows(link, trace, events) && events != []
    ensures var n := |events| - 1; Follows(link, trace[..n + 1], events[..n]) && trace[..n + 1][n] == trace[n]
  {
    var n := |events| - 1;
    assert forall i | 0 <= i < n :: Enabled(trace[i], events[i]) && trace[i + 1] == Apply(link, trace[i], events[i]);
  }

  /** The invariants, with what can be read from the rows queued by the end. */
  lemma RunInv(link: Link, trace: seq<World>, events: seq<Event>) returns (w: World, origin: iset<Entry>)
    requires Follows(link, trace, events)
    ensures w == trace[|events|] && Inv(link, w, origin)
    ensures forall entry | entry in origin :: FromText(link, w.queued, entry)
  {
    w := trace[|events|];
    origin := iset entry | FromText(link, w.queued, entry);
    forall rows | Snapshot(link, w.queued, rows) ensures Among(Read(Text(rows)), origin) {
      assert forall entry | entry in Read(Text(rows)) :: FromText(link, w.queued, entry);
    }
    RunKeepsInv(link, trace, events, origin);
  }

  // ----- what holds over every run, whatever is queued

  /** Over every run of the relay, with overlapping processes and every failure, each
      row ever queued is still in the outbox or an entry with its id was
      acknowledged; the acknowledged entry was read from the outbox. */
  lemma NoRowVanishes(link: Link, trace: seq<World>, events: seq<Event>, row: Stored)
    requires Follows(link, trace, events) && row in trace[|events|].queued
    ensures var w := trace[|events|];
            row in w.outbox
            || exists k | 0 <= k < |w.accepted| ::
                 && w.accepted[k].0.id == row.id
                 && FromText(link, w.queued, w.accepted[k].0) && Sendable(link, w.accepted[k].0)
  {
    var w, origin := RunInv(link, trace, events);
  }

  /** A handoff acknowledged as delivered stands whole in the receiver's stream. */
  lemma DeliveredHandoffIsWhole(link: Link, trace: seq<World>, events: seq<Event>, id: string, cabinet: string,
                                agent: string, slug: string, reason: string, ts: string)
    requires Follows(link, trace, events) && slug != ""
    requires var row := HandoffRow(id, cabinet, agent, slug, reason, ts);
             (EntryOf(row), Delivered) in trace[|events|].accepted
    ensures exists k | 0 <= k < |trace[|events|].received| ::
              CarriesHandoff(trace[|events|].received[k].1, agent, slug, reason)
  {
    var entry := EntryOf(HandoffRow(id, cabinet, agent, slug, reason, ts));
    var w, origin := RunInv(link, trace, events);
    var i :| 0 <= i < |w.accepted| && w.accepted[i] == (entry, Delivered);
    assert w.accepted[i].1 == Delivered;
    var k :| 0 <= k < |w.received| && w.received[k].0 == w.accepted[i].0;
    assert TriggerFrom(link, w.received[k].0, w.received[k].1);
    var peer :| w.received[k].1 == TriggerOf(BuildSendPayload(link.peerId, link.thisCabinet, w.received[k].0), peer);
    HandoffArrivesWhole(id, cabinet, agent, slug, reason, ts, link.peerId, link.thisCabinet, peer);
  }

  // ----- rows of single trimmed lines

  ghost predicate KnownEntry(queued: seq<Stored>, entry: Entry) {
    exists row | row in queued :: entry == EntryOf(row)
  }

  lemma ReadsKnownEntries(rows: seq<Stored>, queued: seq<Stored>)
    requires forall row | row in rows :: row in queued && WellFormed(row) && CleanValues(row)
    ensures forall entry | entry in Read(Text(rows)) :: KnownEntry(queued, entry)
  {
    CleanRoundTrip(rows);
    forall entry | entry in Contents(rows) ensures KnownEntry(queued, entry) {
      var k :| 0 <= k < |rows| && Contents(rows)[k] == entry;
      ContentsAt(rows, k);
      assert rows[k] in queued;
    }
  }

  lemma CleanTextIsKnown(link: Link, queued: seq<Stored>, entry: Entry)
    requires forall row | row in queued :: WellFormed(row) && CleanValues(row)
    requires FromText(link, queued, entry)
    ensures KnownEntry(queued, entry)
  {
    var rows :| Snapshot(link, queued, rows) && entry in Read(Text(rows));
    ReadsKnownEntries(rows, queued);
  }

  lemma SameIdSameRow(queued: seq<Stored>, a: Stored, b: Stored)
    requires DistinctIds(queued) && a in queued && b in queued && a.id == b.id
    ensures a == b
  {
    var i :| 0 <= i < |queued| && queued[i] == a;
    var j :| 0 <= j < |queued| && queued[j] == b;
    assert i == j;
  }

  /** When every queued value is a single trimmed line, no content is lost, none is
      invented, and whatever was delivered is there. */
  lemma RelayLosesNothing(link: Link, trace: seq<World>, events: seq<Event>, row: Stored)
    requires Follows(link, trace, events) && row in trace[|events|].queued
    requires forall q | q in trace[|events|].queued :: CleanValues(q)
    ensures row in trace[|events|].outbox || Accepted(trace[|events|], EntryOf(row))
    ensures forall k | 0 <= k < |trace[|events|].received| :: KnownEntry(trace[|events|].queued, trace[|events|].received[k].0)
  {
    var w, origin := RunInv(link, trace, events);
    forall k | 0 <= k < |w.received| ensures KnownEntry(w.queued, w.received[k].0) {
      CleanTextIsKnown(link, w.queued, w.received[k].0);
    }
    if row !in w.outbox {
      var k :| 0 <= k < |w.accepted| && w.accepted[k].0.id == row.id;
      CleanTextIsKnown(link, w.queued, w.accepted[k].0);
      var q :| q in w.queued && w.accepted[k].0 == EntryOf(q);
      SameIdSameRow(w.queued, q, row);
    }
  }

  // ----- one run by itself, as the relay takes it

  /** How posting one entry and deleting its row turn out. */
  datatype Attempt = Attempt(transport: Transport, s: Surroundings, deleted: bool)

  predicate Acknowledged(link: Link, entry: Entry, attempt: Attempt) {
    var outcome := Receive(link.receiver, BuildSendPayload(link.peerId, link.thisCabinet, entry), attempt.s);
    Succeeded(AnswerTo(attempt.transport, outcome.reply))
  }

  predicate Confirmed(link: Link, entry: Entry, attempt: Attempt) {
    Acknowledged(link, entry, attempt) && attempt.deleted
  }

  function ConfirmedCount(link: Link, entries: seq<Entry>, attempts: nat -> Attempt, n: nat): nat
    requires n <= |entries|
  {
    if n == 0 then 0
    else ConfirmedCount(link, entries, attempts, n - 1) + if Confirmed(link, entries[n - 1], attempts(n - 1)) then 1 else 0
  }

  /** An entry with the id was acknowledged and its row deleted. */
  ghost predicate Gone(link: Link, entries: seq<Entry>, attempts: nat -> Attempt, n: nat, id: string)
    requires n <= |entries|
  {
    exists k: nat | k < n :: entries[k].id == id && Confirmed(link, entries[k], attempts(k))
  }

  lemma GoneNext(link: Link, entries: seq<Entry>, attempts: nat -> Attempt, n: nat, id: string)
    requires n < |entries|
    ensures Gone(link, entries, attempts, n + 1, id) <==>
              || Gone(link, entries, attempts, n, id)
              || (entries[n].id == id && Confirmed(link, entries[n], attempts(n)))
  {
  }

  ghost predicate Kept(link: Link, before: seq<Stored>, now: seq<Stored>, entries: seq<Entry>, attempts: nat -> Attempt, n: nat)
    requires n <= |entries|
  {
    forall row :: row in now <==> row in before && !Gone(link, entries, attempts, n, row.id)
  }

  lemma KeptNext(link: Link, before: seq<Stored>, now: seq<Stored>, entries: seq<Entry>, attempts: nat -> Attempt, n: nat)
    requires n < |entries| && Kept(link, before, now, entries, attempts, n)
    ensures Kept(link, before, if Confirmed(link, entries[n], attempts(n)) then Without(now, entries[n].id) else now,
                 entries, attempts, n + 1)
  {
    forall row: Stored ensures Gone(link, entries, attempts, n + 1, row.id) <==>
        Gone(link, entries, attempts, n, row.id) || (entries[n].id == row.id && Confirmed(link, entries[n], attempts(n)))
    {
      GoneNext(link, entries, attempts, n, row.id);
    }
  }

  /** An entry is acknowledged exactly when an answer came back to it, and the receiver
      either took it and confirmed the append or passed it on to a peer that took it. */
  lemma AcknowledgedExactly(link: Link, entry: Entry, attempt: Attempt)
    ensures var payload, s := BuildSendPayload(link.peerId, link.thisCabinet, entry), attempt.s;
            Acknowledged(link, entry, attempt) <==>
              && attempt.transport == Answered
              && ((Taken(link.receiver, payload, s) && s.append == Done)
                  || (Complete(payload) && payload.toCabinet != link.receiver && s.onward == OnwardQueued))
  {
    RepliesExactly(link.receiver, BuildSendPayload(link.peerId, link.thisCabinet, entry), attempt.s);
  }

  ghost predicate IsConfirmed(link: Link, entries: seq<Entry>, attempts: nat -> Attempt, k: nat)
    requires k < |entries|
  {
    Acknowledged(link, entries[k], attempts(k)) && attempts(k).deleted
  }

  ghost function ConfirmedAt(link: Link, entries: seq<Entry>, attempts: nat -> Attempt, n: nat): set<nat>
    requires n <= |entries|
  {
    set k: nat | k < n && IsConfirmed(link, entries, attempts, k)
  }

  /** The count is of entries acknowledged and deleted. */
  lemma {:induction false} CountIsOfConfirmed(link: Link, entries: seq<Entry>, attempts: nat -> Attempt, n: nat)
    requires n <= |entries|
    ensures ConfirmedCount(link, entries, attempts, n) == |ConfirmedAt(link, entries, attempts, n)|
  {
    if n > 0 {
      CountIsOfConfirmed(link, entries, attempts, n - 1);
      Counting.OneMorePosition(ConfirmedAt(link, entries, attempts, n - 1), ConfirmedAt(link, entries, attempts, n), n - 1,
                               IsConfirmed(link, entries, attempts, n - 1));
      assert IsConfirmed(link, entries, attempts, n - 1) <==> Confirmed(link, entries[n - 1], attempts(n - 1));
    }
  }

  class Outbox {
    var rows: seq<Stored>

    constructor ()
      ensures rows == []
    {
      rows := [];
    }

    /** Posts what it can read, one entry after the other; a row goes exactly when an
        entry with its id was acknowledged and the deletion succeeded. */
    method DrainPeer(link: Link, consented: bool, allowed: bool, attempts: nat -> Attempt) returns (delivered: nat)
      modifies this
      ensures !(consented && allowed) ==> delivered == 0 && rows == old(rows)
      ensures consented && allowed ==>
                var entries := Read(Text(FirstRows(old(rows), link.batch)));
                && delivered == ConfirmedCount(link, entries, attempts, |entries|)
                && Kept(link, old(rows), rows, entries, attempts, |entries|)
    {
      delivered := 0;
      if !consented || !allowed {
        return;
      }
      var entries := Read(Text(FirstRows(rows, link.batch)));
      delivered := DrainEntries(link, entries, attempts);
    }

    method DrainEntries(link: Link, entries: seq<Entry>, attempts: nat -> Attempt) returns (delivered: nat)
      modifies this
      ensures delivered == ConfirmedCount(link, entries, attempts, |entries|)
      ensures Kept(link, old(rows), rows, entries, attempts, |entries|)
    {
      delivered := 0;
      for i := 0 to |entries|
        invariant delivered == ConfirmedCount(link, entries, attempts, i)
        invariant Kept(link, old(rows), rows, entries, attempts, i)
      {
        KeptNext(link, old(rows), rows, entries, attempts, i);
        if !Acknowledged(link, entries[i], attempts(i)) {
          continue;
        }
        if !attempts(i).deleted {
          continue;
        }
        rows := Without(rows, entries[i].id);
        delivered := delivered + 1;
      }
    }
  }
}
