/** The path of one message between cabinets: the row a producer queues, the
    payload the relay builds from it, and the trigger the receiver writes. */
module Relay {
  import opened Options
  import opened Xrange
  import CostFields

  // ----- the relay's side

  /** `toRole` is named by other callers only; the relay leaves it out. */
  datatype Payload = Payload(toCabinet: string, toRole: Option<string>, fromAgent: string, content: string,
                             replyTo: Option<string>, originId: string, originCabinet: string, originTs: string,
                             kind: Option<string>, contextSlug: Option<string>, reason: Option<string>)

  function Get(fields: Fields, name: string, fallback: string): string {
    if name in fields then fields[name] else fallback
  }

  /** Absent and empty fields are left out rather than sent empty. */
  function NonEmpty(fields: Fields, name: string): Option<string> {
    if name in fields && fields[name] != "" then Some(fields[name]) else None
  }

  function BuildSendPayload(peerId: string, thisCabinet: string, entry: Entry): Payload {
    var f := entry.fields;
    Payload(peerId, None, Get(f, "from_agent", "unknown"), Get(f, "content", ""), NonEmpty(f, "reply_to"),
            entry.id, Get(f, "from_cabinet", thisCabinet), Get(f, "ts", ""),
            NonEmpty(f, "kind"), NonEmpty(f, "context_slug"), NonEmpty(f, "reason"))
  }

  /** What the payload carries of an entry, field by field: the destination, the
      entry's own id, and its fields with the fallbacks of the three that have one. */
  lemma PayloadExactly(peerId: string, thisCabinet: string, entry: Entry, value: string)
    requires value != ""
    ensures var p, f := BuildSendPayload(peerId, thisCabinet, entry), entry.fields;
            && p.toCabinet == peerId && p.toRole == None && p.originId == entry.id
            && p.fromAgent == (if "from_agent" in f then f["from_agent"] else "unknown")
            && p.content == (if "content" in f then f["content"] else "")
            && p.originCabinet == (if "from_cabinet" in f then f["from_cabinet"] else thisCabinet)
            && p.originTs == (if "ts" in f then f["ts"] else "")
            && (p.replyTo == Some(value) <==> "reply_to" in f && f["reply_to"] == value)
            && (p.kind == Some(value) <==> "kind" in f && f["kind"] == value)
            && (p.contextSlug == Some(value) <==> "context_slug" in f && f["context_slug"] == value)
            && (p.reason == Some(value) <==> "reason" in f && f["reason"] == value)
            && Some("") !in {p.replyTo, p.kind, p.contextSlug, p.reason}
  {
  }

  // ----- the receiver's side

  /** `role` is the officer whose stream it stands in. */
  datatype Trigger = Trigger(role: string, fromCabinet: string, fromAgent: string, content: string, replyTo: string,
                             kind: Option<string>, contextSlug: Option<string>)

  datatype Reply = Delivered | Queued | Refused | UnknownPeer | Failed

  /** How appending to the trigger stream ends: a timeout may hide an append that
      was made. */
  datatype Append = Done | DoneUnconfirmed | NotDone

  /** What the receiver's surroundings decide: the peer the transport has proven, the
      roster of hired officers, empty when it cannot be read, whether the envelope
      gate blocks, how the append ends, and the answer when the message is for yet
      another cabinet. */
  datatype Surroundings = Surroundings(provenPeer: string, roster: set<string>, blocked: bool, append: Append, onward: Onward)

  datatype Onward = OnwardQueued | OnwardUnknown | OnwardRefused | OnwardFailed

  datatype Outcome = Outcome(reply: Reply, trigger: Option<Trigger>)

  function Origin(payload: Payload, provenPeer: string): string {
    if provenPeer != "" then provenPeer else if payload.originCabinet != "" then payload.originCabinet else "unknown"
  }

  const COORDINATOR := "cos"

  function TargetRole(payload: Payload): string {
    if payload.toRole.Some? then payload.toRole.value else COORDINATOR
  }

  /** A well-formed name, and the coordinator or a hired officer; with no roster to go
      by the form alone decides. */
  predicate KnownRole(role: string, roster: set<string>) {
    CostFields.ValidSlug(role) && (roster == {} || role == COORDINATOR || role in roster)
  }

  /** An empty value is written no more than an absent one. */
  function Written(value: Option<string>): Option<string> {
    if value == Some("") then None else value
  }

  function TriggerOf(payload: Payload, provenPeer: string): Trigger {
    Trigger(TargetRole(payload), Origin(payload, provenPeer), payload.fromAgent, payload.content,
            if payload.replyTo.Some? then payload.replyTo.value else "", Written(payload.kind), Written(payload.contextSlug))
  }

  function PassOn(onward: Onward): Reply {
    match onward
    case OnwardQueued => Queued
    case OnwardUnknown => UnknownPeer
    case OnwardRefused => Refused
    case OnwardFailed => Failed
  }

  /** The receiver's handling of a relayed message, required fields first. A
      message it only passes on leaves no trigger and is never "delivered". */
  function Receive(receiver: string, payload: Payload, s: Surroundings): (outcome: Outcome)
    ensures outcome.trigger.Some? ==> outcome.trigger.value == TriggerOf(payload, s.provenPeer)
    ensures outcome.trigger.Some? ==> payload.content != "" && payload.fromAgent != ""
    ensures outcome.trigger.Some? && s.provenPeer != "" ==>
              outcome.trigger.value.fromCabinet == s.provenPeer && payload.originCabinet in {"", s.provenPeer}
    ensures outcome.trigger.Some? ==> payload.toCabinet == receiver && !s.blocked
    ensures outcome.trigger.Some? ==> KnownRole(outcome.trigger.value.role, s.roster)
    ensures outcome.reply == Delivered ==> outcome.trigger.Some?
    ensures outcome.reply in {Delivered, Queued} ==> payload.content != "" && payload.fromAgent != ""
  {
    if payload.toCabinet == "" || payload.fromAgent == "" || payload.content == "" then Outcome(Failed, None)
    else if payload.toCabinet != receiver then Outcome(PassOn(s.onward), None)
    else if s.provenPeer != "" && payload.originCabinet != "" && payload.originCabinet != s.provenPeer then
      Outcome(Refused, None)
    else if !KnownRole(TargetRole(payload), s.roster) then Outcome(Refused, None)
    else if s.blocked then Outcome(Refused, None)
    else
      match s.append
      case Done => Outcome(Delivered, Some(TriggerOf(payload, s.provenPeer)))
      case DoneUnconfirmed => Outcome(Failed, Some(TriggerOf(payload, s.provenPeer)))
      case NotDone => Outcome(Failed, None)
  }

  /** The three fields no message goes without. */
  predicate Complete(payload: Payload) {
    payload.toCabinet != "" && payload.fromAgent != "" && payload.content != ""
  }

  /** What the receiver itself takes: for it, from whom it says, to a known role, past
      the gate. */
  predicate Taken(receiver: string, payload: Payload, s: Surroundings) {
    && Complete(payload) && payload.toCabinet == receiver
    && (s.provenPeer == "" || payload.originCabinet == "" || payload.originCabinet == s.provenPeer)
    && KnownRole(TargetRole(payload), s.roster) && !s.blocked
  }

  /** Each answer, exactly. "Queued" comes only of passing on to a known peer that
      took it, "delivered" only of an append that was confirmed; an unknown peer is
      answered as such. */
  lemma RepliesExactly(receiver: string, payload: Payload, s: Surroundings)
    ensures var o := Receive(receiver, payload, s);
            var elsewhere := Complete(payload) && payload.toCabinet != receiver;
            && (o.reply == Queued <==> elsewhere && s.onward == OnwardQueued)
            && (o.reply == UnknownPeer <==> elsewhere && s.onward == OnwardUnknown)
            && (o.reply == Delivered <==> Taken(receiver, payload, s) && s.append == Done)
            && (o.reply == Refused <==>
                  if elsewhere then s.onward == OnwardRefused
                  else Complete(payload) && !Taken(receiver, payload, s))
            && (o.reply == Failed <==>
                  !Complete(payload) || (elsewhere && s.onward == OnwardFailed)
                  || (Taken(receiver, payload, s) && s.append != Done))
            && (o.trigger.Some? <==> Taken(receiver, payload, s) && s.append != NotDone)
  {
  }

  /** Who may be addressed: a well-formed slug that is the coordinator or on the
      roster, any well-formed slug when there is no roster to go by. */
  lemma RolesExactly(role: string, roster: set<string>)
    ensures KnownRole(role, roster) <==>
              CostFields.ValidSlug(role) && (role == "cos" || (if roster == {} then true else role in roster))
  {
  }

  // ----- the relay's reading of the answer

  /** What comes back over HTTP: nothing usable, or the status inside the result. */
  datatype Answer =
    | NotSent
    | NoAnswer
    | HttpStatus(code: int)
    | NotJson
    | RpcError
    | Result(status: Reply)

  /** Only an HTTP 200 whose inner status says queued or delivered is a success. */
  predicate Succeeded(answer: Answer) {
    answer.Result? && answer.status in {Queued, Delivered}
  }

  // ----- handoff rows

  const HANDOFF := "handoff_request"

  function HandoffContent(slug: string, reason: string): string {
    "[handoff request] context '" + slug + "': " + reason
  }

  /** The row `request_handoff` queues, in the order it writes the fields. */
  function HandoffRow(id: string, fromCabinet: string, fromAgent: string, slug: string, reason: string, ts: string): Stored {
    Stored(id, [Field("from_cabinet", fromCabinet), Field("from_agent", fromAgent), Field("kind", HANDOFF),
                Field("context_slug", slug), Field("reason", reason), Field("content", HandoffContent(slug, reason)),
                Field("ts", ts)])
  }

  /** A trigger carries the handoff whole: the producer's content and agent, and what
      tells it from a chat message. */
  predicate CarriesHandoff(t: Trigger, agent: string, slug: string, reason: string) {
    && t.role == COORDINATOR && t.content == HandoffContent(slug, reason) && t.fromAgent == agent
    && t.kind == Some(HANDOFF) && t.contextSlug == Some(slug)
  }

  /** From the queued row through the payload to the trigger nothing is dropped or
      changed, whoever the receiver takes the sender to be. */
  lemma HandoffArrivesWhole(id: string, cabinet: string, agent: string, slug: string, reason: string, ts: string,
                            peerId: string, thisCabinet: string, provenPeer: string)
    requires slug != ""
    ensures var entry := Entry(id, FieldMap(HandoffRow(id, cabinet, agent, slug, reason, ts).row, map[]));
            CarriesHandoff(TriggerOf(BuildSendPayload(peerId, thisCabinet, entry), provenPeer), agent, slug, reason)
  {
    var row := HandoffRow(id, cabinet, agent, slug, reason, ts);
    HandoffNames(row);
    FieldMapHolds(row.row, map[], 1);
    FieldMapHolds(row.row, map[], 2);
    FieldMapHolds(row.row, map[], 3);
    FieldMapHolds(row.row, map[], 5);
  }

  lemma HandoffNames(row: Stored)
    requires exists i, c, a, s, r, t :: row == HandoffRow(i, c, a, s, r, t)
    ensures DistinctNames(row.row)
  {
    assert row.row[0].name == "from_cabinet" && row.row[1].name == "from_agent" && row.row[2].name == "kind"
        && row.row[3].name == "context_slug" && row.row[4].name == "reason" && row.row[5].name == "content"
        && row.row[6].name == "ts";
  }

  // ----- chat rows

  /** The row `send_message` queues for another cabinet. */
  function ChatRow(id: string, fromCabinet: string, fromAgent: string, content: string, replyTo: string, ts: string): Stored {
    Stored(id, [Field("from_cabinet", fromCabinet), Field("from_agent", fromAgent), Field("content", content),
                Field("reply_to", replyTo), Field("ts", ts)])
  }

  /** A chat message arrives as one, under the sender the transport proved or else
      the one that queued it, and is never taken for a handoff. */
  lemma ChatArrivesAsChat(id: string, cabinet: string, agent: string, content: string, replyTo: string, ts: string,
                          peerId: string, thisCabinet: string, provenPeer: string)
    requires cabinet != ""
    ensures var entry := Entry(id, FieldMap(ChatRow(id, cabinet, agent, content, replyTo, ts).row, map[]));
            TriggerOf(BuildSendPayload(peerId, thisCabinet, entry), provenPeer)
            == Trigger(COORDINATOR, if provenPeer != "" then provenPeer else cabinet, agent, content, replyTo, None, None)
  {
    var row := ChatRow(id, cabinet, agent, content, replyTo, ts).row;
    ChatNames(row, cabinet, agent, content, replyTo, ts);
    FieldMapHolds(row, map[], 0);
    FieldMapHolds(row, map[], 1);
    FieldMapHolds(row, map[], 2);
    FieldMapHolds(row, map[], 3);
    OtherNameAbsent(row, map[], "kind");
    OtherNameAbsent(row, map[], "context_slug");
  }

  lemma ChatNames(row: seq<Field>, cabinet: string, agent: string, content: string, replyTo: string, ts: string)
    requires row == ChatRow("", cabinet, agent, content, replyTo, ts).row
    ensures DistinctNames(row) && forall f | f in row :: f.name != "kind" && f.name != "context_slug"
  {
    assert row[0].name == "from_cabinet" && row[1].name == "from_agent" && row[2].name == "content"
        && row[3].name == "reply_to" && row[4].name == "ts";
  }

  lemma {:induction false} OtherNameAbsent(row: seq<Field>, fields: Fields, name: string)
    requires name !in fields && forall f | f in row :: f.name != name
    ensures name !in FieldMap(row, fields)
    decreases |row|
  {
    if row != [] {
      OtherNameAbsent(row[1..], fields[row[0].name := row[0].value], name);
    }
  }
}
