/** The indexes the fuel check joins a row against, built in loops over verified
    trials, each against what it is an index of. */
module FuelIndexes {
  import opened Options
  import opened EvidencePlane

  datatype TrialState = Ok(events: seq<Event>) | Missing | Purged | IntegrityFailed | Error(code: string)

  /** The store as the reader caches it; a trial it does not list is missing. */
  datatype Reader = Reader(available: bool, named: map<string, TrialState>)

  function NamedState(r: Reader, trial: string): TrialState {
    if !r.available then Error("unavailable")
    else if trial in r.named then r.named[trial] else Missing
  }

  function EventsIn(state: TrialState): seq<Event> {
    if state.Ok? then state.events else []
  }

  /** Events of the trials that read back, in scan order. */
  function Readable(r: Reader, trials: seq<string>): seq<Event> {
    if trials == [] then []
    else Readable(r, trials[..|trials| - 1]) + EventsIn(NamedState(r, trials[|trials| - 1]))
  }

  lemma {:induction false} ReadableHas(r: Reader, trials: seq<string>, e: Event)
    ensures e in Readable(r, trials) <==> exists trial :: trial in trials && e in EventsIn(NamedState(r, trial))
    decreases |trials|
  {
    if trials != [] {
      var before, last := trials[..|trials| - 1], trials[|trials| - 1];
      ReadableHas(r, before, e);
      assert forall trial :: trial in trials <==> trial in before || trial == last;
    }
  }

  /** The event's detail holds these keys with these values. */
  predicate Carries(e: Event, pairs: map<string, string>) {
    e.detail.Some? && forall name | name in pairs :: name in e.detail.value && e.detail.value[name] == pairs[name]
  }

  /** What the reader answers: for every trial an error while the store is absent, what
      it holds for those it lists, and missing for any other. */
  lemma AnswersExactly(r: Reader, trial: string, state: TrialState)
    ensures r.available && trial in r.named ==> (NamedState(r, trial) == state <==> r.named[trial] == state)
    ensures r.available && trial !in r.named ==> (NamedState(r, trial) == state <==> state == Missing)
    ensures !r.available ==> NamedState(r, trial).Error?
  {
  }

  // ----- mirror receipts

  const MIRROR_ACTION := "consequence_mirror"

  datatype Receipt = Receipt(eventId: string, attestation: string)

  predicate Mirrors(e: Event, sha: string) {
    Detail(e, "action") == Some(MIRROR_ACTION) && Detail(e, "row_sha256") == Some(sha) && sha != ""
  }

  function ReceiptOf(e: Event): Receipt {
    var mode := Detail(e, "attestation_mode");
    Receipt(e.id, if mode.Some? && mode.value != "" then mode.value else "unattested")
  }

  /** A receipt is an event that carries the mirror's action and the digest; it is
      attested as its detail says, and unattested where that says nothing. */
  lemma MirrorsExactly(e: Event, sha: string, mode: string)
    ensures Mirrors(e, sha) <==> sha != "" && Carries(e, map["action" := "consequence_mirror", "row_sha256" := sha])
    ensures mode != "" && mode != "unattested" ==>
              (ReceiptOf(e).attestation == mode <==> Carries(e, map["attestation_mode" := mode]))
    ensures ReceiptOf(e).eventId == e.id
  {
  }

  /** The first receipt for a digest wins. */
  function AddReceipt(index: map<string, Receipt>, e: Event): map<string, Receipt> {
    var sha := Detail(e, "row_sha256");
    if sha.Some? && Mirrors(e, sha.value) && sha.value !in index then index[sha.value := ReceiptOf(e)] else index
  }

  function Receipts(events: seq<Event>): map<string, Receipt> {
    if events == [] then map[]
    else AddReceipt(Receipts(events[..|events| - 1]), events[|events| - 1])
  }

  method ReceiptIndex(r: Reader, trials: seq<string>) returns (index: map<string, Receipt>)
    ensures index == Receipts(Readable(r, trials))
  {
    index := map[];
    for s := 0 to |trials|
      invariant index == Receipts(Readable(r, trials[..s]))
    {
      assert trials[..s + 1][..s] == trials[..s];
      index := AddReceipts(index, Readable(r, trials[..s]), EventsIn(NamedState(r, trials[s])));
    }
    assert trials[..|trials|] == trials;
  }

  method AddReceipts(before: map<string, Receipt>, ghost seen: seq<Event>, events: seq<Event>) returns (index: map<string, Receipt>)
    requires before == Receipts(seen)
    ensures index == Receipts(seen + events)
  {
    index := before;
    assert seen + events[..0] == seen;
    for i := 0 to |events|
      invariant index == Receipts(seen + events[..i])
    {
      assert (seen + events[..i + 1])[..|seen| + i] == seen + events[..i];
      index := AddReceipt(index, events[i]);
    }
    assert events[..|events|] == events;
  }

  /** A digest is indexed exactly when some readable event mirrors it, under the
      receipt of the first that does. */
  lemma {:induction false} ReceiptExactly(events: seq<Event>, sha: string)
    ensures sha in Receipts(events) <==> exists e :: e in events && Mirrors(e, sha)
    ensures forall i | 0 <= i < |events| && Mirrors(events[i], sha) && (forall j | 0 <= j < i :: !Mirrors(events[j], sha)) ::
              sha in Receipts(events) && Receipts(events)[sha] == ReceiptOf(events[i])
    decreases |events|
  {
    if events != [] {
      var past, last := events[..|events| - 1], events[|events| - 1];
      ReceiptExactly(past, sha);
      assert forall e :: e in events <==> e in past || e == last;
      forall i | 0 <= i < |events| && Mirrors(events[i], sha) && (forall j | 0 <= j < i :: !Mirrors(events[j], sha))
        ensures sha in Receipts(events) && Receipts(events)[sha] == ReceiptOf(events[i])
      {
        if i < |past| {
          assert past[i] == events[i] && forall j | 0 <= j < i :: past[j] == events[j];
        } else {
          assert forall e | e in past :: !Mirrors(e, sha);
        }
      }
    }
  }

  // ----- anchored Captain labels

  const LABEL_ACTION := "governance_review_label"
  const LABEL_SOURCE := "verdict_human"
  const LABEL_DIGEST_SCHEMA := "cabinet.governance-label-digest/v1"
  const SCOREABLE := {"confirmed", "wrong"}

  datatype Digest = Digest(schema: string, verdict: string, trial: string, eventIds: set<string>)

  predicate CaptainLabel(e: Event) {
    e.actorKind == "captain"
    && Detail(e, "action") == Some(LABEL_ACTION) && Detail(e, "source") == Some(LABEL_SOURCE)
    && Detail(e, "result_code").Some? && Detail(e, "result_code").value in SCOREABLE
  }

  /** The digest is scoreable, its trial verifies and holds the label it names. */
  ghost predicate Anchors(r: Reader, d: Digest, e: Event) {
    && d.schema == LABEL_DIGEST_SCHEMA && d.verdict in SCOREABLE && d.trial != ""
    && r.available && NamedState(r, d.trial).Ok? && e in NamedState(r, d.trial).events
    && e.id in d.eventIds && CaptainLabel(e)
  }

  /** A Captain label is the Captain's own event with the label's action and source and
      one of the two scoreable codes. */
  lemma CaptainLabelExactly(e: Event)
    ensures CaptainLabel(e) <==>
              e.actorKind == "captain"
              && exists code :: code in {"confirmed", "wrong"}
                   && Carries(e, map["action" := "governance_review_label", "source" := "verdict_human", "result_code" := code])
  {
    var said := Detail(e, "result_code");
    if CaptainLabel(e) {
      assert Carries(e, map["action" := "governance_review_label", "source" := "verdict_human", "result_code" := said.value]);
    }
  }

  /** A digest anchors an event when it has the right schema, is scoreable and names
      the event, in a trial that reads back with that event a Captain label. */
  lemma AnchorsExactly(r: Reader, d: Digest, e: Event)
    ensures Anchors(r, d, e) <==>
              && d.schema == "cabinet.governance-label-digest/v1" && (d.verdict == "confirmed" || d.verdict == "wrong")
              && d.trial != "" && e.id in d.eventIds && CaptainLabel(e)
              && r.available && d.trial in r.named && r.named[d.trial].Ok? && e in r.named[d.trial].events
  {
  }

  datatype Labels = Labels(jids: set<string>, trials: set<string>)

  ghost predicate IndexesLabels(l: Labels, r: Reader, journal: seq<Digest>) {
    && (forall jid :: jid in l.jids <==> jid != "" && exists d, e :: d in journal && Anchors(r, d, e) && Detail(e, "jid") == Some(jid))
    && (forall trial :: trial in l.trials <==> exists d, e :: d in journal && d.trial == trial && Anchors(r, d, e))
  }

  method LabelIndex(r: Reader, journal: seq<Digest>) returns (l: Labels)
    ensures IndexesLabels(l, r, journal)
  {
    l := Labels({}, {});
    for k := 0 to |journal|
      invariant IndexesLabels(l, r, journal[..k])
    {
      var d := journal[k];
      ghost var before := l;
      assert forall x :: x in journal[..k + 1] <==> x in journal[..k] || x == d;
      if d.schema == LABEL_DIGEST_SCHEMA && d.verdict in SCOREABLE && d.trial != "" && r.available && NamedState(r, d.trial).Ok? {
        l := AddLabels(l, r, d);
      }
    }
    assert journal[..|journal|] == journal;
  }

  method AddLabels(before: Labels, r: Reader, d: Digest) returns (l: Labels)
    requires d.schema == LABEL_DIGEST_SCHEMA && d.verdict in SCOREABLE && d.trial != ""
    requires r.available && NamedState(r, d.trial).Ok?
    ensures forall jid :: jid in l.jids <==> jid in before.jids || (jid != "" && exists e :: Anchors(r, d, e) && Detail(e, "jid") == Some(jid))
    ensures forall trial :: trial in l.trials <==> trial in before.trials || (trial == d.trial && exists e :: Anchors(r, d, e))
  {
    l := before;
    var events := NamedState(r, d.trial).events;
    for i := 0 to |events|
      invariant forall jid :: jid in l.jids <==>
                  (jid in before.jids || (jid != "" && exists e :: e in events[..i] && Anchors(r, d, e) && Detail(e, "jid") == Some(jid)))
      invariant forall trial :: trial in l.trials <==>
                  (trial in before.trials || (trial == d.trial && exists e :: e in events[..i] && Anchors(r, d, e)))
    {
      var e := events[i];
      assert forall x :: x in events[..i + 1] <==> x in events[..i] || x == e;
      if e.id in d.eventIds && CaptainLabel(e) {
        assert Anchors(r, d, e);
        var jid := Detail(e, "jid");
        l := Labels(if jid.Some? && jid.value != "" then l.jids + {jid.value} else l.jids, l.trials + {d.trial});
      }
    }
    assert events[..|events|] == events;
  }

  // ----- recompute verification events

  const RECOMPUTE_ACTION := "recompute_verification"

  predicate Verifies(e: Event, agreement: string) {
    Detail(e, "action") == Some(RECOMPUTE_ACTION) && Detail(e, "agreement") == Some(agreement)
    && agreement in {"agree", "disagree"}
  }

  /** A verification is an event that carries the recompute action and the agreement,
      which is one of the two verdicts. */
  lemma VerifiesExactly(e: Event, agreement: string)
    ensures Verifies(e, agreement) <==>
              (agreement == "agree" || agreement == "disagree")
              && Carries(e, map["action" := "recompute_verification", "agreement" := agreement])
  {
  }

  /** Agreements per journal id and per row digest, in scan order. */
  datatype Recompute = Recompute(byJid: map<string, seq<string>>, bySha: map<string, seq<string>>)

  function Hits(m: map<string, seq<string>>, key: string): seq<string> {
    if key in m then m[key] else []
  }

  function Add(m: map<string, seq<string>>, key: Option<string>, agreement: string): map<string, seq<string>> {
    if key.Some? && key.value != "" then m[key.value := Hits(m, key.value) + [agreement]] else m
  }

  function AddEvent(index: Recompute, e: Event): Recompute {
    var a := Detail(e, "agreement");
    if a.Some? && Verifies(e, a.value)
    then Recompute(Add(index.byJid, Detail(e, "jid"), a.value), Add(index.bySha, Detail(e, "row_sha256"), a.value))
    else index
  }

  function Index(events: seq<Event>): Recompute {
    if events == [] then Recompute(map[], map[])
    else AddEvent(Index(events[..|events| - 1]), events[|events| - 1])
  }

  method RecomputeIndex(r: Reader, trials: seq<string>) returns (index: Recompute)
    ensures index == Index(Readable(r, trials))
  {
    index := Recompute(map[], map[]);
    for s := 0 to |trials|
      invariant index == Index(Readable(r, trials[..s]))
    {
      assert trials[..s + 1][..s] == trials[..s];
      index := AddEvents(index, Readable(r, trials[..s]), EventsIn(NamedState(r, trials[s])));
    }
    assert trials[..|trials|] == trials;
  }

  method AddEvents(before: Recompute, ghost seen: seq<Event>, events: seq<Event>) returns (index: Recompute)
    requires before == Index(seen)
    ensures index == Index(seen + events)
  {
    index := before;
    assert seen + events[..0] == seen;
    for i := 0 to |events|
      invariant index == Index(seen + events[..i])
    {
      assert (seen + events[..i + 1])[..|seen| + i] == seen + events[..i];
      index := AddEvent(index, events[i]);
    }
    assert events[..|events|] == events;
  }

  /** The index holds an agreement under a key exactly when some readable event
      verifies it under that key. */
  lemma {:induction false} IndexHolds(events: seq<Event>, key: string, agreement: string)
    requires key != ""
    ensures agreement in Hits(Index(events).byJid, key)
            <==> exists e :: e in events && Verifies(e, agreement) && Detail(e, "jid") == Some(key)
    ensures agreement in Hits(Index(events).bySha, key)
            <==> exists e :: e in events && Verifies(e, agreement) && Detail(e, "row_sha256") == Some(key)
    decreases |events|
  {
    if events != [] {
      var past, last := events[..|events| - 1], events[|events| - 1];
      IndexHolds(past, key, agreement);
      assert forall e :: e in events <==> e in past || e == last;
    }
  }

  /** Nothing but agreements and disagreements is ever indexed, and nothing is
      indexed under an empty key. */
  lemma {:induction false} OnlyVerdictsIndexed(events: seq<Event>, key: string, a: string)
    requires a in Hits(Index(events).byJid, key) || a in Hits(Index(events).bySha, key)
    ensures a in {"agree", "disagree"} && key != ""
    decreases |events|
  {
    var past := events[..|events| - 1];
    if a in Hits(Index(past).byJid, key) || a in Hits(Index(past).bySha, key) {
      OnlyVerdictsIndexed(past, key, a);
    }
  }
}
