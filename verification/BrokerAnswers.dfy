/** What the broker answers: each request form exactly, each refusal exactly, and
    the round trip of a signature through the verify verbs. */
module BrokerAnswers {
  import opened Options
  import RateLimiter
  import opened MintedMemory
  import opened SigningBroker

  // ----- who gets as far as being read

  /** A mapped peer with a token to spend. */
  predicate Admitted(cfg: Config, st: State, uid: Option<int>, now: real) {
    uid.Some? && uid.value in cfg.identities && RateLimiter.Level(cfg.rate, st.buckets, uid.value, now) >= 1.0
  }

  lemma AdmissionExactly(cfg: Config, st: State, uid: Option<int>, request: Json, now: real)
    ensures var outcome := Handle(cfg, st, uid, request, now).outcome;
            && (outcome == Refusal("peer_cred_unavailable") <==> uid.None?)
            && (outcome == Refusal("peer_unmapped") <==> uid.Some? && uid.value !in cfg.identities)
            && (outcome == Refusal("rate_limited") <==> uid.Some? && uid.value in cfg.identities && !Admitted(cfg, st, uid, now))
  {
    AdmittedIsExecuted(cfg, st, uid, request, now);
    if Admitted(cfg, st, uid, now) {
      var outcome := Execute(cfg, st.minted, cfg.identities[uid.value], request).0;
      ExecutionCodes(cfg, st.minted, cfg.identities[uid.value], request);
    }
  }

  lemma AdmittedIsExecuted(cfg: Config, st: State, uid: Option<int>, request: Json, now: real)
    ensures Admitted(cfg, st, uid, now) ==>
              Handle(cfg, st, uid, request, now).outcome == Execute(cfg, st.minted, cfg.identities[uid.value], request).0
    ensures !Admitted(cfg, st, uid, now) ==>
              Handle(cfg, st, uid, request, now).outcome
              == Refusal(if uid.None? then "peer_cred_unavailable" else if uid.value !in cfg.identities then "peer_unmapped" else "rate_limited")
  {
  }

  const CODES := {"request_shape", "identity_mismatch", "unknown_verb", "bad_trial_id", "bad_sequence", "bad_event_hash",
                  "bad_signature", "sign_divergence", "purpose_unknown", "purpose_not_served", "bad_payload",
                  "payload_oversize", "anchor_schema"}

  lemma ExecutionCodes(cfg: Config, minted: seq<Entry>, identity: string, request: Json)
    ensures var outcome := Execute(cfg, minted, identity, request).0; outcome.Refusal? ==> outcome.code in CODES
  {
  }

  // ----- requests, field by field

  /** What a well-formed event triple is. */
  predicate Nameable(e: Entry) {
    TrialIdShaped(e.key.trial) && 1 <= e.key.sequence <= MAX_WIRE_SEQUENCE && Hex64(e.hash)
  }

  /** The two alphabets, by code point. */
  lemma AlphabetsExactly(c: char)
    ensures Alnum(c) <==> 48 <= c as int <= 57 || 65 <= c as int <= 90 || 97 <= c as int <= 122
  {
  }

  /** A trial id is 1 to 128 letters, digits, dots, underscores, colons and dashes and
      begins with a letter or digit; a digest is 64 lower-case hex digits. Neither holds
      a line break. */
  lemma ShapesExactly(s: string)
    ensures TrialIdShaped(s) <==>
              0 < |s| < 129 && (forall c | c in s :: Alnum(c) || c in {'.', '_', ':', '-'}) && s[0] !in {'.', '_', ':', '-'}
    ensures Hex64(s) <==> |s| == 64 && forall c | c in s :: 48 <= c as int <= 57 || 97 <= c as int <= 102
    ensures TrialIdShaped(s) || Hex64(s) ==> '\n' !in s
  {
    assert forall i | 0 <= i < |s| :: s[i] in s;
  }

  function SignEventForm(e: Entry): Fields {
    map["verb" := Str("sign-event"), "trial_id" := Str(e.key.trial), "sequence" := Int(e.key.sequence), "event_hash" := Str(e.hash)]
  }

  function VerifyEventForm(e: Entry, mac: string): Fields {
    map["verb" := Str("verify-event"), "trial_id" := Str(e.key.trial), "sequence" := Int(e.key.sequence),
        "event_hash" := Str(e.hash), "signature" := Str(mac)]
  }

  function SignObjectForm(purpose: string, payload: Fields): Fields {
    map["verb" := Str("sign-object"), "purpose" := Str(purpose), "payload" := Obj(payload)]
  }

  function VerifyObjectForm(purpose: string, payload: Fields, mac: string): Fields {
    map["verb" := Str("verify-object"), "purpose" := Str(purpose), "payload" := Obj(payload), "signature" := Str(mac)]
  }

  /** The request has that form; it may claim the sender's identity, or none. */
  predicate Says(request: Json, identity: string, form: Fields) {
    request in {Obj(form), Obj(form["identity" := Null]), Obj(form["identity" := Str(identity)])}
  }

  /** An anchor of one event: the fixed schema, the triple, its signature, a time. */
  ghost predicate IsAnchor(payload: Fields) {
    exists e: Entry, signature, at ::
      && Nameable(e) && Hex64(signature) && 1 <= |at| <= 40
      && payload == AnchorOf(e, signature, at)
  }

  function AnchorOf(e: Entry, signature: string, at: string): Fields {
    map["schema" := Str("cabinet.evidence-anchor/v1"), "trial_id" := Str(e.key.trial), "sequence" := Int(e.key.sequence),
        "event_hash" := Str(e.hash), "event_signature" := Str(signature), "updated_at" := Str(at)]
  }

  lemma AnchorsExactly(payload: Fields)
    ensures AnchorShaped(payload) <==> IsAnchor(payload)
  {
    if AnchorShaped(payload) {
      var e := Entry(Key(payload["trial_id"].s, payload["sequence"].n), payload["event_hash"].s);
      assert payload == AnchorOf(e, payload["event_signature"].s, payload["updated_at"].s);
    }
  }

  /** The canonical text of an object the broker takes: at most 32 KiB. */
  predicate Takes(cfg: Config, payload: Fields) {
    cfg.canonical(payload).Some? && |cfg.canonical(payload).value| <= 32768
  }

  // ----- the four answers

  /** A sign-event is answered, with the digest of its triple, exactly when the
      history lets it be; otherwise it is refused as divergent and nothing is
      remembered. */
  lemma SignEventAnswers(cfg: Config, st: State, h: seq<Entry>, uid: Option<int>, request: Json, now: real, e: Entry)
    requires Admitted(cfg, st, uid, now) && st.minted == Memory(h, MINTED_MEMORY)
    requires Nameable(e) && Says(request, cfg.identities[uid.value], SignEventForm(e))
    ensures var done := Handle(cfg, st, uid, request, now);
            if MayCommit(h, e, MINTED_MEMORY)
            then done.outcome == Answer(Signature(cfg.mac(EventMessage(e)))) && done.state.minted == Memory(h + [e], MINTED_MEMORY)
            else done.outcome == Refusal("sign_divergence") && done.state.minted == st.minted
  {
    AcceptsExactly(h, e, MINTED_MEMORY);
    SignEventReads(request, cfg.identities[uid.value], e);
    assert (h + [e])[..|h|] == h;
  }

  lemma SignEventReads(request: Json, identity: string, e: Entry)
    requires Nameable(e) && Says(request, identity, SignEventForm(e))
    ensures request.Obj? && Get(request.fields, "verb") == Str("sign-event")
    ensures Get(request.fields, "identity") in {Null, Str(identity)}
    ensures Shape(request.fields, {"trial_id", "sequence", "event_hash"}) == Pass(())
    ensures EventFields(request.fields) == Pass(e)
  {
  }

  /** A verify-event is always answered: valid exactly for the digest of its triple. */
  lemma VerifyEventAnswers(cfg: Config, st: State, uid: Option<int>, request: Json, now: real, e: Entry, mac: string)
    requires Admitted(cfg, st, uid, now)
    requires Nameable(e) && Hex64(mac) && Says(request, cfg.identities[uid.value], VerifyEventForm(e, mac))
    ensures Handle(cfg, st, uid, request, now).outcome == Answer(Validity(mac == cfg.mac(EventMessage(e))))
  {
    VerifyEventReads(request, cfg.identities[uid.value], e, mac);
  }

  lemma VerifyEventReads(request: Json, identity: string, e: Entry, mac: string)
    requires Nameable(e) && Hex64(mac) && Says(request, identity, VerifyEventForm(e, mac))
    ensures request.Obj? && Get(request.fields, "verb") == Str("verify-event")
    ensures Get(request.fields, "identity") in {Null, Str(identity)}
    ensures Shape(request.fields, {"trial_id", "sequence", "event_hash", "signature"}) == Pass(())
    ensures EventFields(request.fields) == Pass(e) && Get(request.fields, "signature") == Str(mac)
  {
  }

  /** A sign-object is answered exactly for an anchor that fits. */
  lemma SignObjectAnswers(cfg: Config, st: State, uid: Option<int>, request: Json, now: real, purpose: string, payload: Fields)
    requires Admitted(cfg, st, uid, now)
    requires Says(request, cfg.identities[uid.value], SignObjectForm(purpose, payload))
    ensures var outcome := Handle(cfg, st, uid, request, now).outcome;
            outcome == if purpose !in {"anchor", "control", "purge", "watermark"} then Refusal("purpose_unknown")
                       else if purpose != "anchor" then Refusal("purpose_not_served")
                       else if cfg.canonical(payload).None? then Refusal("bad_payload")
                       else if !Takes(cfg, payload) then Refusal("payload_oversize")
                       else if !IsAnchor(payload) then Refusal("anchor_schema")
                       else Answer(Signature(cfg.mac(ObjectMessage("anchor", cfg.canonical(payload).value))))
  {
    AnchorsExactly(payload);
    SignObjectReads(request, cfg.identities[uid.value], purpose, payload);
  }

  lemma SignObjectReads(request: Json, identity: string, purpose: string, payload: Fields)
    requires Says(request, identity, SignObjectForm(purpose, payload))
    ensures request.Obj? && Get(request.fields, "verb") == Str("sign-object")
    ensures Get(request.fields, "identity") in {Null, Str(identity)}
    ensures Shape(request.fields, {"purpose", "payload"}) == Pass(())
    ensures Get(request.fields, "purpose") == Str(purpose) && Get(request.fields, "payload") == Obj(payload)
  {
  }

  /** A verify-object over a known purpose and a payload that fits is always
      answered: valid exactly for the digest of its purpose and payload. */
  lemma VerifyObjectAnswers(cfg: Config, st: State, uid: Option<int>, request: Json, now: real,
                            purpose: string, payload: Fields, mac: string)
    requires Admitted(cfg, st, uid, now)
    requires Hex64(mac) && Says(request, cfg.identities[uid.value], VerifyObjectForm(purpose, payload, mac))
    ensures var outcome := Handle(cfg, st, uid, request, now).outcome;
            outcome == if purpose !in {"anchor", "control", "purge", "watermark"} then Refusal("purpose_unknown")
                       else if cfg.canonical(payload).None? then Refusal("bad_payload")
                       else if !Takes(cfg, payload) then Refusal("payload_oversize")
                       else Answer(Validity(mac == cfg.mac(ObjectMessage(purpose, cfg.canonical(payload).value))))
  {
    VerifyObjectReads(request, cfg.identities[uid.value], purpose, payload, mac);
  }

  lemma VerifyObjectReads(request: Json, identity: string, purpose: string, payload: Fields, mac: string)
    requires Says(request, identity, VerifyObjectForm(purpose, payload, mac))
    ensures request.Obj? && Get(request.fields, "verb") == Str("verify-object")
    ensures Get(request.fields, "identity") in {Null, Str(identity)}
    ensures Shape(request.fields, {"purpose", "payload", "signature"}) == Pass(())
    ensures Get(request.fields, "purpose") == Str(purpose) && Get(request.fields, "payload") == Obj(payload)
    ensures Get(request.fields, "signature") == Str(mac)
  {
  }

  // ----- round trips

  /** Whatever a sign-event is answered, a verify-event of the same triple, by any
      admitted peer at any later state, is answered valid for exactly that
      signature and invalid for every other string of its shape. */
  lemma SignThenVerify(cfg: Config, st: State, uid: Option<int>, request: Json, now: real, e: Entry, answered: string,
                       later: State, peer: Option<int>, check: Json, then_: real, mac: string)
    requires Nameable(e) && uid.Some? && uid.value in cfg.identities
    requires Says(request, cfg.identities[uid.value], SignEventForm(e))
    requires Handle(cfg, st, uid, request, now).outcome == Answer(Signature(answered))
    requires Admitted(cfg, later, peer, then_) && Hex64(mac)
    requires Says(check, cfg.identities[peer.value], VerifyEventForm(e, mac))
    ensures Handle(cfg, later, peer, check, then_).outcome == Answer(Validity(mac == answered))
  {
    SignEventReads(request, cfg.identities[uid.value], e);
    VerifyEventAnswers(cfg, later, peer, check, then_, e, mac);
  }

  lemma SignThenVerifyObject(cfg: Config, st: State, uid: Option<int>, request: Json, now: real, payload: Fields, answered: string,
                             later: State, peer: Option<int>, check: Json, then_: real, mac: string)
    requires uid.Some? && uid.value in cfg.identities
    requires Says(request, cfg.identities[uid.value], SignObjectForm("anchor", payload))
    requires Handle(cfg, st, uid, request, now).outcome == Answer(Signature(answered))
    requires Admitted(cfg, later, peer, then_) && Hex64(mac)
    requires Says(check, cfg.identities[peer.value], VerifyObjectForm("anchor", payload, mac))
    ensures Handle(cfg, later, peer, check, then_).outcome == Answer(Validity(mac == answered))
  {
    AdmissionExactly(cfg, st, uid, request, now);
    SignObjectAnswers(cfg, st, uid, request, now, "anchor", payload);
    VerifyObjectAnswers(cfg, later, peer, check, then_, "anchor", payload, mac);
  }

  /** Sending an answered sign-event again, with whatever the broker committed to in
      between, is answered with the same signature, as long as nothing in between
      carried another hash for its key. */
  lemma RetryIsAnswered(cfg: Config, st: State, h: seq<Entry>, uid: Option<int>, request: Json, now: real, e: Entry, answered: string,
                        since: seq<Entry>, later: State, then_: real)
    requires Nameable(e) && st.minted == Memory(h, MINTED_MEMORY) && Admitted(cfg, st, uid, now)
    requires Says(request, cfg.identities[uid.value], SignEventForm(e))
    requires Handle(cfg, st, uid, request, now).outcome == Answer(Signature(answered))
    requires (forall x | x in since && x.key == e.key :: x.hash == e.hash)
    requires later.minted == Memory(h + [e] + since, MINTED_MEMORY) && Admitted(cfg, later, uid, then_)
    ensures Handle(cfg, later, uid, request, then_).outcome == Answer(Signature(answered))
  {
    SignEventAnswers(cfg, st, h, uid, request, now, e);
    RetryIsAccepted(h, e, since, MINTED_MEMORY);
    AcceptsExactly(h + [e] + since, e, MINTED_MEMORY);
    SignEventAnswers(cfg, later, h + [e] + since, uid, request, then_, e);
  }

  // ----- nothing else is answered, and why not

  /** The request is one of the four forms, in full. */
  ghost predicate Formed(cfg: Config, h: seq<Entry>, identity: string, request: Json) {
    || (exists e :: Nameable(e) && MayCommit(h, e, MINTED_MEMORY) && Says(request, identity, SignEventForm(e)))
    || (exists e, mac :: Nameable(e) && Hex64(mac) && Says(request, identity, VerifyEventForm(e, mac)))
    || (exists payload :: Takes(cfg, payload) && IsAnchor(payload) && Says(request, identity, SignObjectForm("anchor", payload)))
    || (exists purpose, payload, mac ::
          purpose in {"anchor", "control", "purge", "watermark"} && Takes(cfg, payload) && Hex64(mac)
          && Says(request, identity, VerifyObjectForm(purpose, payload, mac)))
  }

  /** A request is answered exactly when its peer is admitted and it is one of the
      four forms. */
  lemma AnsweredExactly(cfg: Config, st: State, h: seq<Entry>, uid: Option<int>, request: Json, now: real)
    requires st.minted == Memory(h, MINTED_MEMORY)
    ensures Handle(cfg, st, uid, request, now).outcome.Answer?
            <==> Admitted(cfg, st, uid, now) && Formed(cfg, h, cfg.identities[uid.value], request)
  {
    AdmittedIsExecuted(cfg, st, uid, request, now);
    if Admitted(cfg, st, uid, now) {
      var identity := cfg.identities[uid.value];
      if Execute(cfg, st.minted, identity, request).0.Answer? {
        AnswerIsFormed(cfg, st.minted, h, identity, request);
      }
      if Formed(cfg, h, identity, request) {
        FormedIsAnswered(cfg, st, h, uid, request, now);
      }
    }
  }

  lemma FormedIsAnswered(cfg: Config, st: State, h: seq<Entry>, uid: Option<int>, request: Json, now: real)
    requires st.minted == Memory(h, MINTED_MEMORY)
    requires Admitted(cfg, st, uid, now) && Formed(cfg, h, cfg.identities[uid.value], request)
    ensures Handle(cfg, st, uid, request, now).outcome.Answer?
  {
    var identity := cfg.identities[uid.value];
    if e :| Nameable(e) && MayCommit(h, e, MINTED_MEMORY) && Says(request, identity, SignEventForm(e)) {
      SignEventAnswers(cfg, st, h, uid, request, now, e);
    } else if e, mac :| Nameable(e) && Hex64(mac) && Says(request, identity, VerifyEventForm(e, mac)) {
      VerifyEventAnswers(cfg, st, uid, request, now, e, mac);
    } else if payload :| Takes(cfg, payload) && IsAnchor(payload) && Says(request, identity, SignObjectForm("anchor", payload)) {
      SignObjectAnswers(cfg, st, uid, request, now, "anchor", payload);
    } else {
      var purpose, payload, mac :| purpose in {"anchor", "control", "purge", "watermark"} && Takes(cfg, payload) && Hex64(mac)
        && Says(request, identity, VerifyObjectForm(purpose, payload, mac));
      VerifyObjectAnswers(cfg, st, uid, request, now, purpose, payload, mac);
    }
  }

  /** The request says exactly what its fields say. */
  lemma SaysItsFields(f: Fields, identity: string, form: Fields)
    requires form.Keys <= f.Keys <= form.Keys + {"identity"} && "identity" !in form
    requires forall name | name in form :: f[name] == form[name]
    requires Get(f, "identity") in {Null, Str(identity)}
    ensures Says(Obj(f), identity, form)
  {
    if "identity" !in f {
      assert f == form;
    } else {
      assert f == form["identity" := f["identity"]];
    }
  }

  lemma AnswerIsFormed(cfg: Config, minted: seq<Entry>, h: seq<Entry>, identity: string, request: Json)
    requires minted == Memory(h, MINTED_MEMORY)
    requires Execute(cfg, minted, identity, request).0.Answer?
    ensures Formed(cfg, h, identity, request)
  {
    var f := request.fields;
    var verb := Get(f, "verb").s;
    if verb == "sign-event" {
      SignEventIsFormed(cfg, minted, h, identity, f);
    } else if verb == "verify-event" {
      VerifyEventIsFormed(cfg, identity, f);
    } else if verb == "sign-object" {
      SignObjectIsFormed(cfg, identity, f);
    } else {
      VerifyObjectIsFormed(cfg, identity, f);
    }
  }

  lemma SignEventIsFormed(cfg: Config, minted: seq<Entry>, h: seq<Entry>, identity: string, f: Fields)
    requires minted == Memory(h, MINTED_MEMORY)
    requires Get(f, "verb") == Str("sign-event") && Get(f, "identity") in {Null, Str(identity)} && SignEvent(cfg, minted, f).Pass?
    ensures exists e :: Nameable(e) && MayCommit(h, e, MINTED_MEMORY) && Says(Obj(f), identity, SignEventForm(e))
  {
    var e := EventFields(f).value;
    AcceptsExactly(h, e, MINTED_MEMORY);
    SaysItsFields(f, identity, SignEventForm(e));
  }

  lemma VerifyEventIsFormed(cfg: Config, identity: string, f: Fields)
    requires Get(f, "verb") == Str("verify-event") && Get(f, "identity") in {Null, Str(identity)} && VerifyEvent(cfg, f).Pass?
    ensures exists e, mac :: Nameable(e) && Hex64(mac) && Says(Obj(f), identity, VerifyEventForm(e, mac))
  {
    var e, mac := EventFields(f).value, f["signature"].s;
    SaysItsFields(f, identity, VerifyEventForm(e, mac));
  }

  lemma SignObjectIsFormed(cfg: Config, identity: string, f: Fields)
    requires Get(f, "verb") == Str("sign-object") && Get(f, "identity") in {Null, Str(identity)}
    requires ObjectVerb(cfg, "sign-object", f).Answer?
    ensures exists payload :: Takes(cfg, payload) && IsAnchor(payload) && Says(Obj(f), identity, SignObjectForm("anchor", payload))
  {
    var payload := f["payload"].fields;
    AnchorsExactly(payload);
    SaysItsFields(f, identity, SignObjectForm("anchor", payload));
  }

  lemma VerifyObjectIsFormed(cfg: Config, identity: string, f: Fields)
    requires Get(f, "verb") == Str("verify-object") && Get(f, "identity") in {Null, Str(identity)}
    requires ObjectVerb(cfg, "verify-object", f).Answer?
    ensures exists purpose, payload, mac ::
              purpose in {"anchor", "control", "purge", "watermark"} && Takes(cfg, payload) && Hex64(mac)
              && Says(Obj(f), identity, VerifyObjectForm(purpose, payload, mac))
  {
    var purpose, payload, mac := f["purpose"].s, f["payload"].fields, f["signature"].s;
    SaysItsFields(f, identity, VerifyObjectForm(purpose, payload, mac));
  }

  predicate Readable(request: Json, identity: string) {
    request.Obj? && Get(request.fields, "identity") in {Null, Str(identity)}
  }

  function Required(verb: string): set<string> {
    match verb
    case "sign-event" => {"trial_id", "sequence", "event_hash"}
    case "verify-event" => {"trial_id", "sequence", "event_hash", "signature"}
    case "sign-object" => {"purpose", "payload"}
    case "verify-object" => {"purpose", "payload", "signature"}
    case _ => {}
  }

  predicate KeysFit(f: Fields, verb: string) {
    Required(verb) <= f.Keys <= Required(verb) + {"verb", "identity"}
  }

  const VERBS := {Str("sign-event"), Str("verify-event"), Str("sign-object"), Str("verify-object")}

  /** Of an admitted peer's request: which one is refused before its fields are read. */
  lemma EnvelopeRefusals(cfg: Config, st: State, uid: Option<int>, request: Json, now: real)
    requires Admitted(cfg, st, uid, now)
    ensures var outcome, identity := Handle(cfg, st, uid, request, now).outcome, cfg.identities[uid.value];
            && (outcome == Refusal("identity_mismatch") <==> request.Obj? && !Readable(request, identity))
            && (outcome == Refusal("unknown_verb") <==> Readable(request, identity) && Get(request.fields, "verb") !in VERBS)
            && (outcome == Refusal("request_shape") <==>
                  !request.Obj? || (Readable(request, identity) && Get(request.fields, "verb") in VERBS
                                    && !KeysFit(request.fields, Get(request.fields, "verb").s)))
  {
    var identity := cfg.identities[uid.value];
    AdmittedIsExecuted(cfg, st, uid, request, now);
    if Readable(request, identity) && Get(request.fields, "verb") in VERBS {
      VerbCodes(cfg, st.minted, identity, request.fields);
    }
  }

  lemma VerbCodes(cfg: Config, minted: seq<Entry>, identity: string, f: Fields)
    requires Readable(Obj(f), identity) && Get(f, "verb") in VERBS
    ensures var o := Execute(cfg, minted, identity, Obj(f)).0;
            && o != Refusal("identity_mismatch") && o != Refusal("unknown_verb")
            && (o == Refusal("request_shape") <==> !KeysFit(f, Get(f, "verb").s))
  {
    var verb := Get(f, "verb").s;
    if verb in {"sign-object", "verify-object"} {
      ObjectCodes(cfg, f, verb);
    } else {
      EventCodes(cfg, minted, f);
    }
  }

  lemma EventCodes(cfg: Config, minted: seq<Entry>, f: Fields)
    ensures var s := SignEvent(cfg, minted, f);
            s.Fail? ==> s.code !in {"identity_mismatch", "unknown_verb"} && (s.code == "request_shape" <==> !KeysFit(f, "sign-event"))
    ensures SignEvent(cfg, minted, f).Pass? ==> KeysFit(f, "sign-event")
    ensures var v := VerifyEvent(cfg, f);
            v.Fail? ==> v.code !in {"identity_mismatch", "unknown_verb"} && (v.code == "request_shape" <==> !KeysFit(f, "verify-event"))
    ensures VerifyEvent(cfg, f).Pass? ==> KeysFit(f, "verify-event")
  {
    assert KeysFit(f, "sign-event") <==> Shape(f, {"trial_id", "sequence", "event_hash"}).Pass?;
    assert KeysFit(f, "verify-event") <==> Shape(f, {"trial_id", "sequence", "event_hash", "signature"}).Pass?;
  }

  lemma ObjectCodes(cfg: Config, f: Fields, verb: string)
    requires verb in {"sign-object", "verify-object"}
    ensures var o := ObjectVerb(cfg, verb, f);
            && (!KeysFit(f, verb) <==> o == Refusal("request_shape"))
            && (o.Refusal? ==> o.code !in {"identity_mismatch", "unknown_verb"})
  {
    if KeysFit(f, verb) {
      ObjectOutcome(cfg, verb, f);
    }
  }

  predicate TrialRight(f: Fields) {
    Get(f, "trial_id").Str? && TrialIdShaped(Get(f, "trial_id").s)
  }

  predicate SequenceRight(f: Fields) {
    Get(f, "sequence").Int? && 1 <= Get(f, "sequence").n <= 1_000_000
  }

  predicate HexRight(v: Json) {
    v.Str? && Hex64(v.s)
  }

  /** Of the two event verbs: each refusal names the first field that is wrong. */
  lemma EventRefusals(cfg: Config, st: State, uid: Option<int>, f: Fields, now: real, verb: string)
    requires Admitted(cfg, st, uid, now) && Readable(Obj(f), cfg.identities[uid.value])
    requires verb in {"sign-event", "verify-event"} && Get(f, "verb") == Str(verb) && KeysFit(f, verb)
    ensures var outcome := Handle(cfg, st, uid, Obj(f), now).outcome;
            && (outcome == Refusal("bad_trial_id") <==> !TrialRight(f))
            && (outcome == Refusal("bad_sequence") <==> TrialRight(f) && !SequenceRight(f))
            && (outcome == Refusal("bad_event_hash") <==> TrialRight(f) && SequenceRight(f) && !HexRight(Get(f, "event_hash")))
            && (outcome == Refusal("bad_signature") <==>
                  TrialRight(f) && SequenceRight(f) && HexRight(Get(f, "event_hash"))
                  && verb == "verify-event" && !HexRight(Get(f, "signature")))
  {
    AdmittedIsExecuted(cfg, st, uid, Obj(f), now);
  }

  /** Of the two object verbs: a purpose that no set can hold raises, and each
      refusal names the first thing that is wrong. */
  lemma ObjectRefusals(cfg: Config, st: State, uid: Option<int>, f: Fields, now: real, verb: string)
    requires Admitted(cfg, st, uid, now) && Readable(Obj(f), cfg.identities[uid.value])
    requires verb in {"sign-object", "verify-object"} && Get(f, "verb") == Str(verb) && KeysFit(f, verb)
    ensures var outcome, purpose, payload := Handle(cfg, st, uid, Obj(f), now).outcome, Get(f, "purpose"), Get(f, "payload");
            var served := purpose == Str("anchor") || (verb == "verify-object" && purpose in {Str("control"), Str("purge"), Str("watermark")});
            && (outcome == Raised <==> purpose.List? || purpose.Obj?)
            && (outcome == Refusal("purpose_unknown") <==>
                  !purpose.List? && !purpose.Obj? && purpose !in {Str("anchor"), Str("control"), Str("purge"), Str("watermark")})
            && (outcome == Refusal("purpose_not_served") <==>
                  verb == "sign-object" && purpose in {Str("control"), Str("purge"), Str("watermark")})
            && (outcome == Refusal("bad_payload") <==> served && (!payload.Obj? || cfg.canonical(payload.fields).None?))
            && (outcome == Refusal("payload_oversize") <==>
                  served && payload.Obj? && cfg.canonical(payload.fields).Some? && !Takes(cfg, payload.fields))
            && (outcome == Refusal("anchor_schema") <==>
                  served && verb == "sign-object" && payload.Obj? && Takes(cfg, payload.fields) && !IsAnchor(payload.fields))
            && (outcome == Refusal("bad_signature") <==>
                  served && verb == "verify-object" && payload.Obj? && Takes(cfg, payload.fields) && !HexRight(Get(f, "signature")))
  {
    AdmittedIsExecuted(cfg, st, uid, Obj(f), now);
    ObjectOutcome(cfg, verb, f);
  }

  lemma ObjectOutcome(cfg: Config, verb: string, f: Fields)
    requires verb in {"sign-object", "verify-object"} && KeysFit(f, verb)
    ensures var o, purpose, payload := ObjectVerb(cfg, verb, f), Get(f, "purpose"), Get(f, "payload");
            o == if purpose.List? || purpose.Obj? then Raised
                 else if purpose !in {Str("anchor"), Str("control"), Str("purge"), Str("watermark")} then Refusal("purpose_unknown")
                 else if verb == "sign-object" && purpose != Str("anchor") then Refusal("purpose_not_served")
                 else if !payload.Obj? || cfg.canonical(payload.fields).None? then Refusal("bad_payload")
                 else if !Takes(cfg, payload.fields) then Refusal("payload_oversize")
                 else if verb == "sign-object" then
                   if IsAnchor(payload.fields) then Answer(Signature(cfg.mac(ObjectMessage("anchor", cfg.canonical(payload.fields).value))))
                   else Refusal("anchor_schema")
                 else if !HexRight(Get(f, "signature")) then Refusal("bad_signature")
                 else Answer(Validity(f["signature"].s == cfg.mac(ObjectMessage(purpose.s, cfg.canonical(payload.fields).value))))
  {
    if Get(f, "payload").Obj? {
      AnchorsExactly(Get(f, "payload").fields);
    }
  }

  // ----- a signature serves one message

  lemma {:induction false} DigitsAreDigits(n: nat)
    ensures Digits(n) != "" && forall c | c in Digits(n) :: '0' <= c <= '9'
  {
    if n >= 10 {
      DigitsAreDigits(n / 10);
    }
  }

  lemma {:induction false} DigitsTell(m: nat, n: nat)
    requires Digits(m) == Digits(n)
    ensures m == n
  {
    var a, b := Digits(m), Digits(n);
    DigitsAreDigits(m / 10);
    DigitsAreDigits(n / 10);
    assert a[|a| - 1] == b[|b| - 1];
    assert m % 10 == n % 10;
    assert m >= 10 ==> a[..|a| - 1] == Digits(m / 10);
    assert n >= 10 ==> b[..|b| - 1] == Digits(n / 10);
    if m >= 10 && n >= 10 {
      DigitsTell(m / 10, n / 10);
    }
  }

  /** Two texts joined at their first line break. */
  lemma FirstBreak(a: string, x: string, b: string, y: string)
    requires '\n' !in a && '\n' !in b && a + "\n" + x == b + "\n" + y
    ensures a == b && x == y
  {
    var s := a + "\n" + x;
    assert s[|a|] == '\n' && s[|b|] == '\n';
    assert forall i | 0 <= i < |a| :: s[i] == a[i];
    assert forall i | 0 <= i < |b| :: s[i] == b[i];
    assert |a| == |b|;
    assert a == s[..|a|] && b == s[..|b|];
    assert x == s[|a| + 1..] && y == s[|b| + 1..];
  }

  lemma OtherPurpose(purpose: string, text: string, rest: string)
    requires purpose in {"anchor", "control", "purge", "watermark"}
    ensures ObjectMessage(purpose, text) != "event" + "\n" + rest
  {
    if ObjectMessage(purpose, text) == "event" + "\n" + rest {
      FirstBreak(purpose, text, "event", rest);
    }
  }

  /** Different triples make different messages, and no object of any purpose the
      broker knows makes the message of an event. */
  lemma MessagesTell(e: Entry, x: Entry, purpose: string, text: string)
    requires Nameable(e) && Nameable(x)
    ensures EventMessage(e) == EventMessage(x) <==> e == x
    ensures purpose in {"anchor", "control", "purge", "watermark"} ==> ObjectMessage(purpose, text) != EventMessage(e)
  {
    var rest := e.key.trial + "\n" + (Digits(e.key.sequence) + "\n" + e.hash);
    assert EventMessage(e) == "event" + "\n" + rest;
    if EventMessage(e) == EventMessage(x) {
      var more := x.key.trial + "\n" + (Digits(x.key.sequence) + "\n" + x.hash);
      assert EventMessage(x) == "event" + "\n" + more;
      FirstBreak("event", rest, "event", more);
      FirstBreak(e.key.trial, Digits(e.key.sequence) + "\n" + e.hash, x.key.trial, Digits(x.key.sequence) + "\n" + x.hash);
      DigitsAreDigits(e.key.sequence);
      DigitsAreDigits(x.key.sequence);
      FirstBreak(Digits(e.key.sequence), e.hash, Digits(x.key.sequence), x.hash);
      DigitsTell(e.key.sequence, x.key.sequence);
    }
    if purpose in {"anchor", "control", "purge", "watermark"} {
      OtherPurpose(purpose, text, rest);
    }
  }

  /** The digests of the two messages do not collide. */
  predicate Apart(cfg: Config, a: string, b: string) {
    cfg.mac(a) == cfg.mac(b) ==> a == b
  }

  /** A signature answered for one triple verifies for no other, and one answered
      for an anchor verifies for no event: short of a collision of digests, a
      verify-event is answered valid exactly for what a sign-event of its own triple
      was answered. */
  lemma SignatureServesOneTriple(cfg: Config, st: State, uid: Option<int>, request: Json, now: real, signed: Entry, answered: string,
                                 later: State, peer: Option<int>, check: Json, then_: real, e: Entry)
    requires Nameable(signed) && Nameable(e) && uid.Some? && uid.value in cfg.identities
    requires Says(request, cfg.identities[uid.value], SignEventForm(signed))
    requires Handle(cfg, st, uid, request, now).outcome == Answer(Signature(answered))
    requires Admitted(cfg, later, peer, then_) && Hex64(answered)
    requires Says(check, cfg.identities[peer.value], VerifyEventForm(e, answered))
    requires Apart(cfg, EventMessage(signed), EventMessage(e))
    ensures Handle(cfg, later, peer, check, then_).outcome == Answer(Validity(e == signed))
  {
    SignEventReads(request, cfg.identities[uid.value], signed);
    VerifyEventAnswers(cfg, later, peer, check, then_, e, answered);
    MessagesTell(signed, e, "anchor", "");
  }

  lemma AnchorSignatureServesNoEvent(cfg: Config, st: State, uid: Option<int>, request: Json, now: real, payload: Fields, answered: string,
                                     later: State, peer: Option<int>, check: Json, then_: real, e: Entry)
    requires Nameable(e) && uid.Some? && uid.value in cfg.identities
    requires Says(request, cfg.identities[uid.value], SignObjectForm("anchor", payload))
    requires Handle(cfg, st, uid, request, now).outcome == Answer(Signature(answered))
    requires Admitted(cfg, later, peer, then_) && Hex64(answered)
    requires Says(check, cfg.identities[peer.value], VerifyEventForm(e, answered))
    requires cfg.canonical(payload).Some? ==> Apart(cfg, ObjectMessage("anchor", cfg.canonical(payload).value), EventMessage(e))
    ensures Handle(cfg, later, peer, check, then_).outcome == Answer(Validity(false))
  {
    AdmissionExactly(cfg, st, uid, request, now);
    SignObjectAnswers(cfg, st, uid, request, now, "anchor", payload);
    VerifyEventAnswers(cfg, later, peer, check, then_, e, answered);
    MessagesTell(e, e, "anchor", cfg.canonical(payload).value);
  }
}
