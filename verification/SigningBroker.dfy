/** The signing broker: what one request does to its state, how the serve loop
    logs before it answers, and what that guarantees over every run. */
module SigningBroker {
  import opened Options
  import RateLimiter
  import opened MintedMemory

  const MAX_WIRE_SEQUENCE := 1_000_000
  const MAX_PAYLOAD_CANONICAL_BYTES := 32 * 1024
  const MAX_UPDATED_AT_LEN := 40
  const ANCHOR_SCHEMA_VALUE := "cabinet.evidence-anchor/v1"
  const ANCHOR_PAYLOAD_KEYS := {"schema", "trial_id", "sequence", "event_hash", "event_signature", "updated_at"}
  const SIGNABLE_PURPOSES := {"anchor"}
  const VERIFIABLE_PURPOSES := {"anchor", "control", "purge", "watermark"}

  datatype Json =
    | Null
    | Bool(b: bool)
    | Int(n: int)
    | Float(r: real)
    | Str(s: string)
    | List(items: seq<Json>)
    | Obj(fields: map<string, Json>)

  type Fields = map<string, Json>

  /** A typed refusal stops the evaluation, as the source's exception does. */
  datatype Checked<+T> = Pass(value: T) | Fail(code: string) {
    predicate IsFailure() { Fail? }
    function PropagateFailure<U>(): Checked<U> requires Fail? { Fail(code) }
    function Extract(): T requires Pass? { value }
  }

  datatype Reply = Signature(mac: string) | Validity(valid: bool)

  /** `Raised`: the verb ended in an exception that is not a refusal. */
  datatype Outcome = Answer(reply: Reply) | Refusal(code: string) | Raised

  /** `mac` is the keyed digest of a message; `canonical` is the canonical text of an
      object, one character a byte, None when it has none. */
  datatype Config = Config(
    identities: map<int, string>,
    rate: RateLimiter.Rate,
    mac: string -> string,
    canonical: Fields -> Option<string>)

  // ----- what is signed

  function Digits(n: nat): string {
    if n < 10 then [('0' as int + n) as char] else Digits(n / 10) + [('0' as int + n % 10) as char]
  }

  function EventMessage(e: Entry): string
    requires e.key.sequence >= 0
  {
    "event\n" + e.key.trial + "\n" + Digits(e.key.sequence) + "\n" + e.hash
  }

  function ObjectMessage(purpose: string, text: string): string {
    purpose + "\n" + text
  }

  // ----- field validators

  function Get(f: Fields, name: string): Json {
    if name in f then f[name] else Null
  }

  predicate Alnum(c: char) {
    'A' <= c <= 'Z' || 'a' <= c <= 'z' || '0' <= c <= '9'
  }

  predicate TrialIdShaped(s: string) {
    1 <= |s| <= 128 && Alnum(s[0])
    && forall i | 1 <= i < |s| :: Alnum(s[i]) || s[i] in "._:-"
  }

  predicate Hex64(s: string) {
    |s| == 64 && forall i | 0 <= i < 64 :: 'a' <= s[i] <= 'f' || '0' <= s[i] <= '9'
  }

  function TrialField(v: Json): Checked<string> {
    if v.Str? && TrialIdShaped(v.s) then Pass(v.s) else Fail("bad_trial_id")
  }

  function SequenceField(v: Json): (r: Checked<int>)
    ensures r.Pass? ==> r.value > 0
  {
    if v.Int? && 1 <= v.n <= MAX_WIRE_SEQUENCE then Pass(v.n) else Fail("bad_sequence")
  }

  function HexField(v: Json, code: string): Checked<string> {
    if v.Str? && Hex64(v.s) then Pass(v.s) else Fail(code)
  }

  function Shape(f: Fields, required: set<string>): Checked<()> {
    if required <= f.Keys <= required + {"verb", "identity"} then Pass(()) else Fail("request_shape")
  }

  function EventFields(f: Fields): (r: Checked<Entry>)
    ensures r.Pass? ==> r.value.key.sequence > 0
  {
    var trial :- TrialField(Get(f, "trial_id"));
    var sequence :- SequenceField(Get(f, "sequence"));
    var hash :- HexField(Get(f, "event_hash"), "bad_event_hash");
    Pass(Entry(Key(trial, sequence), hash))
  }

  /** The object and its canonical text. */
  function Payload(cfg: Config, v: Json): Checked<(Fields, string)> {
    if !v.Obj? then Fail("bad_payload")
    else match cfg.canonical(v.fields)
      case None => Fail("bad_payload")
      case Some(text) => if |text| > MAX_PAYLOAD_CANONICAL_BYTES then Fail("payload_oversize") else Pass((v.fields, text))
  }

  /** The recorder's tip-anchor payload and nothing else. */
  predicate AnchorShaped(f: Fields) {
    f.Keys == ANCHOR_PAYLOAD_KEYS
    && f["schema"] == Str(ANCHOR_SCHEMA_VALUE)
    && TrialField(f["trial_id"]).Pass? && SequenceField(f["sequence"]).Pass?
    && HexField(f["event_hash"], "").Pass? && HexField(f["event_signature"], "").Pass?
    && f["updated_at"].Str? && 1 <= |f["updated_at"].s| <= MAX_UPDATED_AT_LEN
  }

  /** None: the purpose cannot even be looked up in a set. */
  function PurposeField(v: Json): Option<Checked<string>> {
    match v
    case List(_) => None
    case Obj(_) => None
    case Str(s) => Some(if s in VERIFIABLE_PURPOSES then Pass(s) else Fail("purpose_unknown"))
    case _ => Some(Fail("purpose_unknown"))
  }

  // ----- the verbs

  function SignEvent(cfg: Config, minted: seq<Entry>, f: Fields): Checked<(Entry, Reply)> {
    var _ :- Shape(f, {"trial_id", "sequence", "event_hash"});
    var e :- EventFields(f);
    if Accepts(minted, e) then Pass((e, Signature(cfg.mac(EventMessage(e)))))
    else Fail("sign_divergence")
  }

  function VerifyEvent(cfg: Config, f: Fields): Checked<Reply> {
    var _ :- Shape(f, {"trial_id", "sequence", "event_hash", "signature"});
    var e :- EventFields(f);
    var mac :- HexField(Get(f, "signature"), "bad_signature");
    Pass(Validity(mac == cfg.mac(EventMessage(e))))
  }

  function SignObject(cfg: Config, purpose: string, f: Fields): Checked<Reply> {
    if purpose !in SIGNABLE_PURPOSES then Fail("purpose_not_served")
    else
      var payload :- Payload(cfg, Get(f, "payload"));
      if AnchorShaped(payload.0) then Pass(Signature(cfg.mac(ObjectMessage(purpose, payload.1)))) else Fail("anchor_schema")
  }

  function VerifyObject(cfg: Config, purpose: string, f: Fields): Checked<Reply> {
    var payload :- Payload(cfg, Get(f, "payload"));
    var mac :- HexField(Get(f, "signature"), "bad_signature");
    Pass(Validity(mac == cfg.mac(ObjectMessage(purpose, payload.1))))
  }

  function ToOutcome(c: Checked<Reply>): Outcome {
    match c case Pass(r) => Answer(r) case Fail(code) => Refusal(code)
  }

  function ObjectVerb(cfg: Config, verb: string, f: Fields): Outcome {
    var required := if verb == "sign-object" then {"purpose", "payload"} else {"purpose", "payload", "signature"};
    match Shape(f, required)
    case Fail(code) => Refusal(code)
    case Pass(_) =>
      match PurposeField(Get(f, "purpose"))
      case None => Raised
      case Some(Fail(code)) => Refusal(code)
      case Some(Pass(purpose)) =>
        ToOutcome(if verb == "sign-object" then SignObject(cfg, purpose, f) else VerifyObject(cfg, purpose, f))
  }

  /** A request whose sender is known and within its rate: the outcome, and the
      key and hash it newly committed to, if any. */
  function Execute(cfg: Config, minted: seq<Entry>, identity: string, request: Json): (Outcome, Option<Entry>) {
    if !request.Obj? then (Refusal("request_shape"), None)
    else
      var f := request.fields;
      if Get(f, "identity") != Null && Get(f, "identity") != Str(identity) then (Refusal("identity_mismatch"), None)
      else match Get(f, "verb")
        case Str(verb) =>
          if verb == "sign-event" then
            match SignEvent(cfg, minted, f)
            case Fail(code) => (Refusal(code), None)
            case Pass((e, reply)) => (Answer(reply), Some(e))
          else if verb == "verify-event" then (ToOutcome(VerifyEvent(cfg, f)), None)
          else if verb == "sign-object" || verb == "verify-object" then (ObjectVerb(cfg, verb, f), None)
          else (Refusal("unknown_verb"), None)
        case _ => (Refusal("unknown_verb"), None)
  }

  datatype State = State(buckets: map<RateLimiter.Uid, RateLimiter.Bucket>, minted: seq<Entry>)

  datatype Handled = Handled(state: State, outcome: Outcome, minting: Option<Entry>)

  function IdentityFor(cfg: Config, uid: Option<int>): Checked<string> {
    match uid
    case None => Fail("peer_cred_unavailable")
    case Some(u) => if u in cfg.identities then Pass(cfg.identities[u]) else Fail("peer_unmapped")
  }

  function Handle(cfg: Config, st: State, uid: Option<int>, request: Json, now: real): Handled {
    match IdentityFor(cfg, uid)
    case Fail(code) => Handled(st, Refusal(code), None)
    case Pass(identity) =>
      var (buckets, allowed) := RateLimiter.Allow(cfg.rate, st.buckets, uid.value, now);
      if !allowed then Handled(State(buckets, st.minted), Refusal("rate_limited"), None)
      else
        var (outcome, minting) := Execute(cfg, st.minted, identity, request);
        var minted := if minting.Some? then Remember(st.minted, minting.value, MINTED_MEMORY) else st.minted;
        Handled(State(buckets, minted), outcome, minting)
  }

  /** The transport-free core: a limiter and a memory, both changed in place. */
  class BrokerCore {
    const cfg: Config
    const limiter: RateLimiter.Limiter
    const minted: Minted

    ghost predicate Valid()
      reads this, minted
    {
      limiter.rate == cfg.rate && Distinct(minted.entries)
    }

    ghost function Abstract(): State
      reads this, limiter, minted
    {
      State(limiter.buckets, minted.entries)
    }

    constructor (cfg: Config)
      ensures Valid() && fresh(limiter) && fresh(minted)
      ensures this.cfg == cfg && Abstract() == State(map[], [])
    {
      this.cfg := cfg;
      limiter := new RateLimiter.Limiter(cfg.rate.capacity, cfg.rate.refill);
      minted := new Minted();
    }

    method HandleRequest(uid: Option<int>, request: Json, now: real) returns (outcome: Outcome)
      requires Valid()
      modifies limiter, minted
      ensures Valid()
      ensures var h := Handle(cfg, old(Abstract()), uid, request, now);
              Abstract() == h.state && outcome == h.outcome
    {
      var identity := IdentityFor(cfg, uid);
      if identity.Fail? {
        return Refusal(identity.code);
      }
      var allowed := limiter.AllowAt(uid.value, now);
      if !allowed {
        return Refusal("rate_limited");
      }
      if !request.Obj? {
        return Refusal("request_shape");
      }
      var f := request.fields;
      var claimed := Get(f, "identity");
      if claimed != Null && claimed != Str(identity.value) {
        return Refusal("identity_mismatch");
      }
      var verb := Get(f, "verb");
      if verb == Str("sign-event") {
        outcome := MintEvent(f);
      } else if verb == Str("verify-event") {
        outcome := ToOutcome(VerifyEvent(cfg, f));
      } else if verb == Str("sign-object") || verb == Str("verify-object") {
        outcome := ObjectVerb(cfg, verb.s, f);
      } else {
        outcome := Refusal("unknown_verb");
      }
    }

    method MintEvent(f: Fields) returns (outcome: Outcome)
      requires Valid()
      modifies minted
      ensures Valid()
      ensures match SignEvent(cfg, old(minted.entries), f)
              case Fail(code) => outcome == Refusal(code) && minted.entries == old(minted.entries)
              case Pass((e, reply)) =>
                outcome == Answer(reply) && minted.entries == Remember(old(minted.entries), e, MINTED_MEMORY)
    {
      var shape := Shape(f, {"trial_id", "sequence", "event_hash"});
      if shape.Fail? {
        return Refusal(shape.code);
      }
      var e := EventFields(f);
      if e.Fail? {
        return Refusal(e.code);
      }
      var key, hash := e.value.key, e.value.hash;
      var ok := minted.DivergenceCheck(key.trial, key.sequence, hash);
      if !ok {
        return Refusal("sign_divergence");
      }
      outcome := Answer(Signature(cfg.mac(EventMessage(Entry(key, hash)))));
    }
  }

  // ----- what one request can and cannot do

  /** A sender without an identity, or over its rate, changes no memory; without
      an identity it changes no bucket either. Beyond that only an answered
      sign-event changes the memory, and only by its own key and hash. */
  lemma OnlyMintingRemembers(cfg: Config, st: State, uid: Option<int>, request: Json, now: real)
    ensures var h := Handle(cfg, st, uid, request, now);
            && (IdentityFor(cfg, uid).Fail? ==> h.state == st)
            && (h.minting.None? ==> h.state.minted == st.minted)
            && (!h.outcome.Answer? ==> h.minting.None?)
            && (h.minting.Some? ==>
                  Accepts(st.minted, h.minting.value)
                  && request.Obj? && Get(request.fields, "verb") == Str("sign-event")
                  && EventFields(request.fields) == Pass(h.minting.value)
                  && h.state.minted == Remember(st.minted, h.minting.value, MINTED_MEMORY))
    ensures forall other :: uid != Some(other) ==>
              RateLimiter.Level(cfg.rate, Handle(cfg, st, uid, request, now).state.buckets, other, now)
              == RateLimiter.Level(cfg.rate, st.buckets, other, now)
  {
  }

  /** No request makes the broker sign anything but an event triple the sender
      was let commit to, or one anchor payload of the exact schema. */
  lemma SignsOnlyFrozenShapes(cfg: Config, st: State, uid: Option<int>, request: Json, now: real, mac: string)
    requires Handle(cfg, st, uid, request, now).outcome == Answer(Signature(mac))
    ensures var h := Handle(cfg, st, uid, request, now);
            || (h.minting.Some? && h.minting.value.key.sequence > 0 && mac == cfg.mac(EventMessage(h.minting.value)))
            || (exists payload: Fields :: AnchorShaped(payload) && Get(request.fields, "payload") == Obj(payload)
                  && cfg.canonical(payload).Some? && mac == cfg.mac(ObjectMessage("anchor", cfg.canonical(payload).value)))
    ensures uid.Some? && uid.value in cfg.identities
    ensures Get(request.fields, "verb") in {Str("sign-event"), Str("sign-object")}
  {
    var h := Handle(cfg, st, uid, request, now);
    var f := request.fields;
    if h.minting.None? {
      assert Get(f, "verb") == Str("sign-object");
      var payload := Payload(cfg, Get(f, "payload")).value.0;
      assert AnchorShaped(payload) && mac == cfg.mac(ObjectMessage("anchor", cfg.canonical(payload).value));
    }
  }
}
