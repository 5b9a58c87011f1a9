/** What the checkers read: consequence-ledger rows and the events of evidence
    trials. Canonical digests are carried as fields of what they digest. */
module EvidencePlane {
  import opened Options

  /** Instants are seconds since the epoch. */
  type Instant = int

  const SECONDS_PER_DAY: int := 86400

  function Day(t: Instant): int {
    t / SECONDS_PER_DAY
  }

  /** A day trial: one chain segment of one class on one day. */
  datatype TrialKey = TrialKey(cls: string, segment: nat, day: int)

  /** `detail` keeps the text-valued keys of an event's detail, None when the
      event has no detail mapping. */
  datatype Event = Event(id: string, hash: string, actorKind: string, detail: Option<map<string, string>>)

  function Detail(e: Event, name: string): Option<string> {
    if e.detail.Some? && name in e.detail.value then Some(e.detail.value[name]) else None
  }

  datatype Cell = Cell(actor: string, lane: string, actionType: string)

  /** A ledger row; `sha` is its canonical digest. */
  datatype Row = Row(
    ts: Instant,
    refs: seq<string>,
    sha: string,
    cell: Cell,
    proposal: bool,
    outcomeStatus: string,
    outcomeEvidence: string,
    reviewVerdict: string,
    reviewSource: string)

  const UNDO_REF_PREFIX := "undo-journal:"
  const MIRROR_REF_PREFIX := "evidence-trial:"

  /** The refs under `prefix`, prefix dropped, order kept. */
  function RefsUnder(refs: seq<string>, prefix: string): seq<string> {
    if refs == [] then []
    else (if prefix < refs[0] then [refs[0][|prefix|..]] else []) + RefsUnder(refs[1..], prefix)
  }

  function RowJids(row: Row): seq<string> {
    RefsUnder(row.refs, UNDO_REF_PREFIX)
  }

  /** Each element once, where it comes first. */
  function FirstOccurrences(s: seq<string>): seq<string> {
    if s == [] then []
    else
      var before := FirstOccurrences(s[..|s| - 1]);
      if s[|s| - 1] in before then before else before + [s[|s| - 1]]
  }

  lemma {:induction false} FirstOccurrencesKeep(s: seq<string>)
    ensures forall x :: x in FirstOccurrences(s) <==> x in s
    decreases |s|
  {
    if s != [] {
      FirstOccurrencesKeep(s[..|s| - 1]);
      assert forall x :: x in s <==> x in s[..|s| - 1] || x == s[|s| - 1];
    }
  }

  /** The trials the row claims to be mirrored in; a repeat does not move one. */
  function MirrorTrials(row: Row): seq<string> {
    FirstOccurrences(RefsUnder(row.refs, MIRROR_REF_PREFIX))
  }
}
