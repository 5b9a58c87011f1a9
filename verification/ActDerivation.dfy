/** Re-deriving act-lane outcomes from undo-journal bytes. */
module ActDerivation {
  import opened Options
  import opened EvidencePlane
  import opened RecomputeRecording

  const AGREE := "agree"
  const DISAGREE := "disagree"
  const UNDERIVABLE := "underivable"
  const TTL_OK_MARKER := "ttl-48h survived"
  const SILENT_REVERT_MARKER := "silent revert"

  datatype JournalRow = JournalRow(
    canary: bool,
    demo: bool,
    reversedAt: bool,
    status: string,
    executedAt: bool,
    ttlExpires: Option<Instant>)

  datatype ProbeAnswer = Raises | State(exists_: bool, archived: bool)

  datatype Kind = TtlOk | SilentRevert

  function KindName(kind: Kind): string {
    match kind case TtlOk => "act_ttl_ok" case SilentRevert => "act_silent_revert"
  }

  function ClaimText(kind: Kind): string {
    match kind case TtlOk => "ok" case SilentRevert => "failed"
  }

  predicate Reversed(j: JournalRow) {
    j.reversedAt || j.status in {"reversed", "reversal_failed", "dead_letter"}
  }

  function Underivable(reason: string): (Option<string>, string) {
    (None, UNDERIVABLE + ":" + reason)
  }

  /** (rederived outcome, agreement) for one machine claim. */
  function DeriveAct(kind: Kind, journal: Option<JournalRow>, probe: Option<JournalRow -> ProbeAnswer>, now: Instant): (Option<string>, string) {
    match journal
    case None => Underivable("journal-row-gone")
    case Some(j) =>
      if j.canary || j.demo then (Some("ineligible"), DISAGREE)
      else match kind
        case TtlOk =>
          if Reversed(j) then (Some("failed"), DISAGREE)
          else if j.status == "void" then (Some("void"), DISAGREE)
          else if j.status != "executed" || !j.executedAt || j.ttlExpires.None? then Underivable("journal-row-malformed")
          else if j.ttlExpires.value >= now then (Some("ttl-not-elapsed"), DISAGREE)
          else (Some("ok"), AGREE)
        case SilentRevert =>
          if Reversed(j) then (Some("failed"), AGREE)
          else match probe
            case None => Underivable("artifact-unavailable")
            case Some(ask) =>
              match ask(j)
              case Raises => Underivable("probe-error")
              case State(exists_, archived) =>
                if !exists_ || archived then (Some("failed"), AGREE) else (Some("ok"), DISAGREE)
  }

  /** Losing the journal row, or the probe, or an answer of the probe, never
      turns a claim into a contradicted one; and a contradiction that needed no
      probe stands whatever the probe says. */
  lemma AbsenceNeverContradicts(kind: Kind, journal: Option<JournalRow>, probe: Option<JournalRow -> ProbeAnswer>, now: Instant)
    ensures DeriveAct(kind, None, probe, now).1 != DISAGREE
    ensures DeriveAct(kind, journal, None, now).1 == DISAGREE ==> DeriveAct(kind, journal, probe, now).1 == DISAGREE
    ensures probe.Some? && journal.Some? && probe.value(journal.value).Raises? && DeriveAct(kind, journal, None, now).1 != DISAGREE
            ==> DeriveAct(kind, journal, probe, now).1 != DISAGREE
    ensures DeriveAct(kind, journal, probe, now).1 == AGREE ==> DeriveAct(kind, journal, probe, now).0 == Some(ClaimText(kind))
    ensures DeriveAct(kind, journal, probe, now).1 == DISAGREE ==>
              DeriveAct(kind, journal, probe, now).0.Some? && DeriveAct(kind, journal, probe, now).0 != Some(ClaimText(kind))
  {
  }

  /** The journal shows the action undone, by its own hand or by a failed attempt. */
  predicate Undone(j: JournalRow) {
    j.reversedAt || j.status == "reversed" || j.status == "reversal_failed" || j.status == "dead_letter"
  }

  /** The journal row counts, and is neither a canary nor a demo. */
  predicate Counts(journal: Option<JournalRow>) {
    journal.Some? && !journal.value.canary && !journal.value.demo
  }

  predicate ProbeSays(journal: Option<JournalRow>, probe: Option<JournalRow -> ProbeAnswer>, standing: bool) {
    journal.Some? && probe.Some? && probe.value(journal.value).State?
    && (standing <==> probe.value(journal.value).exists_ && !probe.value(journal.value).archived)
  }

  /** A survival claim is agreed to exactly when its action was executed, was not
      undone and has outlived its time; it is contradicted exactly when the row does
      not count, or the action was undone or voided, or is still within its time. */
  lemma SurvivalExactly(journal: Option<JournalRow>, probe: Option<JournalRow -> ProbeAnswer>, now: Instant)
    ensures var agreement := DeriveAct(TtlOk, journal, probe, now).1;
            && (agreement == "agree" <==>
                  Counts(journal) && !Undone(journal.value) && journal.value.status == "executed" && journal.value.executedAt
                  && journal.value.ttlExpires.Some? && journal.value.ttlExpires.value < now)
            && (agreement == "disagree" <==>
                  journal.Some? && (!Counts(journal) || Undone(journal.value) || journal.value.status == "void"
                                    || (journal.value.status == "executed" && journal.value.executedAt
                                        && journal.value.ttlExpires.Some? && journal.value.ttlExpires.value >= now)))
            && (journal.None? ==> agreement == Underivable("journal-row-gone").1)
            && (agreement !in {"agree", "disagree"} && journal.Some? ==> agreement == Underivable("journal-row-malformed").1)
  {
  }

  /** A silent-revert claim is agreed to exactly when the row counts and either the
      journal shows the action undone or the probe finds its artifact gone or
      archived; it is contradicted exactly when the row does not count, or the
      journal shows nothing undone and the probe finds the artifact standing. */
  lemma RevertExactly(journal: Option<JournalRow>, probe: Option<JournalRow -> ProbeAnswer>, now: Instant)
    ensures var agreement := DeriveAct(SilentRevert, journal, probe, now).1;
            && (agreement == "agree" <==> Counts(journal) && (Undone(journal.value) || ProbeSays(journal, probe, false)))
            && (agreement == "disagree" <==>
                  journal.Some? && (!Counts(journal) || (!Undone(journal.value) && ProbeSays(journal, probe, true))))
            && (journal.None? ==> agreement == Underivable("journal-row-gone").1)
            && (Counts(journal) && !Undone(journal.value) && probe.None? ==> agreement == Underivable("artifact-unavailable").1)
            && (Counts(journal) && !Undone(journal.value) && probe.Some? && probe.value(journal.value).Raises?
                ==> agreement == Underivable("probe-error").1)
  {
  }

  /** What is rederived where it is not the claim: an ineligible row, an undone or
      voided action, a time not yet over, an artifact that stands. */
  lemma RederivedExactly(kind: Kind, journal: Option<JournalRow>, probe: Option<JournalRow -> ProbeAnswer>, now: Instant)
    ensures var (outcome, agreement) := DeriveAct(kind, journal, probe, now);
            && (outcome.None? <==> agreement !in {"agree", "disagree"})
            && (outcome == Some("ineligible") <==> journal.Some? && !Counts(journal))
            && (outcome == Some("failed") <==> Counts(journal) && (Undone(journal.value) || (kind == SilentRevert && ProbeSays(journal, probe, false))))
            && (outcome == Some("void") <==> kind == TtlOk && Counts(journal) && !Undone(journal.value) && journal.value.status == "void")
            && (outcome == Some("ttl-not-elapsed") <==> kind == TtlOk && Counts(journal) && !Undone(journal.value) && agreement == "disagree"
                                                        && journal.value.status == "executed")
            && (outcome == Some("ok") <==> if kind == TtlOk then agreement == "agree" else Counts(journal) && agreement == "disagree")
  {
    SurvivalExactly(journal, probe, now);
    RevertExactly(journal, probe, now);
  }

  /** A survival label once contradicted stays contradicted as the clock runs,
      unless only its clock was at fault. */
  lemma OnlyTheClockHeals(j: JournalRow, probe: Option<JournalRow -> ProbeAnswer>, now: Instant, later: Instant)
    requires now <= later
    requires DeriveAct(TtlOk, Some(j), probe, now).1 == DISAGREE && DeriveAct(TtlOk, Some(j), probe, later).1 != DISAGREE
    ensures DeriveAct(TtlOk, Some(j), probe, later) == (Some("ok"), AGREE)
    ensures j.ttlExpires.Some? && now <= j.ttlExpires.value < later
  {
  }

  // ----- targets

  function KindOf(row: Row): Option<Kind> {
    if row.outcomeStatus == "ok" && TTL_OK_MARKER <= row.outcomeEvidence then Some(TtlOk)
    else if row.outcomeStatus == "failed" && SILENT_REVERT_MARKER <= row.outcomeEvidence then Some(SilentRevert)
    else None
  }

  /** What one act-lane derivation can look at. `digest` is the canonical digest
      of (kind, journal id, row digest, claim). */
  datatype Lane = Lane(
    journal: map<string, JournalRow>,
    probe: Option<JournalRow -> ProbeAnswer>,
    since: Instant,
    until: Option<Instant>,
    now: Instant,
    digest: (string, Option<string>, string, string) -> string)

  function LastJid(row: Row): Option<string> {
    var jids := RowJids(row);
    if jids == [] then None else Some(jids[|jids| - 1])
  }

  function Derived(lane: Lane, row: Row, kind: Kind): (Option<string>, string) {
    match LastJid(row)
    case None => Underivable("journal-join-missing")
    case Some(jid) =>
      DeriveAct(kind, if jid in lane.journal then Some(lane.journal[jid]) else None, lane.probe, lane.now)
  }

  /** Keys with empty values are left out of the recorded detail. */
  function Truthy(name: string, value: Option<string>): map<string, string> {
    if value.Some? && value.value != "" then map[name := value.value] else map[]
  }

  function ActTarget(lane: Lane, row: Row): Option<Target> {
    if row.ts < lane.since || (lane.until.Some? && row.ts > lane.until.value) then None
    else match KindOf(row)
      case None => None
      case Some(kind) =>
        var (rederived, agreement) := Derived(lane, row, kind);
        var name, claim := KindName(kind), ClaimText(kind);
        Some(Target(row.ts, lane.digest(name, LastJid(row), row.sha, claim), agreement,
                    map["target" := name, "claim" := claim, "rederived" := if rederived.Some? then rederived.value else "None"]
                    + Truthy("jid", LastJid(row)) + Truthy("row_sha256", Some(row.sha))))
  }

  function ActTargets(lane: Lane, rows: seq<Row>): seq<Target> {
    if rows == [] then []
    else
      var t := ActTarget(lane, rows[|rows| - 1]);
      ActTargets(lane, rows[..|rows| - 1]) + if t.Some? then [t.value] else []
  }

  method CollectActTargets(lane: Lane, rows: seq<Row>) returns (targets: seq<Target>)
    ensures targets == ActTargets(lane, rows)
  {
    targets := [];
    for i := 0 to |rows|
      invariant targets == ActTargets(lane, rows[..i])
    {
      assert rows[..i + 1][..i] == rows[..i];
      var row := rows[i];
      if row.ts < lane.since || (lane.until.Some? && row.ts > lane.until.value) {
        continue;
      }
      var kind := KindOf(row);
      if kind.None? {
        continue;
      }
      var t := ActTarget(lane, row);
      targets := targets + [t.value];
    }
    assert rows[..|rows|] == rows;
  }

  lemma {:induction false} TargetFromRow(lane: Lane, rows: seq<Row>, t: Target) returns (row: Row)
    requires t in ActTargets(lane, rows)
    ensures row in rows && ActTarget(lane, row) == Some(t)
    decreases |rows|
  {
    row := rows[|rows| - 1];
    if ActTarget(lane, row) != Some(t) {
      row := TargetFromRow(lane, rows[..|rows| - 1], t);
    }
  }

  predicate Classified(agreement: string) {
    agreement in {AGREE, DISAGREE} || UNDERIVABLE <= agreement
  }

  lemma DerivedAgreement(kind: Kind, journal: Option<JournalRow>, probe: Option<JournalRow -> ProbeAnswer>, now: Instant)
    ensures var a := DeriveAct(kind, journal, probe, now).1; a in {AGREE, DISAGREE} || UNDERIVABLE + ":" < a
  {
  }

  /** Every target of the lane is inside the window, and its agreement is agree,
      disagree, or underivable with a reason. */
  lemma TargetsWellFormed(lane: Lane, rows: seq<Row>, t: Target)
    requires t in ActTargets(lane, rows)
    ensures lane.since <= t.ts && (lane.until.Some? ==> t.ts <= lane.until.value)
    ensures t.agreement in {AGREE, DISAGREE} || UNDERIVABLE + ":" < t.agreement
    ensures Classified(t.agreement)
  {
    var row := TargetFromRow(lane, rows, t);
    var jid := LastJid(row);
    DerivedAgreement(KindOf(row).value, if jid.Some? && jid.value in lane.journal then Some(lane.journal[jid.value]) else None, lane.probe, lane.now);
    assert UNDERIVABLE <= UNDERIVABLE + ":";
  }

  /** The journal row a ledger row's last journal id leads to. */
  function Joined(lane: Lane, row: Row): Option<JournalRow> {
    var jids := RowJids(row);
    if jids == [] || jids[|jids| - 1] !in lane.journal then None else Some(lane.journal[jids[|jids| - 1]])
  }

  predicate InLane(lane: Lane, row: Row) {
    lane.since <= row.ts && (lane.until.Some? ==> row.ts <= lane.until.value)
  }

  /** The two machine claims, by what the row itself says. */
  predicate ClaimsSurvival(row: Row) {
    row.outcomeStatus == "ok" && "ttl-48h survived" <= row.outcomeEvidence
  }

  predicate ClaimsRevert(row: Row) {
    row.outcomeStatus == "failed" && "silent revert" <= row.outcomeEvidence
  }

  /** A row makes a target exactly when it lies in the window and makes one of the
      two claims; the target carries the row's own time, claim, digest and last
      journal id, and the verdict derived from the journal row they lead to. */
  lemma TargetExactly(lane: Lane, row: Row)
    ensures ActTarget(lane, row).Some? <==> InLane(lane, row) && (ClaimsSurvival(row) || ClaimsRevert(row))
    ensures ActTarget(lane, row).Some? ==>
              var t := ActTarget(lane, row).value;
              var kind := if ClaimsSurvival(row) then TtlOk else SilentRevert;
              && t.ts == row.ts
              && t.agreement == (if RowJids(row) == [] then Underivable("journal-join-missing").1
                                 else DeriveAct(kind, Joined(lane, row), lane.probe, lane.now).1)
              && t.claimSha == lane.digest(KindName(kind), LastJid(row), row.sha, row.outcomeStatus)
  {
  }

  function Printed(outcome: Option<string>): string {
    if outcome.Some? then outcome.value else "None"
  }

  lemma TargetDetailsExactly(lane: Lane, row: Row)
    requires ActTarget(lane, row).Some?
    ensures var d := ActTarget(lane, row).value.details;
            && d["target"] == (if ClaimsSurvival(row) then "act_ttl_ok" else "act_silent_revert")
            && d["claim"] == row.outcomeStatus
            && d["rederived"] == Printed(if RowJids(row) == [] then None
                                         else DeriveAct(if ClaimsSurvival(row) then TtlOk else SilentRevert,
                                                        Joined(lane, row), lane.probe, lane.now).0)
            && ("jid" in d <==> RowJids(row) != []) && (RowJids(row) != [] ==> d["jid"] == RowJids(row)[|RowJids(row)| - 1])
            && ("row_sha256" in d <==> row.sha != "") && (row.sha != "" ==> d["row_sha256"] == row.sha)
  {
    JidsNonEmpty(row.refs, UNDO_REF_PREFIX);
    if RowJids(row) != [] {
      assert RowJids(row)[|RowJids(row)| - 1] in RowJids(row);
    }
  }

  /** What the collected targets say of the ledger: they are those of its rows in
      order, and each agrees or contradicts exactly as its row's claim and joined
      journal row do. */
  lemma {:induction false} TargetsExactly(lane: Lane, rows: seq<Row>, t: Target)
    ensures t in ActTargets(lane, rows) <==> exists row :: row in rows && ActTarget(lane, row) == Some(t)
    decreases |rows|
  {
    if rows != [] {
      var before, last := rows[..|rows| - 1], rows[|rows| - 1];
      TargetsExactly(lane, before, t);
      assert forall row :: row in rows <==> row in before || row == last;
    }
  }

  /** Lifted to one collected survival claim and one collected revert claim. */
  lemma CollectedExactly(lane: Lane, row: Row, t: Target)
    requires ActTarget(lane, row) == Some(t)
    ensures var j := Joined(lane, row);
            && (ClaimsSurvival(row) ==>
                  && (t.agreement == "agree" <==>
                        Counts(j) && !Undone(j.value) && j.value.status == "executed" && j.value.executedAt
                        && j.value.ttlExpires.Some? && j.value.ttlExpires.value < lane.now)
                  && (t.agreement == "disagree" <==>
                        j.Some? && (!Counts(j) || Undone(j.value) || j.value.status == "void"
                                    || (j.value.status == "executed" && j.value.executedAt
                                        && j.value.ttlExpires.Some? && j.value.ttlExpires.value >= lane.now))))
            && (ClaimsRevert(row) ==>
                  && (t.agreement == "agree" <==> Counts(j) && (Undone(j.value) || ProbeSays(j, lane.probe, false)))
                  && (t.agreement == "disagree" <==>
                        j.Some? && (!Counts(j) || (!Undone(j.value) && ProbeSays(j, lane.probe, true)))))
  {
    TargetExactly(lane, row);
    SurvivalExactly(Joined(lane, row), lane.probe, lane.now);
    RevertExactly(Joined(lane, row), lane.probe, lane.now);
  }

  /** A contradicted target always names a journal id of its own row: without
      one the lane has nothing to contradict the claim with. */
  lemma ContradictionNamesJid(lane: Lane, row: Row)
    requires ActTarget(lane, row).Some? && ActTarget(lane, row).value.agreement == DISAGREE
    ensures var d := DetailOf(ActTarget(lane, row).value);
            && d["action"] == ACTION && d["agreement"] == DISAGREE
            && "jid" in d && d["jid"] != "" && d["jid"] in RowJids(row)
  {
    JidsNonEmpty(row.refs, UNDO_REF_PREFIX);
    var jid := LastJid(row);
    assert jid.Some? && jid.value in RowJids(row);
  }

  lemma {:induction false} JidsNonEmpty(refs: seq<string>, prefix: string)
    ensures forall jid | jid in RefsUnder(refs, prefix) :: jid != ""
  {
    if refs != [] {
      JidsNonEmpty(refs[1..], prefix);
    }
  }
}
