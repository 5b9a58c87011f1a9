/** What a fuel verdict means in terms of the evidence it was given. */
module FuelTheorems {
  import opened Options
  import opened EvidencePlane
  import opened FuelIndexes
  import opened FuelIntegrity
  import ActDerivation

  // ----- grounded, exactly

  predicate ThirdLegHolds(ev: Evidence, row: Row) {
    LabelAnchored(ev, row) || (RecomputeHits(ev, row) != [] && "disagree" !in RecomputeHits(ev, row))
  }

  /** A row is grounded exactly when all six signals hold. */
  lemma GroundedExactly(ev: Evidence, row: Row)
    ensures VerdictOf(ev, row) == Grounded <==>
              && ev.reader.available
              && LastClaimed(row).Some? && NamedState(ev.reader, LastClaimed(row).value).Ok?
              && row.sha in ev.receipts
              && ThirdLegHolds(ev, row)
              && ev.receipts[row.sha].attestation == "process"
              && (row.cell in ev.cells ==> ev.cells[row.cell] == Pass)
  {
  }

  /** The degradation ledger explains absences; it never grounds a row nor
      ungrounds one, and never turns a contradiction into anything else. */
  lemma DegradationsGroundNothing(ev: Evidence, row: Row, other: seq<Degradation>)
    ensures VerdictOf(ev, row) == Grounded <==> VerdictOf(ev.(degradations := other), row) == Grounded
    ensures VerdictOf(ev, row) == Ungrounded(RecomputeContradictsClaim)
            <==> VerdictOf(ev.(degradations := other), row) == Ungrounded(RecomputeContradictsClaim)
  {
    LedgerStaysOut(ev, row, other);
    LedgerMovesNoMirror(ev, row, other);
  }

  lemma LedgerMovesNoMirror(ev: Evidence, row: Row, other: seq<Degradation>)
    ensures var mirror, changed := MirrorVerdict(ev, row), MirrorVerdict(ev.(degradations := other), row);
            && (mirror.Some? <==> changed.Some?)
            && (mirror.Some? ==> mirror.value != Grounded && mirror.value != Ungrounded(RecomputeContradictsClaim))
            && (changed.Some? ==> changed.value != Grounded && changed.value != Ungrounded(RecomputeContradictsClaim))
  {
  }

  lemma LedgerStaysOut(ev: Evidence, row: Row, other: seq<Degradation>)
    ensures ThirdLegVerdict(ev.(degradations := other), row) == ThirdLegVerdict(ev, row)
    ensures CellVerdict(ev.(degradations := other), row) == CellVerdict(ev, row)
  {
  }

  // ----- joins against readable events

  ghost predicate ByJid(events: seq<Event>, row: Row, agreement: string) {
    exists e, jid :: e in events && Verifies(e, agreement) && jid in RowJids(row) && Detail(e, "jid") == Some(jid)
  }

  ghost predicate BySha(events: seq<Event>, row: Row, agreement: string) {
    row.sha != "" && exists e :: e in events && Verifies(e, agreement) && Detail(e, "row_sha256") == Some(row.sha)
  }

  lemma {:induction false} JidHitsHold(events: seq<Event>, jids: seq<string>, agreement: string)
    requires forall jid | jid in jids :: jid != ""
    ensures agreement in JidHits(Index(events).byJid, jids)
            <==> exists e, jid :: e in events && Verifies(e, agreement) && jid in jids && Detail(e, "jid") == Some(jid)
    decreases |jids|
  {
    if jids != [] {
      assert jids[0] in jids && forall jid | jid in jids[1..] :: jid in jids;
      IndexHolds(events, jids[0], agreement);
      JidHitsHold(events, jids[1..], agreement);
      assert forall jid :: jid in jids <==> jid == jids[0] || jid in jids[1..];
    }
  }

  lemma {:induction false} JidHitsAreVerdicts(events: seq<Event>, jids: seq<string>)
    ensures forall a | a in JidHits(Index(events).byJid, jids) :: a in {"agree", "disagree"}
    decreases |jids|
  {
    if jids != [] {
      JidHitsAreVerdicts(events, jids[1..]);
      forall a | a in Hits(Index(events).byJid, jids[0]) ensures a in {"agree", "disagree"} {
        OnlyVerdictsIndexed(events, jids[0], a);
      }
    }
  }

  /** What the third leg sees of the recompute plane, said about raw events. */
  lemma HitsExactly(ev: Evidence, events: seq<Event>, row: Row)
    requires ev.recompute == Index(events)
    ensures "disagree" in RecomputeHits(ev, row) <==>
              ByJid(events, row, "disagree") || (!ByJid(events, row, "agree") && BySha(events, row, "disagree"))
    ensures RecomputeHits(ev, row) != [] <==>
              ByJid(events, row, "agree") || ByJid(events, row, "disagree") || BySha(events, row, "agree") || BySha(events, row, "disagree")
  {
    var jids := RowJids(row);
    ActDerivation.JidsNonEmpty(row.refs, UNDO_REF_PREFIX);
    JidHitsHold(events, jids, "agree");
    JidHitsHold(events, jids, "disagree");
    JidHitsAreVerdicts(events, jids);
    var byJid := JidHits(ev.recompute.byJid, jids);
    if byJid != [] {
      assert byJid[0] in byJid;
    }
    var bySha := Hits(ev.recompute.bySha, row.sha);
    if bySha != [] {
      OnlyVerdictsIndexed(events, row.sha, bySha[0]);
      assert bySha[0] in bySha;
    }
    if row.sha != "" {
      IndexHolds(events, row.sha, "agree");
      IndexHolds(events, row.sha, "disagree");
    }
  }

  /** A recompute contradiction surfaces exactly when the mirror holds up, no
      anchored label speaks for the row, and a disagreement is joined by journal
      id, or by row digest with no verification joined by journal id. */
  lemma ContradictionExactly(ev: Evidence, events: seq<Event>, row: Row)
    requires ev.recompute == Index(events)
    ensures VerdictOf(ev, row) == Ungrounded(RecomputeContradictsClaim) <==>
              && MirrorVerdict(ev, row).None? && !LabelAnchored(ev, row)
              && (ByJid(events, row, "disagree") || (!ByJid(events, row, "agree") && BySha(events, row, "disagree")))
  {
    HitsExactly(ev, events, row);
    ContradictedByHits(ev, row);
  }

  lemma ContradictedByHits(ev: Evidence, row: Row)
    ensures VerdictOf(ev, row) == Ungrounded(RecomputeContradictsClaim)
            <==> MirrorVerdict(ev, row).None? && !LabelAnchored(ev, row) && "disagree" in RecomputeHits(ev, row)
  {
    assert forall v | v == MirrorVerdict(ev, row) && v.Some? :: v.value != Ungrounded(RecomputeContradictsClaim);
  }

  /** An agreement under a journal id, a disagreement under a digest alone. */
  function SplitEvents(row: Row, jid: string): seq<Event> {
    [Event("a", "", "system", Some(map["action" := RECOMPUTE_ACTION, "agreement" := "agree", "jid" := jid])),
     Event("d", "", "system", Some(map["action" := RECOMPUTE_ACTION, "agreement" := "disagree", "row_sha256" := row.sha]))]
  }

  /** On events that no recompute leg writes, a disagreement joined by row digest
      alone is not looked at once an agreement is joined by journal id. */
  lemma DigestOnlyDisagreementCanLose(ev: Evidence, row: Row, jid: string)
    requires jid in RowJids(row) && row.sha != "" && ev.recompute == Index(SplitEvents(row, jid))
    ensures BySha(SplitEvents(row, jid), row, "disagree") && "disagree" !in RecomputeHits(ev, row)
  {
    var events := SplitEvents(row, jid);
    assert events[1] in events && Verifies(events[1], "disagree");
    assert events[0] in events && Verifies(events[0], "agree") && Detail(events[0], "jid") == Some(jid);
    HitsExactly(ev, events, row);
  }

  /** One more disagreement, however it is joined and wherever it is scanned,
      never makes an ungrounded row grounded. */
  lemma DisagreementNeverGrounds(ev: Evidence, before: seq<Event>, after: seq<Event>, e: Event, row: Row)
    requires ev.recompute == Index(before + after) && Verifies(e, "disagree")
    ensures VerdictOf(ev.(recompute := Index(before + [e] + after)), row) == Grounded ==> VerdictOf(ev, row) == Grounded
  {
    var more := ev.(recompute := Index(before + [e] + after));
    HitsExactly(ev, before + after, row);
    HitsExactly(more, before + [e] + after, row);
    assert forall x :: x in before + [e] + after <==> x in before + after || x == e;
    assert LabelAnchored(more, row) <==> LabelAnchored(ev, row);
    if VerdictOf(more, row) == Grounded {
      GroundedExactly(ev, row);
      GroundedExactly(more, row);
    }
  }
}
