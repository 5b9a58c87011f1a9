/** The cross-join of the label journal with the evidence store: every digest
    row must be backed by the ledger of its trial, and every Captain label in
    the store must appear in some row. */
module LabelRecount {
  import opened Options
  import opened StoreLedger
  import opened Counting

  /** A digest row of the journal. `claim` is None for a row written before rows
      named a channel; a row may also claim null. */
  datatype Row = Row(trial: string, hashes: seq<string>, claim: Option<Option<string>>)

  /** The store as read: the ledgers of the trials present, and the trials some
      purge receipt names. */
  datatype Store = Store(ledgers: map<string, seq<Event>>, purged: set<string>)

  datatype Reason = TrialMissing | HashesMissing

  datatype Finding =
    | RowUnbacked(trial: string, reason: Reason)
    | ChannelMismatch(trial: string)
    | LabelUnjournaled(trial: string, position: nat)

  datatype Counts = Counts(backed: nat, excused: nat, legacy: nat, seen: nat, journaled: nat)

  // ----- what the join decides

  ghost predicate Backed(row: Row, store: Store) {
    && row.trial in store.ledgers
    && row.hashes != []
    && forall h | h in row.hashes :: InLedger(store.ledgers[row.trial], h)
  }

  ghost predicate Excused(row: Row, store: Store) {
    row.trial !in store.ledgers && row.trial in store.purged
  }

  ghost predicate Mismatched(row: Row, store: Store) {
    Backed(row, store) && row.claim.Some?
    && exists h | h in row.hashes :: StoredChannel(store.ledgers[row.trial], h) != row.claim.value
  }

  predicate CaptainLabel(event: Event) {
    event.detail.Some? && event.detail.value.isLabel && event.detail.value.byHuman
  }

  ghost predicate Journaled(event: Event, rows: seq<Row>) {
    event.hash.Some? && exists r | 0 <= r < |rows| :: event.hash.value in rows[r].hashes
  }

  ghost predicate RowFound(f: Finding, rows: seq<Row>, store: Store) {
    exists r | 0 <= r < |rows| :: RowReported(f, rows[r], store)
  }

  ghost predicate RowReported(f: Finding, row: Row, store: Store) {
    match f
    case RowUnbacked(trial, reason) =>
      && row.trial == trial && !Backed(row, store) && !Excused(row, store)
      && (reason == TrialMissing <==> trial !in store.ledgers)
    case ChannelMismatch(trial) => row.trial == trial && Mismatched(row, store)
    case LabelUnjournaled(_, _) => false
  }

  ghost predicate LabelFound(f: Finding, trial: string, events: seq<Event>, rows: seq<Row>) {
    f.LabelUnjournaled? && f.trial == trial && f.position < |events|
    && CaptainLabel(events[f.position]) && !Journaled(events[f.position], rows)
  }

  ghost predicate Found(f: Finding, rows: seq<Row>, store: Store) {
    RowFound(f, rows, store) || (f.LabelUnjournaled? && f.trial in store.ledgers
                                 && LabelFound(f, f.trial, store.ledgers[f.trial], rows))
  }

  // ----- counting findings

  predicate IsUnbacked(f: Finding) { f.RowUnbacked? }
  predicate IsMismatch(f: Finding) { f.ChannelMismatch? }
  predicate IsUnjournaled(f: Finding) { f.LabelUnjournaled? }

  function Tally(findings: seq<Finding>, kind: Finding -> bool): nat {
    if findings == [] then 0
    else Tally(findings[..|findings| - 1], kind) + if kind(findings[|findings| - 1]) then 1 else 0
  }

  function Push(findings: seq<Finding>, f: Finding): (r: seq<Finding>)
    ensures forall g :: g in r <==> g in findings || g == f
    ensures forall kind :: Tally(r, kind) == Tally(findings, kind) + if kind(f) then 1 else 0
  {
    assert (findings + [f])[..|findings|] == findings;
    findings + [f]
  }

  ghost function IsBacked(store: Store): Row -> bool {
    (row: Row) => Backed(row, store)
  }

  ghost function IsExcused(store: Store): Row -> bool {
    (row: Row) => Excused(row, store)
  }

  ghost function IsLegacy(store: Store): Row -> bool {
    (row: Row) => Backed(row, store) && row.claim.None?
  }

  ghost function IsJournaled(rows: seq<Row>): Event -> bool {
    (event: Event) => CaptainLabel(event) && Journaled(event, rows)
  }

  /** Ledger events of one kind over a listing of trials. */
  ghost function EventsIn(trials: seq<string>, ledgers: map<string, seq<Event>>, kind: Event -> bool): nat
    requires forall t | t in trials :: t in ledgers
  {
    if trials == [] then 0
    else EventsIn(trials[..|trials| - 1], ledgers, kind) + |Positions(ledgers[trials[|trials| - 1]], kind)|
  }

  // ----- the join

  /** What the loop over rows has counted and reported. */
  ghost predicate RowsDone(rows: seq<Row>, store: Store, findings: seq<Finding>, counts: Counts) {
    && (forall f :: f in findings <==> RowFound(f, rows, store))
    && counts.backed + counts.excused + Tally(findings, IsUnbacked) == |rows|
    && counts.legacy + Tally(findings, IsMismatch) <= counts.backed
    && Tally(findings, IsUnjournaled) == 0
    && counts == Counts(|Positions(rows, IsBacked(store))|, |Positions(rows, IsExcused(store))|,
                        |Positions(rows, IsLegacy(store))|, 0, 0)
  }

  lemma CountsNext(rows: seq<Row>, row: Row, store: Store)
    ensures |Positions(rows + [row], IsBacked(store))| == |Positions(rows, IsBacked(store))| + if Backed(row, store) then 1 else 0
    ensures |Positions(rows + [row], IsExcused(store))| == |Positions(rows, IsExcused(store))| + if Excused(row, store) then 1 else 0
    ensures |Positions(rows + [row], IsLegacy(store))|
            == |Positions(rows, IsLegacy(store))| + if Backed(row, store) && row.claim.None? then 1 else 0
  {
    PositionsNext(rows, row, IsBacked(store));
    PositionsNext(rows, row, IsExcused(store));
    PositionsNext(rows, row, IsLegacy(store));
  }

  lemma FoundInNext(rows: seq<Row>, row: Row, store: Store)
    ensures forall f :: RowFound(f, rows + [row], store) <==> RowFound(f, rows, store) || RowReported(f, row, store)
  {
    var all := rows + [row];
    assert all[|rows|] == row;
    assert forall r | 0 <= r < |rows| :: all[r] == rows[r];
  }

  method JoinRow(row: Row, store: Store) returns (finding: Option<Finding>, backed: bool, excused: bool, legacy: bool)
    ensures forall f :: finding == Some(f) <==> RowReported(f, row, store)
    ensures backed <==> Backed(row, store)
    ensures excused <==> Excused(row, store)
    ensures legacy <==> Backed(row, store) && row.claim.None?
  {
    finding, backed, excused, legacy := None, false, false, false;
    if row.trial !in store.ledgers {
      if row.trial in store.purged {
        excused := true;
      } else {
        finding := Some(RowUnbacked(row.trial, TrialMissing));
      }
      return;
    }
    var events := store.ledgers[row.trial];
    var allThere := AllInLedger(row.hashes, events);
    if row.hashes == [] || !allThere {
      finding := Some(RowUnbacked(row.trial, HashesMissing));
      return;
    }
    backed := true;
    if row.claim.None? {
      legacy := true;
    } else {
      var agrees := ClaimAgrees(row.hashes, row.claim.value, events);
      if !agrees {
        finding := Some(ChannelMismatch(row.trial));
      }
    }
  }

  method JoinRows(rows: seq<Row>, store: Store) returns (findings: seq<Finding>, counts: Counts)
    ensures RowsDone(rows, store, findings, counts)
  {
    findings, counts := NothingDone(store);
    assert rows[..0] == [];
    for i := 0 to |rows|
      invariant RowsDone(rows[..i], store, findings, counts)
    {
      findings, counts := AddRow(rows[..i], rows[i], store, findings, counts);
      assert rows[..i + 1] == rows[..i] + [rows[i]];
    }
    assert rows[..|rows|] == rows;
  }

  method NothingDone(store: Store) returns (findings: seq<Finding>, counts: Counts)
    ensures RowsDone([], store, findings, counts)
  {
    findings, counts := [], Counts(0, 0, 0, 0, 0);
  }

  /** One more row, after `done`. */
  method AddRow(ghost done: seq<Row>, row: Row, store: Store, findings0: seq<Finding>, counts0: Counts)
    returns (findings: seq<Finding>, counts: Counts)
    requires RowsDone(done, store, findings0, counts0)
    ensures RowsDone(done + [row], store, findings, counts)
  {
    var finding, backed, excused, legacy := JoinRow(row, store);
    counts := counts0.(
      backed := counts0.backed + if backed then 1 else 0,
      excused := counts0.excused + if excused then 1 else 0,
      legacy := counts0.legacy + if legacy then 1 else 0);
    RowsDoneNext(done, row, store, findings0, counts0, finding, counts);
    findings := if finding.Some? then Push(findings0, finding.value) else findings0;
  }

  lemma RowsDoneNext(rows: seq<Row>, row: Row, store: Store, findings: seq<Finding>, counts: Counts,
                     finding: Option<Finding>, more: Counts)
    requires RowsDone(rows, store, findings, counts)
    requires forall f :: finding == Some(f) <==> RowReported(f, row, store)
    requires more.backed == counts.backed + if Backed(row, store) then 1 else 0
    requires more.excused == counts.excused + if Excused(row, store) then 1 else 0
    requires more.legacy == counts.legacy + if Backed(row, store) && row.claim.None? then 1 else 0
    requires more.seen == counts.seen && more.journaled == counts.journaled
    ensures RowsDone(rows + [row], store, if finding.Some? then Push(findings, finding.value) else findings, more)
  {
    FoundInNext(rows, row, store);
    CountsNext(rows, row, store);
    OneFate(row, store, finding);
  }

  /** A row is backed, excused or reported unbacked, and only one of them; a
      mismatch is reported only of a backed row that makes a claim. */
  lemma OneFate(row: Row, store: Store, finding: Option<Finding>)
    requires forall f :: finding == Some(f) <==> RowReported(f, row, store)
    ensures !(Backed(row, store) && Excused(row, store))
    ensures finding.Some? && finding.value.RowUnbacked? <==> !Backed(row, store) && !Excused(row, store)
    ensures finding.Some? && finding.value.ChannelMismatch? ==> Backed(row, store) && row.claim.Some?
    ensures finding.Some? ==> !finding.value.LabelUnjournaled?
  {
    var reason := if row.trial in store.ledgers then HashesMissing else TrialMissing;
    assert RowReported(RowUnbacked(row.trial, reason), row, store) <==> !Backed(row, store) && !Excused(row, store);
    assert finding.Some? ==> RowReported(finding.value, row, store);
  }

  method AllInLedger(hashes: seq<string>, events: seq<Event>) returns (all: bool)
    ensures all <==> forall h | h in hashes :: InLedger(events, h)
  {
    var there: set<string> := {};
    for k := 0 to |events|
      invariant forall h :: h in there <==> InLedger(events[..k], h)
    {
      assert forall h :: InLedger(events[..k + 1], h) <==> InLedger(events[..k], h) || events[k].hash == Some(h) by {
        assert events[..k + 1][k] == events[k];
        assert forall j | 0 <= j < k :: events[..k + 1][j] == events[..k][j];
      }
      if events[k].hash.Some? {
        there := there + {events[k].hash.value};
      }
    }
    assert events[..|events|] == events;
    all := true;
    for i := 0 to |hashes|
      invariant all <==> forall j | 0 <= j < i :: hashes[j] in there
    {
      all := all && hashes[i] in there;
    }
  }

  method ClaimAgrees(hashes: seq<string>, claim: Option<string>, events: seq<Event>) returns (agrees: bool)
    ensures agrees <==> forall h | h in hashes :: StoredChannel(events, h) == claim
  {
    agrees := true;
    for i := 0 to |hashes|
      invariant agrees <==> forall j | 0 <= j < i :: StoredChannel(events, hashes[j]) == claim
    {
      agrees := agrees && StoredChannel(events, hashes[i]) == claim;
    }
  }

  method JournaledHashes(rows: seq<Row>) returns (hashes: set<string>)
    ensures forall h :: h in hashes <==> exists r | 0 <= r < |rows| :: h in rows[r].hashes
  {
    hashes := {};
    for i := 0 to |rows|
      invariant forall h :: h in hashes <==> exists r | 0 <= r < i :: h in rows[r].hashes
    {
      hashes := hashes + set h | h in rows[i].hashes;
    }
  }

  lemma LabelFoundNext(trial: string, events: seq<Event>, k: nat, rows: seq<Row>)
    requires k < |events|
    ensures forall f :: LabelFound(f, trial, events[..k + 1], rows) <==>
              || LabelFound(f, trial, events[..k], rows)
              || (f == LabelUnjournaled(trial, k) && CaptainLabel(events[k]) && !Journaled(events[k], rows))
  {
    forall f
      ensures LabelFound(f, trial, events[..k + 1], rows) <==>
                || LabelFound(f, trial, events[..k], rows)
                || (f == LabelUnjournaled(trial, k) && CaptainLabel(events[k]) && !Journaled(events[k], rows))
    {
      if f.LabelUnjournaled? && f.position <= k {
        assert events[..k + 1][f.position] == events[f.position];
        assert f == LabelUnjournaled(f.trial, f.position);
      }
    }
  }

  /** What the loop over a trial's events has counted and reported. */
  ghost predicate TrialDone(trial: string, events: seq<Event>, rows: seq<Row>,
                            findings0: seq<Finding>, counts0: Counts, findings: seq<Finding>, counts: Counts) {
    && (forall f :: f in findings <==> f in findings0 || LabelFound(f, trial, events, rows))
    && counts == counts0.(seen := counts0.seen + |Positions(events, CaptainLabel)|,
                          journaled := counts0.journaled + |Positions(events, IsJournaled(rows))|)
    && counts.journaled + Tally(findings, IsUnjournaled) - counts.seen
       == counts0.journaled + Tally(findings0, IsUnjournaled) - counts0.seen
    && Tally(findings, IsUnbacked) == Tally(findings0, IsUnbacked)
    && Tally(findings, IsMismatch) == Tally(findings0, IsMismatch)
  }

  /** One more event: a label is counted, and reported unless some row has its hash. */
  lemma TrialDoneNext(trial: string, events: seq<Event>, k: nat, rows: seq<Row>,
                      findings0: seq<Finding>, counts0: Counts, findings: seq<Finding>, counts: Counts)
    requires k < |events| && TrialDone(trial, events[..k], rows, findings0, counts0, findings, counts)
    ensures !CaptainLabel(events[k]) ==> TrialDone(trial, events[..k + 1], rows, findings0, counts0, findings, counts)
    ensures CaptainLabel(events[k]) && Journaled(events[k], rows) ==>
              TrialDone(trial, events[..k + 1], rows, findings0, counts0, findings,
                        counts.(seen := counts.seen + 1, journaled := counts.journaled + 1))
    ensures CaptainLabel(events[k]) && !Journaled(events[k], rows) ==>
              TrialDone(trial, events[..k + 1], rows, findings0, counts0, Push(findings, LabelUnjournaled(trial, k)),
                        counts.(seen := counts.seen + 1))
  {
    assert events[..k + 1] == events[..k] + [events[k]];
    PositionsNext(events[..k], events[k], CaptainLabel);
    PositionsNext(events[..k], events[k], IsJournaled(rows));
    LabelFoundNext(trial, events, k, rows);
  }

  /** Labels of one trial. */
  method JoinTrial(trial: string, events: seq<Event>, rows: seq<Row>, journaled: set<string>,
                   findings0: seq<Finding>, counts0: Counts)
    returns (findings: seq<Finding>, counts: Counts)
    requires forall h :: h in journaled <==> exists r | 0 <= r < |rows| :: h in rows[r].hashes
    ensures TrialDone(trial, events, rows, findings0, counts0, findings, counts)
  {
    findings, counts := findings0, counts0;
    for k := 0 to |events|
      invariant TrialDone(trial, events[..k], rows, findings0, counts0, findings, counts)
    {
      TrialDoneNext(trial, events, k, rows, findings0, counts0, findings, counts);
      if !CaptainLabel(events[k]) {
        continue;
      }
      counts := counts.(seen := counts.seen + 1);
      if events[k].hash.Some? && events[k].hash.value in journaled {
        counts := counts.(journaled := counts.journaled + 1);
      } else {
        findings := Push(findings, LabelUnjournaled(trial, k));
      }
    }
    assert events[..|events|] == events;
  }

  ghost predicate LabelsFound(f: Finding, trials: seq<string>, rows: seq<Row>, store: Store) {
    f.LabelUnjournaled? && f.trial in trials && f.trial in store.ledgers && LabelFound(f, f.trial, store.ledgers[f.trial], rows)
  }

  lemma LabelsFoundNext(trials: seq<string>, i: nat, rows: seq<Row>, store: Store)
    requires i < |trials| && trials[i] in store.ledgers
    ensures forall f :: LabelsFound(f, trials[..i + 1], rows, store) <==>
              LabelsFound(f, trials[..i], rows, store) || LabelFound(f, trials[i], store.ledgers[trials[i]], rows)
  {
    assert trials[..i + 1] == trials[..i] + [trials[i]];
  }

  /** Labels of every trial in a listing. */
  method JoinLabels(rows: seq<Row>, store: Store, trials: seq<string>, findings0: seq<Finding>, counts0: Counts)
    returns (findings: seq<Finding>, counts: Counts)
    requires forall t | t in trials :: t in store.ledgers
    ensures forall f :: f in findings <==>
              f in findings0 || LabelsFound(f, trials, rows, store)
    ensures counts == counts0.(seen := counts.seen, journaled := counts.journaled)
    ensures counts.seen == counts0.seen + EventsIn(trials, store.ledgers, CaptainLabel)
    ensures counts.journaled == counts0.journaled + EventsIn(trials, store.ledgers, IsJournaled(rows))
    ensures counts.journaled + Tally(findings, IsUnjournaled) - counts.seen
            == counts0.journaled + Tally(findings0, IsUnjournaled) - counts0.seen
    ensures Tally(findings, IsUnbacked) == Tally(findings0, IsUnbacked)
    ensures Tally(findings, IsMismatch) == Tally(findings0, IsMismatch)
  {
    findings, counts := findings0, counts0;
    var journaled := JournaledHashes(rows);
    for i := 0 to |trials|
      invariant forall f :: f in findings <==> f in findings0 || LabelsFound(f, trials[..i], rows, store)
      invariant counts == counts0.(seen := counts.seen, journaled := counts.journaled)
      invariant counts.seen == counts0.seen + EventsIn(trials[..i], store.ledgers, CaptainLabel)
      invariant counts.journaled == counts0.journaled + EventsIn(trials[..i], store.ledgers, IsJournaled(rows))
      invariant counts.journaled + Tally(findings, IsUnjournaled) - counts.seen
                == counts0.journaled + Tally(findings0, IsUnjournaled) - counts0.seen
      invariant Tally(findings, IsUnbacked) == Tally(findings0, IsUnbacked)
      invariant Tally(findings, IsMismatch) == Tally(findings0, IsMismatch)
    {
      assert trials[..i + 1][..i] == trials[..i];
      LabelsFoundNext(trials, i, rows, store);
      findings, counts := JoinTrial(trials[i], store.ledgers[trials[i]], rows, journaled, findings, counts);
    }
    assert trials[..|trials|] == trials;
  }

  /** The whole join. `trials` is the listing of the trials directory. */
  method CrossJoin(rows: seq<Row>, store: Store, trials: seq<string>)
    returns (findings: seq<Finding>, counts: Counts)
    requires forall t :: t in trials <==> t in store.ledgers
    ensures forall f :: f in findings <==> Found(f, rows, store)
    ensures |rows| == counts.backed + counts.excused + Tally(findings, IsUnbacked)
    ensures counts.legacy + Tally(findings, IsMismatch) <= counts.backed
    ensures counts.backed == |Positions(rows, IsBacked(store))| && counts.excused == |Positions(rows, IsExcused(store))|
    ensures counts.legacy == |Positions(rows, IsLegacy(store))|
    ensures counts.seen == EventsIn(trials, store.ledgers, CaptainLabel)
    ensures counts.journaled == EventsIn(trials, store.ledgers, IsJournaled(rows))
    ensures counts.seen == counts.journaled + Tally(findings, IsUnjournaled)
  {
    var found, counted := JoinRows(rows, store);
    findings, counts := JoinLabels(rows, store, trials, found, counted);
  }

  // ----- each finding, said of the rows and the ledgers

  ghost predicate HeldIn(hash: string, events: seq<Event>) {
    exists k | 0 <= k < |events| :: events[k].hash == Some(hash)
  }

  /** The last readable event with the hash carries another channel than claimed; with
      no such event the store holds null. */
  ghost predicate Denies(events: seq<Event>, hash: string, claim: Option<string>) {
    if exists k: nat :: LastReadable(events, hash, k)
    then exists k: nat :: LastReadable(events, hash, k) && events[k].detail.value.channel != claim
    else claim != None
  }

  lemma DeniesExactly(events: seq<Event>, hash: string, claim: Option<string>)
    ensures StoredChannel(events, hash) != claim <==> Denies(events, hash, claim)
  {
    StoredChannelExactly(events, hash);
    forall j: nat, k: nat | LastReadable(events, hash, j) && LastReadable(events, hash, k) ensures j == k {
    }
  }

  /** A row of the trial whose trial the store does not hold and no receipt names. */
  ghost predicate Orphan(row: Row, store: Store) {
    row.trial !in store.ledgers && row.trial !in store.purged
  }

  /** A row of a trial the store holds, without hashes or with one it does not hold. */
  ghost predicate Hollow(row: Row, store: Store) {
    row.trial in store.ledgers
    && (row.hashes == [] || exists h :: h in row.hashes && !HeldIn(h, store.ledgers[row.trial]))
  }

  /** A row whose hashes are all there, one of them under another channel than it claims. */
  ghost predicate Contradicted(row: Row, store: Store) {
    row.trial in store.ledgers && !Hollow(row, store) && row.claim.Some?
    && exists h :: h in row.hashes && Denies(store.ledgers[row.trial], h, row.claim.value)
  }

  lemma RowsDecided(row: Row, store: Store)
    ensures !Backed(row, store) && !Excused(row, store) <==> Orphan(row, store) || Hollow(row, store)
    ensures Mismatched(row, store) <==> Contradicted(row, store)
  {
    if row.trial in store.ledgers {
      var events := store.ledgers[row.trial];
      assert forall h :: InLedger(events, h) <==> HeldIn(h, events);
      if row.claim.Some? {
        forall h | h in row.hashes ensures StoredChannel(events, h) != row.claim.value <==> Denies(events, h, row.claim.value) {
          DeniesExactly(events, h, row.claim.value);
        }
      }
    }
  }

  /** Each finding of the join, exactly. */
  lemma FindingsExactly(rows: seq<Row>, store: Store, t: string, k: nat)
    ensures Found(RowUnbacked(t, TrialMissing), rows, store) <==> exists r | 0 <= r < |rows| :: rows[r].trial == t && Orphan(rows[r], store)
    ensures Found(RowUnbacked(t, HashesMissing), rows, store) <==> exists r | 0 <= r < |rows| :: rows[r].trial == t && Hollow(rows[r], store)
    ensures Found(ChannelMismatch(t), rows, store) <==> exists r | 0 <= r < |rows| :: rows[r].trial == t && Contradicted(rows[r], store)
    ensures Found(LabelUnjournaled(t, k), rows, store) <==>
              t in store.ledgers && k < |store.ledgers[t]|
              && var e := store.ledgers[t][k];
                 e.detail.Some? && e.detail.value.isLabel && e.detail.value.byHuman
                 && (e.hash.Some? ==> forall r | 0 <= r < |rows| :: e.hash.value !in rows[r].hashes)
  {
    forall r | 0 <= r < |rows|
      ensures RowReported(RowUnbacked(t, TrialMissing), rows[r], store) <==> rows[r].trial == t && Orphan(rows[r], store)
      ensures RowReported(RowUnbacked(t, HashesMissing), rows[r], store) <==> rows[r].trial == t && Hollow(rows[r], store)
      ensures RowReported(ChannelMismatch(t), rows[r], store) <==> rows[r].trial == t && Contradicted(rows[r], store)
    {
      RowsDecided(rows[r], store);
    }
  }

  // ----- what a clean join means

  /** A clean join says three things: no row without its events, no claim the
      store contradicts, and no label that escaped the journal. */
  ghost predicate Consistent(rows: seq<Row>, store: Store) {
    && (forall r | 0 <= r < |rows| :: (Backed(rows[r], store) || Excused(rows[r], store)) && !Mismatched(rows[r], store))
    && (forall t, k | t in store.ledgers && 0 <= k < |store.ledgers[t]| && CaptainLabel(store.ledgers[t][k]) ::
          Journaled(store.ledgers[t][k], rows))
  }

  lemma CleanMeansConsistent(rows: seq<Row>, store: Store)
    ensures (forall f :: !Found(f, rows, store)) <==> Consistent(rows, store)
  {
    if forall f :: !Found(f, rows, store) {
      forall r | 0 <= r < |rows|
        ensures (Backed(rows[r], store) || Excused(rows[r], store)) && !Mismatched(rows[r], store)
      {
        var reason := if rows[r].trial in store.ledgers then HashesMissing else TrialMissing;
        assert !Found(RowUnbacked(rows[r].trial, reason), rows, store);
        assert !Found(ChannelMismatch(rows[r].trial), rows, store);
      }
      forall t, k: nat | t in store.ledgers && k < |store.ledgers[t]| && CaptainLabel(store.ledgers[t][k])
        ensures Journaled(store.ledgers[t][k], rows)
      {
        assert !Found(LabelUnjournaled(t, k), rows, store);
      }
    }
  }
}
