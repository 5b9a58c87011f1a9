/** Comparison of the store's tamper-evidence surface with an exported anchor
    record, and how such comparisons compose along a chain of records. */
module AnchorCheck {
  import opened Options

  /** Tip of a trial as its anchor file gives it; a field of the wrong type is None. */
  datatype Tip = Tip(sequence: Option<int>, hash: Option<string>)

  datatype Mark = Mark(sequence: int, hash: string)

  /** A record: trial tips, the rows of the watermark sidecar when there is one,
      and the purge-receipt files with their digests. */
  datatype Record = Record(trials: map<string, Tip>, watermarks: Option<map<string, Mark>>, receipts: map<string, string>)

  datatype Finding =
    | TrialMissing(trial: string)
    | TrialUnreadable(trial: string)
    | TrialRollback(trial: string, anchored: int, current: int)
    | TrialDivergence(trial: string, sequence: int)
    | SidecarMissing
    | MarkMissing(trial: string)
    | MarkRegression(trial: string, anchored: int, current: int)
    | MarkDivergence(trial: string)
    | ReceiptMissing(file: string)
    | ReceiptAltered(file: string)

  // ----- purge receipts

  /** `sha16` gives the first sixteen hex digits of the trial's digest. */
  function ReceiptPrefix(trial: string, sha16: string -> string): string {
    "purge-" + sha16(trial) + "-"
  }

  ghost predicate Covers(receipts: map<string, string>, trial: string, sha16: string -> string) {
    exists name | name in receipts :: ReceiptPrefix(trial, sha16) <= name
  }

  /** A receipt names one digest: the trials it excuses share their sixteen digits. */
  lemma ReceiptNamesOneDigest(name: string, t: string, u: string, sha16: string -> string)
    requires |sha16(t)| == |sha16(u)| == 16
    requires ReceiptPrefix(t, sha16) <= name && ReceiptPrefix(u, sha16) <= name
    ensures sha16(t) == sha16(u)
  {
    assert sha16(t) == ReceiptPrefix(t, sha16)[6..22] == name[6..22];
    assert sha16(u) == ReceiptPrefix(u, sha16)[6..22] == name[6..22];
  }

  // ----- what is reported

  ghost predicate TrialFound(f: Finding, trial: string, prev: Tip, current: Record, sha16: string -> string) {
    prev.sequence.Some? &&
    if trial !in current.trials then f == TrialMissing(trial) && !Covers(current.receipts, trial, sha16)
    else
      var tip, anchored := current.trials[trial], prev.sequence.value;
      if tip.sequence.None? then f == TrialUnreadable(trial)
      else if tip.sequence.value < anchored then f == TrialRollback(trial, anchored, tip.sequence.value)
      else tip.sequence.value == anchored && tip.hash != prev.hash && f == TrialDivergence(trial, anchored)
  }

  ghost predicate MarkFound(f: Finding, trial: string, prev: Mark, rows: map<string, Mark>) {
    if trial !in rows then f == MarkMissing(trial)
    else if rows[trial].sequence < prev.sequence then f == MarkRegression(trial, prev.sequence, rows[trial].sequence)
    else rows[trial].sequence == prev.sequence && rows[trial].hash != prev.hash && f == MarkDivergence(trial)
  }

  ghost predicate ReceiptFound(f: Finding, file: string, digest: string, receipts: map<string, string>) {
    if file !in receipts then f == ReceiptMissing(file)
    else receipts[file] != digest && f == ReceiptAltered(file)
  }

  ghost predicate Found(f: Finding, previous: Record, current: Record, sha16: string -> string) {
    || (exists t | t in previous.trials :: TrialFound(f, t, previous.trials[t], current, sha16))
    || (previous.watermarks.Some? && current.watermarks.None? && f == SidecarMissing)
    || (previous.watermarks.Some? && current.watermarks.Some?
        && exists t | t in previous.watermarks.value ::
             MarkFound(f, t, previous.watermarks.value[t], current.watermarks.value))
    || (exists n | n in previous.receipts :: ReceiptFound(f, n, previous.receipts[n], current.receipts))
  }

  // ----- the check

  method CheckTrials(previous: Record, current: Record, sha16: string -> string) returns (findings: set<Finding>)
    ensures forall f :: f in findings <==>
              exists t | t in previous.trials :: TrialFound(f, t, previous.trials[t], current, sha16)
  {
    findings := {};
    var rest := previous.trials.Keys;
    while rest != {}
      invariant rest <= previous.trials.Keys
      invariant forall f :: f in findings <==>
        exists t | t in previous.trials && t !in rest :: TrialFound(f, t, previous.trials[t], current, sha16)
    {
      var t :| t in rest;
      rest := rest - {t};
      var prev := previous.trials[t];
      if prev.sequence.None? {
        continue;
      }
      if t !in current.trials {
        var covered := ReceiptCovers(current.receipts, t, sha16);
        if !covered {
          findings := findings + {TrialMissing(t)};
        }
        continue;
      }
      var tip := current.trials[t];
      if tip.sequence.None? {
        findings := findings + {TrialUnreadable(t)};
      } else if tip.sequence.value < prev.sequence.value {
        findings := findings + {TrialRollback(t, prev.sequence.value, tip.sequence.value)};
      } else if tip.sequence == prev.sequence && tip.hash != prev.hash {
        findings := findings + {TrialDivergence(t, prev.sequence.value)};
      }
    }
  }

  method ReceiptCovers(receipts: map<string, string>, trial: string, sha16: string -> string) returns (covered: bool)
    ensures covered <==> Covers(receipts, trial, sha16)
  {
    covered := false;
    var rest := receipts.Keys;
    while rest != {} && !covered
      invariant rest <= receipts.Keys
      invariant covered ==> Covers(receipts, trial, sha16)
      invariant !covered ==> forall n | n in receipts && n !in rest :: !(ReceiptPrefix(trial, sha16) <= n)
    {
      var n :| n in rest;
      rest := rest - {n};
      covered := ReceiptPrefix(trial, sha16) <= n;
    }
  }

  method CheckMarks(previous: map<string, Mark>, rows: map<string, Mark>) returns (findings: set<Finding>)
    ensures forall f :: f in findings <==> exists t | t in previous :: MarkFound(f, t, previous[t], rows)
  {
    findings := {};
    var rest := previous.Keys;
    while rest != {}
      invariant rest <= previous.Keys
      invariant forall f :: f in findings <==>
        exists t | t in previous && t !in rest :: MarkFound(f, t, previous[t], rows)
    {
      var t :| t in rest;
      rest := rest - {t};
      if t !in rows {
        findings := findings + {MarkMissing(t)};
      } else if rows[t].sequence < previous[t].sequence {
        findings := findings + {MarkRegression(t, previous[t].sequence, rows[t].sequence)};
      } else if rows[t].sequence == previous[t].sequence && rows[t].hash != previous[t].hash {
        findings := findings + {MarkDivergence(t)};
      }
    }
  }

  method CheckReceipts(previous: map<string, string>, current: map<string, string>) returns (findings: set<Finding>)
    ensures forall f :: f in findings <==> exists n | n in previous :: ReceiptFound(f, n, previous[n], current)
  {
    findings := {};
    var rest := previous.Keys;
    while rest != {}
      invariant rest <= previous.Keys
      invariant forall f :: f in findings <==>
        exists n | n in previous && n !in rest :: ReceiptFound(f, n, previous[n], current)
    {
      var n :| n in rest;
      rest := rest - {n};
      if n !in current {
        findings := findings + {ReceiptMissing(n)};
      } else if current[n] != previous[n] {
        findings := findings + {ReceiptAltered(n)};
      }
    }
  }

  /** The first run has nothing to compare with and is clean. */
  method Check(previous: Option<Record>, current: Record, sha16: string -> string) returns (findings: set<Finding>)
    ensures previous.None? ==> findings == {}
    ensures previous.Some? ==> forall f :: f in findings <==> Found(f, previous.value, current, sha16)
    ensures previous.Some? ==> (findings == {} <==> Clean(previous.value, current, sha16))
  {
    if previous.None? {
      return {};
    }
    findings := CheckTrials(previous.value, current, sha16);
    if previous.value.watermarks.Some? {
      if current.watermarks.None? {
        findings := findings + {SidecarMissing};
      } else {
        var marks := CheckMarks(previous.value.watermarks.value, current.watermarks.value);
        findings := findings + marks;
      }
    }
    var receipts := CheckReceipts(previous.value.receipts, current.receipts);
    findings := findings + receipts;
    CleanExactly(previous.value, current, sha16);
  }

  // ----- what a clean check means

  /** `later` extends `earlier`: further on, or the same event. */
  predicate Extends(earlier: Tip, later: Tip) {
    earlier.sequence.Some? ==>
      && later.sequence.Some?
      && (later.sequence.value > earlier.sequence.value
          || (later.sequence == earlier.sequence && later.hash == earlier.hash))
  }

  predicate MarkExtends(earlier: Mark, later: Mark) {
    later.sequence > earlier.sequence || later == earlier
  }

  ghost predicate Clean(previous: Record, current: Record, sha16: string -> string) {
    && (forall t | t in previous.trials && previous.trials[t].sequence.Some? ::
          if t in current.trials then Extends(previous.trials[t], current.trials[t])
          else Covers(current.receipts, t, sha16))
    && (previous.watermarks.Some? ==>
          && current.watermarks.Some?
          && forall t | t in previous.watermarks.value ::
               && t in current.watermarks.value
               && MarkExtends(previous.watermarks.value[t], current.watermarks.value[t]))
    && (forall n | n in previous.receipts :: n in current.receipts && current.receipts[n] == previous.receipts[n])
  }

  /** No finding exactly when every trial, watermark and receipt of the record is
      still there or properly gone, and has not moved back or sideways. */
  lemma CleanExactly(previous: Record, current: Record, sha16: string -> string)
    ensures (forall f :: !Found(f, previous, current, sha16)) <==> Clean(previous, current, sha16)
  {
    if forall f :: !Found(f, previous, current, sha16) {
      forall t | t in previous.trials && previous.trials[t].sequence.Some?
        ensures if t in current.trials then Extends(previous.trials[t], current.trials[t])
                else Covers(current.receipts, t, sha16)
      {
        assert forall f | TrialFound(f, t, previous.trials[t], current, sha16) :: Found(f, previous, current, sha16);
        UnreportedTrial(t, previous.trials[t], current, sha16);
      }
      assert !Found(SidecarMissing, previous, current, sha16);
      if previous.watermarks.Some? {
        var marks, rows := previous.watermarks.value, current.watermarks.value;
        forall t | t in marks ensures t in rows && MarkExtends(marks[t], rows[t]) {
          assert forall f | MarkFound(f, t, marks[t], rows) :: Found(f, previous, current, sha16);
          UnreportedMark(t, marks[t], rows);
        }
      }
      forall n | n in previous.receipts ensures n in current.receipts && current.receipts[n] == previous.receipts[n] {
        assert !Found(ReceiptMissing(n), previous, current, sha16);
        assert !Found(ReceiptAltered(n), previous, current, sha16);
      }
    }
  }

  lemma UnreportedTrial(t: string, prev: Tip, current: Record, sha16: string -> string)
    requires prev.sequence.Some? && forall f :: !TrialFound(f, t, prev, current, sha16)
    ensures if t in current.trials then Extends(prev, current.trials[t]) else Covers(current.receipts, t, sha16)
  {
    assert !TrialFound(TrialMissing(t), t, prev, current, sha16);
    assert !TrialFound(TrialUnreadable(t), t, prev, current, sha16);
    assert !TrialFound(TrialDivergence(t, prev.sequence.value), t, prev, current, sha16);
    if t in current.trials && current.trials[t].sequence.Some? {
      assert !TrialFound(TrialRollback(t, prev.sequence.value, current.trials[t].sequence.value), t, prev, current, sha16);
    }
  }

  lemma UnreportedMark(t: string, prev: Mark, rows: map<string, Mark>)
    requires forall f :: !MarkFound(f, t, prev, rows)
    ensures t in rows && MarkExtends(prev, rows[t])
  {
    assert !MarkFound(MarkMissing(t), t, prev, rows);
    assert !MarkFound(MarkRegression(t, prev.sequence, rows[t].sequence), t, prev, rows);
    assert !MarkFound(MarkDivergence(t), t, prev, rows);
  }

  /** What was anchored of a trial, as a sequence and a hash; None without a sequence. */
  function Anchored(record: Record, t: string): Option<(int, Option<string>)> {
    if t in record.trials && record.trials[t].sequence.Some?
    then Some((record.trials[t].sequence.value, record.trials[t].hash)) else None
  }

  predicate Gone(current: Record, t: string) {
    t !in current.trials
  }

  /** A receipt file of the current record is named for the trial's sixteen digits. */
  ghost predicate Receipted(current: Record, t: string, sha16: string -> string) {
    exists rest :: "purge-" + sha16(t) + "-" + rest in current.receipts
  }

  lemma CoversExactly(current: Record, t: string, sha16: string -> string)
    ensures Covers(current.receipts, t, sha16) <==> Receipted(current, t, sha16)
  {
    var prefix := ReceiptPrefix(t, sha16);
    if name :| name in current.receipts && prefix <= name {
      assert name == prefix + name[|prefix|..];
    }
    if rest :| "purge-" + sha16(t) + "-" + rest in current.receipts {
      assert prefix <= prefix + rest;
    }
  }

  /** A finding that names a trial is decided by that trial alone. */
  lemma DecidedByItsTrial(f: Finding, t: string, previous: Record, current: Record, sha16: string -> string)
    requires f.TrialMissing? || f.TrialUnreadable? || f.TrialRollback? || f.TrialDivergence?
    requires f.trial == t
    ensures Found(f, previous, current, sha16) <==> t in previous.trials && TrialFound(f, t, previous.trials[t], current, sha16)
  {
  }

  /** Each finding on a trial, exactly. */
  lemma TrialFindingsExactly(previous: Record, current: Record, sha16: string -> string, t: string, n: int, m: int)
    ensures var was, is_ := Anchored(previous, t), Anchored(current, t);
            && (Found(TrialMissing(t), previous, current, sha16) <==>
                  was.Some? && Gone(current, t) && !Receipted(current, t, sha16))
            && (Found(TrialUnreadable(t), previous, current, sha16) <==> was.Some? && !Gone(current, t) && is_.None?)
            && (Found(TrialRollback(t, n, m), previous, current, sha16) <==>
                  was.Some? && is_.Some? && was.value.0 == n && is_.value.0 == m && m < n)
            && (Found(TrialDivergence(t, n), previous, current, sha16) <==>
                  was.Some? && is_.Some? && was.value.0 == is_.value.0 == n && was.value.1 != is_.value.1)
  {
    CoversExactly(current, t, sha16);
    DecidedByItsTrial(TrialMissing(t), t, previous, current, sha16);
    DecidedByItsTrial(TrialUnreadable(t), t, previous, current, sha16);
    DecidedByItsTrial(TrialRollback(t, n, m), t, previous, current, sha16);
    DecidedByItsTrial(TrialDivergence(t, n), t, previous, current, sha16);
  }

  lemma DecidedByItsMark(f: Finding, t: string, previous: Record, current: Record, sha16: string -> string)
    requires f.MarkMissing? || f.MarkRegression? || f.MarkDivergence?
    requires f.trial == t
    ensures Found(f, previous, current, sha16) <==>
              previous.watermarks.Some? && current.watermarks.Some? && t in previous.watermarks.value
              && MarkFound(f, t, previous.watermarks.value[t], current.watermarks.value)
  {
  }

  /** Each finding on the watermark sidecar, exactly. */
  lemma MarkFindingsExactly(previous: Record, current: Record, sha16: string -> string, t: string, n: int, m: int)
    ensures Found(SidecarMissing, previous, current, sha16) <==> previous.watermarks.Some? && current.watermarks.None?
    ensures var both := previous.watermarks.Some? && current.watermarks.Some? && t in previous.watermarks.value;
            && (Found(MarkMissing(t), previous, current, sha16) <==> both && t !in current.watermarks.value)
            && (Found(MarkRegression(t, n, m), previous, current, sha16) <==>
                  both && t in current.watermarks.value && previous.watermarks.value[t].sequence == n
                  && current.watermarks.value[t].sequence == m && m < n)
            && (Found(MarkDivergence(t), previous, current, sha16) <==>
                  both && t in current.watermarks.value
                  && previous.watermarks.value[t].sequence == current.watermarks.value[t].sequence
                  && previous.watermarks.value[t].hash != current.watermarks.value[t].hash)
  {
    DecidedByItsMark(MarkMissing(t), t, previous, current, sha16);
    DecidedByItsMark(MarkRegression(t, n, m), t, previous, current, sha16);
    DecidedByItsMark(MarkDivergence(t), t, previous, current, sha16);
  }

  /** Each finding on a purge receipt, exactly. */
  lemma ReceiptFindingsExactly(previous: Record, current: Record, sha16: string -> string, file: string)
    ensures Found(ReceiptMissing(file), previous, current, sha16) <==> file in previous.receipts && file !in current.receipts
    ensures Found(ReceiptAltered(file), previous, current, sha16) <==>
              file in previous.receipts && file in current.receipts && previous.receipts[file] != current.receipts[file]
  {
  }

  /** A record never disagrees with itself. */
  lemma SameRecordIsClean(record: Record, sha16: string -> string)
    ensures Clean(record, record, sha16)
    ensures forall f :: !Found(f, record, record, sha16)
  {
    CleanExactly(record, record, sha16);
  }

  // ----- composition

  /** Trials purged between `a` and `b` that are back in `c` without having lost
      anything. */
  predicate ReturnsIntact(a: Record, b: Record, c: Record) {
    forall t | t in a.trials && t !in b.trials && t in c.trials :: Extends(a.trials[t], c.trials[t])
  }

  /** Two clean checks in a row make the end-to-end check clean exactly when each
      trial purged in between stays away or returns intact. */
  lemma ChecksCompose(a: Record, b: Record, c: Record, sha16: string -> string)
    requires Clean(a, b, sha16) && Clean(b, c, sha16)
    ensures Clean(a, c, sha16) <==> ReturnsIntact(a, b, c)
  {
    forall t | t in a.trials && a.trials[t].sequence.Some? && t !in c.trials ensures Covers(c.receipts, t, sha16) {
      if t !in b.trials {
        var name :| name in b.receipts && ReceiptPrefix(t, sha16) <= name;
        assert name in c.receipts;
      } else {
        assert Extends(a.trials[t], b.trials[t]);
      }
    }
    forall t | t in a.trials && t in b.trials && t in c.trials ensures Extends(a.trials[t], c.trials[t]) {
      assert a.trials[t].sequence.Some? ==> Extends(a.trials[t], b.trials[t]);
      assert b.trials[t].sequence.Some? ==> Extends(b.trials[t], c.trials[t]);
    }
  }

  ghost predicate StepClean(chain: seq<Record>, i: nat, sha16: string -> string)
    requires i + 1 < |chain|
  {
    Clean(chain[i], chain[i + 1], sha16)
  }

  predicate StepIntact(chain: seq<Record>, i: nat)
    requires i + 1 < |chain|
  {
    ReturnsIntact(chain[0], chain[i], chain[i + 1])
  }

  ghost predicate FirstClean(chain: seq<Record>, j: nat, sha16: string -> string)
    requires j < |chain|
  {
    Clean(chain[0], chain[j], sha16)
  }

  lemma NextLink(chain: seq<Record>, k: nat, sha16: string -> string)
    requires k + 1 < |chain| && StepClean(chain, k, sha16) && FirstClean(chain, k, sha16)
    ensures FirstClean(chain, k + 1, sha16) <==> StepIntact(chain, k)
  {
    ChecksCompose(chain[0], chain[k], chain[k + 1], sha16);
  }

  /** Where each link decides whether the first reaches one further, the first
      reaches all exactly when every link holds. */
  lemma {:induction false} LinkByLink(reached: nat -> bool, link: nat -> bool, k: nat)
    requires reached(0) && forall i | 0 <= i < k :: reached(i) ==> (reached(i + 1) <==> link(i))
    ensures (forall j | 0 <= j <= k :: reached(j)) <==> (forall i | 0 <= i < k :: link(i))
  {
    if k > 0 {
      LinkByLink(reached, link, k - 1);
      assert reached(k - 1) ==> (reached(k - 1 + 1) <==> link(k - 1));
    }
  }

  /** Along any chain of pairwise clean records, every record up to the k-th is
      clean against the first exactly when no trial of the first ever returns with
      something lost. */
  lemma ChainIsClean(chain: seq<Record>, k: nat, sha16: string -> string)
    requires k < |chain|
    requires forall i: nat | i + 1 < |chain| :: StepClean(chain, i, sha16)
    ensures (forall j: nat | j <= k :: FirstClean(chain, j, sha16)) <==> (forall i: nat | i < k :: StepIntact(chain, i))
  {
    ghost var reached: nat -> bool := (j: nat) => j < |chain| && FirstClean(chain, j, sha16);
    ghost var link: nat -> bool := (i: nat) => i + 1 < |chain| && StepIntact(chain, i);
    SameRecordIsClean(chain[0], sha16);
    forall i | 0 <= i < k ensures reached(i) ==> (reached(i + 1) <==> link(i)) {
      if reached(i) {
        NextLink(chain, i, sha16);
      }
    }
    LinkByLink(reached, link, k);
    assert forall j | 0 <= j <= k :: reached(j) <==> FirstClean(chain, j, sha16);
    assert forall i | 0 <= i < k :: link(i) <==> StepIntact(chain, i);
  }

  /** Without that condition pairwise checks miss a rollback: a trial purged with
      a receipt and brought back shorter passes both, and only the end-to-end
      check sees it. */
  lemma PurgeHidesRollback(t: string, n: int, m: int, hash: string, digest: string, sha16: string -> string)
    requires m < n
    ensures var receipts := map[ReceiptPrefix(t, sha16) + "1.json" := digest];
            var a := Record(map[t := Tip(Some(n), Some(hash))], None, map[]);
            var b := Record(map[], None, receipts);
            var c := Record(map[t := Tip(Some(m), Some(hash))], None, receipts);
            && Clean(a, b, sha16) && Clean(b, c, sha16)
            && Found(TrialRollback(t, n, m), a, c, sha16)
  {
    var name := ReceiptPrefix(t, sha16) + "1.json";
    var receipts := map[name := digest];
    assert name in receipts && ReceiptPrefix(t, sha16) <= name;
    assert Covers(receipts, t, sha16);
    var a := Record(map[t := Tip(Some(n), Some(hash))], None, map[]);
    var c := Record(map[t := Tip(Some(m), Some(hash))], None, receipts);
    assert t in a.trials && TrialFound(TrialRollback(t, n, m), t, a.trials[t], c, sha16);
  }
}
