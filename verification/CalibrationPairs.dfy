/** What the calibration counts, said of the rows themselves: each label's fate,
    each pair's fields, each exclusion. */
module CalibrationPairs {
  import opened Options
  import opened LatestRows
  import opened StoreLedger
  import opened Calibration
  import opened Counting

  // ----- fates

  predicate Attested(said: Label) {
    said.channelPresent && said.channel in {Some("captain-token+tty"), Some("telegram-captain-dm")}
  }

  /** Each fate of a label row, exactly. The window takes a row in from `since` on and
      leaves it out from `until` on. */
  lemma FatesExactly(row: Row<Label>, window: Window)
    ensures var fate, said := FateOf(row, window), row.body;
            var scored := Attested(said) && said.verdict in {Confirmed, Wrong};
            var inside := (window.since.Some? ==> !Before(row.ts, window.since.value))
                          && (window.until.Some? ==> Before(row.ts, window.until.value));
            && (fate == Legacy <==> !said.channelPresent)
            && (fate == Unauthenticated <==> said.channelPresent && !Attested(said))
            && (fate == Unscoreable <==> Attested(said) && said.verdict.Other?)
            && (fate == WindowedOut <==> scored && !inside)
            && (fate == Scoreable <==> scored && inside)
  {
  }

  function HasFate(window: Window, fate: Fate): Row<Label> -> bool {
    (row: Row<Label>) => FateOf(row, window) == fate
  }

  /** The counters count positions. */
  lemma {:induction false} FatesCount(labels: seq<Row<Label>>, window: Window, fate: Fate)
    ensures CountFate(labels, window, fate) == |Positions(labels, HasFate(window, fate))|
    decreases |labels|
  {
    if labels != [] {
      var past, last := labels[..|labels| - 1], labels[|labels| - 1];
      FatesCount(past, window, fate);
      PositionsNext(past, last, HasFate(window, fate));
      assert past + [last] == labels;
    }
  }

  // ----- pairs

  /** Row `i` is the latest surviving label of the trial, row `j` its latest machine row. */
  ghost predicate Sides(labels: seq<Row<Label>>, flags: seq<Row<Machine>>, window: Window, trial: string, i: nat, j: nat) {
    IsLatest(labels, Survives(window), trial, i) && IsLatest(flags, EveryFlag(), trial, j)
  }

  /** What the pair of two rows says: the detector is taken to say wrong exactly when
      it raised a flag, and agreement is that both say wrong or both do not. */
  ghost predicate SaysOf(pair: Pair, human: Row<Label>, machine: Row<Machine>) {
    && (pair.judge == Wrong <==> machine.body.isFlag) && (pair.judge == Confirmed <==> !machine.body.isFlag)
    && pair.human == human.body.verdict && pair.human in {Confirmed, Wrong}
    && (pair.agree <==> (human.body.verdict == Wrong <==> machine.body.isFlag))
    && pair.humanTs == human.ts && pair.judgeTs == machine.ts
    && pair.stratum == "component=" + Cleaned(machine.body.component) + "|failure_class=" + Cleaned(machine.body.failureClass)
    && pair.basis == human.body.basis && pair.hashes == human.body.hashes && pair.channel == human.body.channel
  }

  lemma LatestAt<T>(rows: seq<Row<T>>, survives: Row<T> -> bool, trial: string, i: nat)
    requires IsLatest(rows, survives, trial, i)
    ensures Latest(rows, survives, trial) == Some(rows[i])
  {
    LatestExactly(rows, survives, trial);
    var k :| 0 <= k < |rows| && Latest(rows, survives, trial) == Some(rows[k]) && IsLatest(rows, survives, trial, k);
    BeforeIsTotal(rows[i].ts, rows[k].ts);
    assert i == k;
  }

  /** A trial has a pair exactly when both sides name it, and the pair says what its
      two latest rows say. */
  lemma PairsSayTheirRows(pairs: seq<Pair>, labels: seq<Row<Label>>, flags: seq<Row<Machine>>, window: Window)
    requires PairList(pairs, labels, flags, window)
    ensures forall t :: t in Subjects(pairs) <==> exists i: nat, j: nat :: Sides(labels, flags, window, t, i, j)
    ensures forall k, i: nat, j: nat | 0 <= k < |pairs| && Sides(labels, flags, window, pairs[k].subject, i, j) ::
              SaysOf(pairs[k], labels[i], flags[j])
  {
    forall t ensures t in Subjects(pairs) <==> exists i: nat, j: nat :: Sides(labels, flags, window, t, i, j) {
      assert t in Subjects(pairs) <==> TrialPair(labels, flags, window, t).Some?;
      PairedExactly(labels, flags, window, t);
    }
    forall k, i: nat, j: nat | 0 <= k < |pairs| && Sides(labels, flags, window, pairs[k].subject, i, j)
      ensures SaysOf(pairs[k], labels[i], flags[j])
    {
      PairSays(pairs[k], labels, flags, window, i, j);
    }
  }

  lemma PairedExactly(labels: seq<Row<Label>>, flags: seq<Row<Machine>>, window: Window, t: string)
    ensures TrialPair(labels, flags, window, t).Some? <==> exists i: nat, j: nat :: Sides(labels, flags, window, t, i, j)
  {
    LatestExactly(labels, Survives(window), t);
    LatestExactly(flags, EveryFlag(), t);
    if TrialPair(labels, flags, window, t).Some? {
      var i: nat :| i < |labels| && IsLatest(labels, Survives(window), t, i);
      var j: nat :| j < |flags| && IsLatest(flags, EveryFlag(), t, j);
      assert Sides(labels, flags, window, t, i, j);
    }
    if i: nat, j: nat :| Sides(labels, flags, window, t, i, j) {
      LatestAt(labels, Survives(window), t, i);
      LatestAt(flags, EveryFlag(), t, j);
    }
  }

  lemma PairSays(pair: Pair, labels: seq<Row<Label>>, flags: seq<Row<Machine>>, window: Window, i: nat, j: nat)
    requires Some(pair) == TrialPair(labels, flags, window, pair.subject)
    requires Sides(labels, flags, window, pair.subject, i, j)
    ensures SaysOf(pair, labels[i], flags[j])
  {
    LatestAt(labels, Survives(window), pair.subject, i);
    LatestAt(flags, EveryFlag(), pair.subject, j);
    FatesExactly(labels[i], window);
    StratumText(flags[j].body.component, flags[j].body.failureClass);
  }

  lemma StratumText(component: string, failureClass: string)
    ensures Stratum(component, failureClass) == "component=" + Cleaned(component) + "|failure_class=" + Cleaned(failureClass)
  {
    assert "|" + (FAILURE_CLASS + Cleaned(failureClass)) == "|failure_class=" + Cleaned(failureClass);
    assert COMPONENT + Cleaned(component) + ("|" + (FAILURE_CLASS + Cleaned(failureClass)))
        == COMPONENT + Cleaned(component) + "|" + (FAILURE_CLASS + Cleaned(failureClass));
  }

  /** Cleaning replaces the two separators, character by character. */
  lemma {:induction false} CleanedExactly(axis: string)
    ensures |Cleaned(axis)| == |axis|
    ensures forall k | 0 <= k < |axis| ::
              Cleaned(axis)[k] == if axis[k] == '|' then '/' else if axis[k] == '=' then ':' else axis[k]
  {
    if axis != "" {
      CleanedExactly(axis[1..]);
    }
  }

  // ----- exclusions

  /** Every hash the pair names is in the trial's ledger, and it names one. */
  ghost predicate AllHeld(pair: Pair, events: seq<Event>) {
    pair.hashes != [] && forall h | h in pair.hashes :: h != "" && exists k | 0 <= k < |events| :: events[k].hash == Some(h)
  }

  /** Of every hash, the last readable event carries the channel the label claims. */
  ghost predicate AllBacked(pair: Pair, events: seq<Event>) {
    forall h | h in pair.hashes ::
      if exists k: nat :: LastReadable(events, h, k)
      then exists k: nat :: LastReadable(events, h, k) && events[k].detail.value.channel == pair.channel
      else pair.channel == None
  }

  lemma BackedExactly(pair: Pair, events: seq<Event>)
    ensures ChannelBacked(pair, events) <==> AllBacked(pair, events)
  {
    forall h | h in pair.hashes
      ensures StoredChannel(events, h) == pair.channel <==>
                if exists k: nat :: LastReadable(events, h, k)
                then exists k: nat :: LastReadable(events, h, k) && events[k].detail.value.channel == pair.channel
                else pair.channel == None
    {
      StoredChannelExactly(events, h);
    }
  }

  /** Each reason not to count a pair, exactly; it counts when there is none. */
  lemma ExclusionsExactly(pair: Pair, store: Option<string -> Reading>)
    ensures var why := ExclusionOf(pair, store);
            && (why == Some(StoreUnavailable) <==> store.None?)
            && (store.Some? ==>
                  var reading := store.value(pair.subject);
                  && (why == Some(NotVerified) <==> reading.Unverified?)
                  && (why == Some(WasPurged) <==> reading.Purged?)
                  && (why == Some(HashesMissing) <==> reading.Events? && !AllHeld(pair, reading.events))
                  && (why == Some(ChannelUnverified) <==>
                        reading.Events? && AllHeld(pair, reading.events) && !AllBacked(pair, reading.events))
                  && (why.None? <==> reading.Events? && AllHeld(pair, reading.events) && AllBacked(pair, reading.events)))
  {
    if store.Some? && store.value(pair.subject).Events? {
      var events := store.value(pair.subject).events;
      BackedExactly(pair, events);
      assert AllHeld(pair, events) <==> pair.hashes != [] && forall h | h in pair.hashes :: HasHash(events, h);
    }
  }

  ghost function Drops(store: Option<string -> Reading>, why: Exclusion): Pair -> bool {
    (pair: Pair) => ExclusionOf(pair, store) == Some(why)
  }

  /** The buckets count positions, and what counts is what no bucket takes. */
  lemma {:induction false} BucketsCount(pairs: seq<Pair>, store: Option<string -> Reading>, why: Exclusion)
    ensures Excluded(pairs, store, why) == |Positions(pairs, Drops(store, why))|
    decreases |pairs|
  {
    if pairs != [] {
      var past, last := pairs[..|pairs| - 1], pairs[|pairs| - 1];
      BucketsCount(past, store, why);
      PositionsNext(past, last, Drops(store, why));
      assert past + [last] == pairs;
    }
  }

  lemma {:induction false} CountedExactly(pairs: seq<Pair>, store: Option<string -> Reading>, pair: Pair)
    ensures pair in Counted(pairs, store) <==> pair in pairs && ExclusionOf(pair, store).None?
    decreases |pairs|
  {
    if pairs != [] {
      var past, last := pairs[..|pairs| - 1], pairs[|pairs| - 1];
      CountedExactly(past, store, pair);
      assert pair in pairs <==> pair in past || pair == last;
    }
  }
}
