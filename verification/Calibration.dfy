/** Pairing of Captain labels with detector verdicts, and the re-count of every
    pair against the evidence store. */
module Calibration {
  import opened Options
  import opened LatestRows
  import opened StoreLedger

  const ATTESTED_CHANNELS: set<string> := {"captain-token+tty", "telegram-captain-dm"}

  datatype LabelVerdict = Confirmed | Wrong | Other(token: string)

  /** What a label row says. `channelPresent` separates a row written before rows
      carried a channel from one with a null or foreign value. */
  datatype Label = Label(verdict: LabelVerdict, basis: string, hashes: seq<string>,
                         channel: Option<string>, channelPresent: bool)

  /** What a detector row says of a trial: a flag asserts the claim is wrong, an
      explicit pass that it held. */
  datatype Machine = Machine(isFlag: bool, component: string, failureClass: string)

  /** Window on the human timestamp: from `since` on, before `until`. */
  datatype Window = Window(since: Option<string>, until: Option<string>)

  // ----- one label row

  datatype Fate = Legacy | Unauthenticated | Unscoreable | WindowedOut | Scoreable

  predicate Outside(ts: string, window: Window) {
    || (window.since.Some? && Before(ts, window.since.value))
    || (window.until.Some? && !Before(ts, window.until.value))
  }

  /** Attestation is decided first: an unattested label reaches no later stage. */
  function FateOf(row: Row<Label>, window: Window): Fate {
    if !row.body.channelPresent then Legacy
    else if row.body.channel.None? || row.body.channel.value !in ATTESTED_CHANNELS then Unauthenticated
    else if row.body.verdict.Other? then Unscoreable
    else if Outside(row.ts, window) then WindowedOut
    else Scoreable
  }

  function Survives(window: Window): Row<Label> -> bool {
    (row: Row<Label>) => FateOf(row, window) == Scoreable
  }

  function EveryFlag(): Row<Machine> -> bool {
    (row: Row<Machine>) => true
  }

  function Tally(order: seq<nat>, labels: seq<Row<Label>>, window: Window, fate: Fate): nat
    requires Orders(order, labels)
  {
    if order == [] then 0
    else
      Tally(order[..|order| - 1], labels, window, fate)
      + if FateOf(labels[order[|order| - 1]], window) == fate then 1 else 0
  }

  function CountFate(labels: seq<Row<Label>>, window: Window, fate: Fate): nat {
    if labels == [] then 0
    else CountFate(labels[..|labels| - 1], window, fate) + if FateOf(labels[|labels| - 1], window) == fate then 1 else 0
  }

  lemma {:induction false} InsertTallies(order: seq<nat>, i: nat, labels: seq<Row<Label>>, window: Window, fate: Fate)
    requires Orders(order, labels) && i < |labels|
    ensures Tally(Insert(order, i, labels), labels, window, fate)
            == Tally(order, labels, window, fate) + if FateOf(labels[i], window) == fate then 1 else 0
    decreases |order|
  {
    if order != [] && Before(labels[i].ts, labels[order[|order| - 1]].ts) {
      var front := order[..|order| - 1];
      InsertTallies(front, i, labels, window, fate);
      assert Insert(order, i, labels)[..|order|] == Insert(front, i, labels);
    } else {
      assert (order + [i])[..|order|] == order;
    }
  }

  lemma {:induction false} SortTallies(labels: seq<Row<Label>>, n: nat, window: Window, fate: Fate)
    requires n <= |labels|
    ensures Tally(SortOrder(labels, n), labels, window, fate) == CountFate(labels[..n], window, fate)
  {
    if n > 0 {
      SortTallies(labels, n - 1, window, fate);
      var before := SortOrder(labels, n - 1);
      InsertTallies(before, n - 1, labels, window, fate);
      assert SortOrder(labels, n) == Insert(before, n - 1, labels);
      assert labels[..n][..n - 1] == labels[..n - 1] && labels[..n][n - 1] == labels[n - 1];
    }
  }

  // ----- the loop over labels

  type Counter<!K> = map<K, nat>

  function CountOf<K>(counts: Counter<K>, key: K): nat {
    if key in counts then counts[key] else 0
  }

  function Bump<K>(counts: Counter<K>, key: K): Counter<K> {
    counts[key := CountOf(counts, key) + 1]
  }

  lemma BumpedCount<K>(counts: Counter<K>, key: K, other: K)
    ensures CountOf(Bump(counts, key), other) == CountOf(counts, other) + if other == key then 1 else 0
  {
  }

  function LabelSum(counts: Counter<Fate>): nat {
    CountOf(counts, Legacy) + CountOf(counts, Unauthenticated) + CountOf(counts, Unscoreable)
    + CountOf(counts, WindowedOut) + CountOf(counts, Scoreable)
  }

  ghost predicate CountsAre(counts: Counter<Fate>, order: seq<nat>, labels: seq<Row<Label>>, window: Window)
    requires Orders(order, labels)
  {
    LabelSum(counts) == |order| && forall fate :: CountOf(counts, fate) == Tally(order, labels, window, fate)
  }

  lemma LabelSumBumped(counts: Counter<Fate>, fate: Fate)
    ensures LabelSum(Bump(counts, fate)) == LabelSum(counts) + 1
  {
    BumpedCount(counts, fate, Legacy);
    BumpedCount(counts, fate, Unauthenticated);
    BumpedCount(counts, fate, Unscoreable);
    BumpedCount(counts, fate, WindowedOut);
    BumpedCount(counts, fate, Scoreable);
  }

  lemma CountsNext(counts: Counter<Fate>, order: seq<nat>, i: nat, labels: seq<Row<Label>>, window: Window)
    requires Orders(order, labels) && i < |labels| && CountsAre(counts, order, labels, window)
    ensures CountsAre(Bump(counts, FateOf(labels[i], window)), order + [i], labels, window)
  {
    var fate := FateOf(labels[i], window);
    LabelSumBumped(counts, fate);
    assert (order + [i])[..|order|] == order;
    forall f ensures CountOf(Bump(counts, fate), f) == Tally(order + [i], labels, window, f) {
      BumpedCount(counts, fate, f);
    }
  }

  /** `latest` holds, per trial, the last surviving row of the order. */
  ghost predicate LastWins<T>(latest: map<string, Row<T>>, order: seq<nat>, rows: seq<Row<T>>, survives: Row<T> -> bool)
    requires Orders(order, rows)
  {
    forall t ::
      (if t in latest then Some(latest[t]) else None)
      == var i := LastIn(order, rows, survives, t); if i.None? then None else Some(rows[i.value])
  }

  lemma LastWinsNext<T>(latest: map<string, Row<T>>, order: seq<nat>, i: nat, rows: seq<Row<T>>, survives: Row<T> -> bool)
    requires Orders(order, rows) && i < |rows| && LastWins(latest, order, rows, survives)
    ensures LastWins(if survives(rows[i]) then latest[rows[i].trial := rows[i]] else latest, order + [i], rows, survives)
  {
    assert (order + [i])[..|order|] == order;
  }

  lemma LastWinsIsLatest<T>(latest: map<string, Row<T>>, rows: seq<Row<T>>, survives: Row<T> -> bool, trial: string)
    requires LastWins(latest, SortOrder(rows, |rows|), rows, survives)
    ensures (if trial in latest then Some(latest[trial]) else None) == Latest(rows, survives, trial)
  {
    assert rows[..|rows|] == rows;
    SortedLastIsLatest(rows, survives, trial, |rows|);
  }

  method CollectLabels(labels: seq<Row<Label>>, window: Window)
    returns (humans: map<string, Row<Label>>, counts: Counter<Fate>)
    ensures forall t :: (if t in humans then Some(humans[t]) else None) == Latest(labels, Survives(window), t)
    ensures forall fate :: CountOf(counts, fate) == CountFate(labels, window, fate)
    ensures LabelSum(counts) == |labels|
  {
    humans, counts := map[], map[];
    var order := SortOrder(labels, |labels|);
    for k := 0 to |order|
      invariant LastWins(humans, order[..k], labels, Survives(window))
      invariant CountsAre(counts, order[..k], labels, window)
    {
      var row := labels[order[k]];
      assert order[..k + 1] == order[..k] + [order[k]];
      CountsNext(counts, order[..k], order[k], labels, window);
      LastWinsNext(humans, order[..k], order[k], labels, Survives(window));
      var fate := FateOf(row, window);
      counts := Bump(counts, fate);
      if fate == Scoreable {
        humans := humans[row.trial := row];
      }
    }
    assert order[..|order|] == order;
    FatesCounted(counts, labels, window);
    LatestCollected(humans, labels, Survives(window));
  }

  lemma FatesCounted(counts: Counter<Fate>, labels: seq<Row<Label>>, window: Window)
    requires CountsAre(counts, SortOrder(labels, |labels|), labels, window)
    ensures forall fate :: CountOf(counts, fate) == CountFate(labels, window, fate)
    ensures LabelSum(counts) == |labels|
  {
    forall fate ensures CountOf(counts, fate) == CountFate(labels, window, fate) {
      assert labels[..|labels|] == labels;
      SortTallies(labels, |labels|, window, fate);
    }
  }

  lemma LatestCollected<T>(latest: map<string, Row<T>>, rows: seq<Row<T>>, survives: Row<T> -> bool)
    requires LastWins(latest, SortOrder(rows, |rows|), rows, survives)
    ensures forall t :: (if t in latest then Some(latest[t]) else None) == Latest(rows, survives, t)
  {
    forall t ensures (if t in latest then Some(latest[t]) else None) == Latest(rows, survives, t) {
      LastWinsIsLatest(latest, rows, survives, t);
    }
  }

  method CollectMachines(flags: seq<Row<Machine>>) returns (machines: map<string, Row<Machine>>)
    ensures forall t :: (if t in machines then Some(machines[t]) else None) == Latest(flags, EveryFlag(), t)
  {
    machines := map[];
    var order := SortOrder(flags, |flags|);
    for k := 0 to |order|
      invariant LastWins(machines, order[..k], flags, EveryFlag())
    {
      assert order[..k + 1] == order[..k] + [order[k]];
      LastWinsNext(machines, order[..k], order[k], flags, EveryFlag());
      machines := machines[flags[order[k]].trial := flags[order[k]]];
    }
    assert order[..|order|] == order;
    LatestCollected(machines, flags, EveryFlag());
  }

  // ----- strata

  function Cleaned(axis: string): (r: string)
    ensures '|' !in r && '=' !in r
  {
    if axis == "" then ""
    else [if axis[0] == '|' then '/' else if axis[0] == '=' then ':' else axis[0]] + Cleaned(axis[1..])
  }

  const COMPONENT := "component="
  const FAILURE_CLASS := "failure_class="

  function Stratum(component: string, failureClass: string): string {
    COMPONENT + Cleaned(component) + "|" + (FAILURE_CLASS + Cleaned(failureClass))
  }

  /** Two clusters share a stratum exactly when both axes agree once cleaned. */
  lemma SameStratumExactly(c: string, f: string, d: string, g: string)
    ensures Stratum(c, f) == Stratum(d, g) <==> Cleaned(c) == Cleaned(d) && Cleaned(f) == Cleaned(g)
  {
    if Stratum(c, f) == Stratum(d, g) {
      SplitAtBar(COMPONENT + Cleaned(c), FAILURE_CLASS + Cleaned(f), COMPONENT + Cleaned(d), FAILURE_CLASS + Cleaned(g));
      SamePrefix(COMPONENT, Cleaned(c), Cleaned(d));
      SamePrefix(FAILURE_CLASS, Cleaned(f), Cleaned(g));
    }
  }

  lemma SamePrefix(p: string, x: string, y: string)
    requires p + x == p + y
    ensures x == y
  {
    assert x == (p + x)[|p|..] && y == (p + y)[|p|..];
  }

  lemma {:induction false} SplitAtBar(x: string, p: string, y: string, q: string)
    requires '|' !in x && '|' !in y && x + "|" + p == y + "|" + q
    ensures x == y && p == q
  {
    var s := x + "|" + p;
    assert s[|x|] == '|' && s[|y|] == '|';
    assert forall i | 0 <= i < |x| :: s[i] == x[i];
    assert forall i | 0 <= i < |y| :: s[i] == y[i];
    assert |x| == |y|;
    assert x == s[..|x|] && y == s[..|y|];
    assert p == s[|x| + 1..] && q == s[|y| + 1..];
  }

  // ----- pairs

  datatype Pair = Pair(subject: string, human: LabelVerdict, judge: LabelVerdict, humanTs: string, judgeTs: string,
                       agree: bool, stratum: string, basis: string, hashes: seq<string>, channel: Option<string>)

  function JudgeVerdict(machine: Machine): LabelVerdict {
    if machine.isFlag then Wrong else Confirmed
  }

  function PairOf(trial: string, human: Row<Label>, machine: Row<Machine>): Pair {
    var judge := JudgeVerdict(machine.body);
    Pair(trial, human.body.verdict, judge, human.ts, machine.ts, human.body.verdict == judge,
         Stratum(machine.body.component, machine.body.failureClass),
         human.body.basis, human.body.hashes, human.body.channel)
  }

  /** The pair of a trial: its latest surviving label with its latest machine row. */
  function TrialPair(labels: seq<Row<Label>>, flags: seq<Row<Machine>>, window: Window, trial: string): Option<Pair> {
    var human := Latest(labels, Survives(window), trial);
    var machine := Latest(flags, EveryFlag(), trial);
    if human.Some? && machine.Some? then Some(PairOf(trial, human.value, machine.value)) else None
  }

  function Subjects(pairs: seq<Pair>): seq<string> {
    seq(|pairs|, i requires 0 <= i < |pairs| => pairs[i].subject)
  }

  /** One pair for each trial named by both sides, in order of trial. */
  ghost predicate PairList(pairs: seq<Pair>, labels: seq<Row<Label>>, flags: seq<Row<Machine>>, window: Window) {
    && InOrder(Subjects(pairs))
    && (forall t :: t in Subjects(pairs) <==> TrialPair(labels, flags, window, t).Some?)
    && forall i | 0 <= i < |pairs| :: Some(pairs[i]) == TrialPair(labels, flags, window, pairs[i].subject)
  }

  method CollectPairs(labels: seq<Row<Label>>, flags: seq<Row<Machine>>, window: Window)
    returns (pairs: seq<Pair>, counts: Counter<Fate>)
    ensures PairList(pairs, labels, flags, window)
    ensures forall fate :: CountOf(counts, fate) == CountFate(labels, window, fate)
    ensures LabelSum(counts) == |labels|
  {
    var humans, machines;
    humans, counts := CollectLabels(labels, window);
    machines := CollectMachines(flags);
    var trials := SortStrings(humans.Keys * machines.Keys);
    pairs := [];
    for i := 0 to |trials|
      invariant |pairs| == i
      invariant forall k | 0 <= k < i ::
                  trials[k] in humans && trials[k] in machines && pairs[k] == PairOf(trials[k], humans[trials[k]], machines[trials[k]])
    {
      assert trials[i] in trials;
      pairs := pairs + [PairOf(trials[i], humans[trials[i]], machines[trials[i]])];
    }
    assert Subjects(pairs) == trials;
    forall t ensures t in trials <==> TrialPair(labels, flags, window, t).Some? {
      assert (if t in humans then Some(humans[t]) else None) == Latest(labels, Survives(window), t);
      assert (if t in machines then Some(machines[t]) else None) == Latest(flags, EveryFlag(), t);
    }
  }

  /** Unattested, unscoreable and out-of-window labels have no influence: any two
      journals with the same surviving labels give every trial the same pair, and
      the same list of pairs. */
  lemma PairingNoninterference(labels: seq<Row<Label>>, others: seq<Row<Label>>, flags: seq<Row<Machine>>,
                               window: Window, trial: string)
    requires Survivors(labels, Survives(window)) == Survivors(others, Survives(window))
    ensures TrialPair(labels, flags, window, trial) == TrialPair(others, flags, window, trial)
  {
    SurvivorsDecide(labels, Survives(window), trial);
    SurvivorsDecide(others, Survives(window), trial);
  }

  lemma PairsNoninterference(labels: seq<Row<Label>>, others: seq<Row<Label>>, flags: seq<Row<Machine>>,
                             window: Window, pairs: seq<Pair>, otherPairs: seq<Pair>)
    requires Survivors(labels, Survives(window)) == Survivors(others, Survives(window))
    requires PairList(pairs, labels, flags, window) && PairList(otherPairs, others, flags, window)
    ensures pairs == otherPairs
  {
    forall t ensures TrialPair(labels, flags, window, t) == TrialPair(others, flags, window, t) {
      PairingNoninterference(labels, others, flags, window, t);
    }
    OrderedIsUnique(Subjects(pairs), Subjects(otherPairs));
    assert |pairs| == |Subjects(pairs)| && |otherPairs| == |Subjects(otherPairs)|;
    forall i | 0 <= i < |pairs| ensures pairs[i] == otherPairs[i] {
      assert pairs[i].subject == Subjects(pairs)[i] == Subjects(otherPairs)[i] == otherPairs[i].subject;
    }
  }

  // ----- the re-count against the store

  /** What the store answers for a trial: not verified green, purged, or its events. */
  datatype Reading = Unverified | Purged | Events(events: seq<Event>)

  datatype Exclusion = StoreUnavailable | NotVerified | WasPurged | HashesMissing | ChannelUnverified

  /** An empty hash counts as none. */
  ghost predicate HasHash(events: seq<Event>, hash: string) {
    hash != "" && InLedger(events, hash)
  }

  ghost predicate ChannelBacked(pair: Pair, events: seq<Event>) {
    forall h | h in pair.hashes :: StoredChannel(events, h) == pair.channel
  }

  /** Why a pair does not count, first reason first. */
  ghost function ExclusionOf(pair: Pair, store: Option<string -> Reading>): Option<Exclusion> {
    if store.None? then Some(StoreUnavailable)
    else
      match store.value(pair.subject)
      case Unverified => Some(NotVerified)
      case Purged => Some(WasPurged)
      case Events(events) =>
        if pair.hashes == [] || !(forall h | h in pair.hashes :: HasHash(events, h)) then Some(HashesMissing)
        else if !ChannelBacked(pair, events) then Some(ChannelUnverified)
        else None
  }

  ghost function Counted(pairs: seq<Pair>, store: Option<string -> Reading>): seq<Pair> {
    if pairs == [] then []
    else
      Counted(pairs[..|pairs| - 1], store)
      + if ExclusionOf(pairs[|pairs| - 1], store).None? then [pairs[|pairs| - 1]] else []
  }

  ghost function Excluded(pairs: seq<Pair>, store: Option<string -> Reading>, why: Exclusion): nat {
    if pairs == [] then 0
    else
      Excluded(pairs[..|pairs| - 1], store, why)
      + if ExclusionOf(pairs[|pairs| - 1], store) == Some(why) then 1 else 0
  }

  method HashHeld(hash: string, events: seq<Event>) returns (found: bool)
    ensures found <==> HasHash(events, hash)
  {
    found := false;
    for k := 0 to |events|
      invariant found <==> hash != "" && exists j | 0 <= j < k :: events[j].hash == Some(hash)
    {
      found := found || (hash != "" && events[k].hash == Some(hash));
    }
  }

  method HashesHeld(hashes: seq<string>, events: seq<Event>) returns (held: bool)
    ensures held <==> forall h | h in hashes :: HasHash(events, h)
  {
    held := true;
    for i := 0 to |hashes|
      invariant held <==> forall j | 0 <= j < i :: HasHash(events, hashes[j])
    {
      var found := HashHeld(hashes[i], events);
      held := held && found;
    }
  }

  method ChannelsMatch(pair: Pair, events: seq<Event>) returns (backed: bool)
    ensures backed <==> ChannelBacked(pair, events)
  {
    backed := true;
    for i := 0 to |pair.hashes|
      invariant backed <==> forall j | 0 <= j < i :: StoredChannel(events, pair.hashes[j]) == pair.channel
    {
      backed := backed && StoredChannel(events, pair.hashes[i]) == pair.channel;
    }
  }

  function ExclusionSum(excluded: Counter<Exclusion>): nat {
    CountOf(excluded, StoreUnavailable) + CountOf(excluded, NotVerified) + CountOf(excluded, WasPurged)
    + CountOf(excluded, HashesMissing) + CountOf(excluded, ChannelUnverified)
  }

  method VerifyPair(pair: Pair, reading: Reading) returns (why: Option<Exclusion>)
    ensures forall read: string -> Reading | read(pair.subject) == reading :: why == ExclusionOf(pair, Some(read))
  {
    if reading.Unverified? {
      return Some(NotVerified);
    }
    if reading.Purged? {
      return Some(WasPurged);
    }
    var held := HashesHeld(pair.hashes, reading.events);
    if pair.hashes == [] || !held {
      return Some(HashesMissing);
    }
    var backed := ChannelsMatch(pair, reading.events);
    why := if backed then None else Some(ChannelUnverified);
  }

  ghost predicate ExclusionsAre(excluded: Counter<Exclusion>, pairs: seq<Pair>, store: Option<string -> Reading>) {
    forall why :: CountOf(excluded, why) == Excluded(pairs, store, why)
  }

  lemma ExclusionsNext(excluded: Counter<Exclusion>, pairs: seq<Pair>, pair: Pair, store: Option<string -> Reading>)
    requires ExclusionsAre(excluded, pairs, store)
    ensures var why := ExclusionOf(pair, store);
            ExclusionsAre(if why.Some? then Bump(excluded, why.value) else excluded, pairs + [pair], store)
    ensures Counted(pairs + [pair], store)
            == Counted(pairs, store) + if ExclusionOf(pair, store).None? then [pair] else []
  {
    assert (pairs + [pair])[..|pairs|] == pairs;
    var excludes := ExclusionOf(pair, store);
    if excludes.Some? {
      forall why ensures CountOf(Bump(excluded, excludes.value), why) == Excluded(pairs + [pair], store, why) {
        BumpedCount(excluded, excludes.value, why);
      }
    }
  }

  lemma ExclusionSumBumped(excluded: Counter<Exclusion>, why: Exclusion)
    ensures ExclusionSum(Bump(excluded, why)) == ExclusionSum(excluded) + 1
  {
    BumpedCount(excluded, why, StoreUnavailable);
    BumpedCount(excluded, why, NotVerified);
    BumpedCount(excluded, why, WasPurged);
    BumpedCount(excluded, why, HashesMissing);
    BumpedCount(excluded, why, ChannelUnverified);
  }

  method VerifyPairs(pairs: seq<Pair>, store: Option<string -> Reading>) returns (counted: seq<Pair>, excluded: Counter<Exclusion>)
    ensures counted == Counted(pairs, store)
    ensures forall why :: CountOf(excluded, why) == Excluded(pairs, store, why)
    ensures |pairs| == |counted| + ExclusionSum(excluded)
  {
    counted, excluded := [], map[];
    if store.None? {
      excluded := excluded[StoreUnavailable := |pairs|];
      NothingCounts(pairs);
      return;
    }
    for i := 0 to |pairs|
      invariant counted == Counted(pairs[..i], store)
      invariant ExclusionsAre(excluded, pairs[..i], store)
      invariant i == |counted| + ExclusionSum(excluded)
    {
      assert pairs[..i + 1] == pairs[..i] + [pairs[i]];
      ExclusionsNext(excluded, pairs[..i], pairs[i], store);
      var why := VerifyPair(pairs[i], store.value(pairs[i].subject));
      if why.Some? {
        ExclusionSumBumped(excluded, why.value);
        excluded := Bump(excluded, why.value);
      } else {
        counted := counted + [pairs[i]];
      }
    }
    assert pairs[..|pairs|] == pairs;
  }

  lemma {:induction false} NothingCounts(pairs: seq<Pair>)
    ensures Counted(pairs, None) == []
    ensures forall why :: Excluded(pairs, None, why) == if why == StoreUnavailable then |pairs| else 0
  {
    if pairs != [] {
      NothingCounts(pairs[..|pairs| - 1]);
    }
  }

  /** The journal claim alone counts nothing: a pair that counts names at least one
      event of a verified trial, and every event it names carries, in the store's
      own hash-covered detail, the same channel the label claims, an attested one. */
  lemma CountedMeansAttested(labels: seq<Row<Label>>, flags: seq<Row<Machine>>, window: Window, trial: string,
                             store: Option<string -> Reading>)
    requires TrialPair(labels, flags, window, trial).Some?
    requires ExclusionOf(TrialPair(labels, flags, window, trial).value, store).None?
    ensures var pair := TrialPair(labels, flags, window, trial).value;
            && store.Some? && store.value(trial).Events? && pair.hashes != []
            && pair.channel.Some? && pair.channel.value in ATTESTED_CHANNELS
            && forall h | h in pair.hashes :: CarriesChannel(store.value(trial).events, h, pair.channel)
  {
    var pair := TrialPair(labels, flags, window, trial).value;
    LatestExactly(labels, Survives(window), trial);
    var events := store.value(trial).events;
    forall h | h in pair.hashes ensures CarriesChannel(events, h, pair.channel) {
      StoredChannelIsThere(events, h);
    }
  }

  // ----- buckets per stratum

  function InStratum(pairs: seq<Pair>, key: string): seq<Pair> {
    if pairs == [] then []
    else InStratum(pairs[..|pairs| - 1], key) + if pairs[|pairs| - 1].stratum == key then [pairs[|pairs| - 1]] else []
  }

  function Sizes(keys: seq<string>, pairs: seq<Pair>): nat {
    if keys == [] then 0 else Sizes(keys[..|keys| - 1], pairs) + |InStratum(pairs, keys[|keys| - 1])|
  }

  /** Counted pairs by stratum, in order within each. */
  method ByStratum(counted: seq<Pair>) returns (buckets: map<string, seq<Pair>>)
    ensures forall key :: (if key in buckets then buckets[key] else []) == InStratum(counted, key)
    ensures forall key | key in buckets :: buckets[key] != []
  {
    buckets := map[];
    for i := 0 to |counted|
      invariant forall key :: (if key in buckets then buckets[key] else []) == InStratum(counted[..i], key)
      invariant forall key | key in buckets :: buckets[key] != []
    {
      assert counted[..i + 1][..i] == counted[..i];
      var key := counted[i].stratum;
      var bucket := if key in buckets then buckets[key] else [];
      buckets := buckets[key := bucket + [counted[i]]];
    }
    assert counted[..|counted|] == counted;
  }

  /** Bucketing loses and repeats nothing: over any repetition-free listing of
      strata that covers the pairs, the bucket sizes add up to the pairs. */
  lemma {:induction false} BucketsConserve(keys: seq<string>, pairs: seq<Pair>)
    requires forall i, j | 0 <= i < j < |keys| :: keys[i] != keys[j]
    requires forall p | p in pairs :: p.stratum in keys
    ensures Sizes(keys, pairs) == |pairs|
  {
    if pairs == [] {
      NoPairsNoSizes(keys);
    } else {
      var front, last := pairs[..|pairs| - 1], pairs[|pairs| - 1];
      BucketsConserve(keys, front);
      SizesStep(keys, front, last);
      assert pairs == front + [last];
    }
  }

  lemma {:induction false} NoPairsNoSizes(keys: seq<string>)
    ensures Sizes(keys, []) == 0
  {
    if keys != [] {
      NoPairsNoSizes(keys[..|keys| - 1]);
    }
  }

  lemma {:induction false} SizesStep(keys: seq<string>, pairs: seq<Pair>, pair: Pair)
    requires forall i, j | 0 <= i < j < |keys| :: keys[i] != keys[j]
    ensures Sizes(keys, pairs + [pair]) == Sizes(keys, pairs) + if pair.stratum in keys then 1 else 0
  {
    if keys != [] {
      var n := |keys| - 1;
      SizesStep(keys[..n], pairs, pair);
      assert (pairs + [pair])[..|pairs|] == pairs;
      assert pair.stratum in keys <==> pair.stratum in keys[..n] || pair.stratum == keys[n];
      assert keys[n] !in keys[..n];
    }
  }
}
