/** Cost summaries: accepted values of the days collected in buckets per officer
    and project, then rolled up per officer and per project. */
module CostRollup {
  import opened Options
  import opened CostFields

  datatype Totals = Totals(costMicro: int, cacheWrite: int, cacheRead: int, input: int, output: int)
  {
    function Of(d: Dim): int {
      match d
      case CostMicro => costMicro
      case CacheWrite => cacheWrite
      case CacheRead => cacheRead
      case Input => input
      case Output => output
    }

    function Plus(t: Totals): Totals {
      Totals(costMicro + t.costMicro, cacheWrite + t.cacheWrite, cacheRead + t.cacheRead, input + t.input, output + t.output)
    }
  }

  const ZERO := Totals(0, 0, 0, 0, 0)

  function Single(d: Dim, n: int): Totals {
    match d
    case CostMicro => ZERO.(costMicro := n)
    case CacheWrite => ZERO.(cacheWrite := n)
    case CacheRead => ZERO.(cacheRead := n)
    case Input => ZERO.(input := n)
    case Output => ZERO.(output := n)
  }

  // ----- buckets: an insertion-ordered dictionary of totals

  datatype Bucket = Bucket(key: string, totals: Totals)

  type Buckets = seq<Bucket>

  predicate Distinct(b: Buckets) {
    forall i, j | 0 <= i < j < |b| :: b[i].key != b[j].key
  }

  /** Adds to the bucket with the key, which starts at zero when it is new. */
  function AddTo(b: Buckets, key: string, t: Totals): Buckets {
    if b == [] then [Bucket(key, t)]
    else if b[0].key == key then [Bucket(key, b[0].totals.Plus(t))] + b[1..]
    else [b[0]] + AddTo(b[1..], key, t)
  }

  /** One dimension summed over the buckets whose key is selected. */
  function Sum(b: Buckets, selected: string -> bool, d: Dim): int {
    if b == [] then 0
    else (if selected(b[0].key) then b[0].totals.Of(d) else 0) + Sum(b[1..], selected, d)
  }

  function Everything(): string -> bool {
    key => true
  }

  function Exactly(key: string): string -> bool {
    k => k == key
  }

  lemma {:induction false} AddToSum(b: Buckets, key: string, t: Totals, selected: string -> bool, d: Dim)
    ensures Sum(AddTo(b, key, t), selected, d) == Sum(b, selected, d) + if selected(key) then t.Of(d) else 0
  {
    if b == [] {
      assert [Bucket(key, t)][1..] == [];
    } else if b[0].key == key {
      assert ([Bucket(key, b[0].totals.Plus(t))] + b[1..])[1..] == b[1..];
    } else {
      AddToSum(b[1..], key, t, selected, d);
      assert ([b[0]] + AddTo(b[1..], key, t))[1..] == AddTo(b[1..], key, t);
    }
  }

  lemma {:induction false} AddToKeys(b: Buckets, key: string, t: Totals)
    ensures forall k :: HasKey(AddTo(b, key, t), k) <==> HasKey(b, k) || k == key
    ensures Distinct(b) ==> Distinct(AddTo(b, key, t))
  {
    if b == [] {
      assert [Bucket(key, t)][0].key == key;
    } else if b[0].key == key {
      var r := [Bucket(key, b[0].totals.Plus(t))] + b[1..];
      assert forall i | 0 <= i < |b| :: r[i].key == b[i].key;
    } else {
      AddToKeys(b[1..], key, t);
      var rest := AddTo(b[1..], key, t);
      HasKeyCons(b[0], b[1..]);
      HasKeyCons(b[0], rest);
      assert b == [b[0]] + b[1..];
      if Distinct(b) {
        assert !HasKey(b[1..], b[0].key);
        DistinctCons(b[0], rest);
      }
    }
  }

  ghost predicate HasKey(b: Buckets, key: string) {
    exists i | 0 <= i < |b| :: b[i].key == key
  }

  lemma HasKeyCons(first: Bucket, rest: Buckets)
    ensures forall k :: HasKey([first] + rest, k) <==> first.key == k || HasKey(rest, k)
  {
    var b := [first] + rest;
    assert b[0] == first && forall i | 0 <= i < |rest| :: b[i + 1] == rest[i];
    forall k ensures HasKey(b, k) <==> first.key == k || HasKey(rest, k) {
      if HasKey(b, k) && first.key != k {
        var i :| 0 <= i < |b| && b[i].key == k;
        assert rest[i - 1] == b[i];
      }
      if HasKey(rest, k) {
        var i :| 0 <= i < |rest| && rest[i].key == k;
        assert b[i + 1].key == k;
      }
    }
  }

  lemma DistinctCons(first: Bucket, rest: Buckets)
    requires Distinct(rest) && !HasKey(rest, first.key)
    ensures Distinct([first] + rest)
  {
  }

  // ----- one day

  /** A day's hash: field names, each with a value in text. */
  type Day = seq<(string, string)>

  /** Filters as validated by the tool: absent, or a valid slug. */
  datatype Filters = Filters(officer: Option<string>, project: Option<string>)

  predicate Passes(f: Field, filters: Filters) {
    && (filters.officer.Some? ==> f.officer == filters.officer.value)
    && (filters.project.Some? ==> f.project == Some(filters.project.value))
  }

  datatype Accepted = Accepted(field: Field, amount: int)

  /** What a field contributes; `toInt` reads the number, None when it is not one. */
  function Accept(name: string, text: string, filters: Filters, toInt: string -> Option<int>): Option<Accepted> {
    var field := Parse(name);
    if field.None? || !Passes(field.value, filters) || toInt(text).None? then None
    else Some(Accepted(field.value, toInt(text).value))
  }

  /** What a field contributes, exactly: it prints a well-formed field that no filter
      keeps out, and its text is a number. */
  lemma AcceptExactly(name: string, text: string, filters: Filters, toInt: string -> Option<int>, field: Field, amount: int)
    ensures Accept(name, text, filters, toInt) == Some(Accepted(field, amount)) <==>
              && name == Print(field) && WellFormed(field) && toInt(text) == Some(amount)
              && (filters.officer == None || filters.officer == Some(field.officer))
              && (filters.project == None || filters.project == field.project)
  {
    ParseExactly(name, field);
  }

  /** A day's accepted values are what its fields contribute, and nothing else. */
  lemma {:induction false} AllAcceptedExactly(day: Day, filters: Filters, toInt: string -> Option<int>, a: Accepted)
    ensures a in AllAccepted(day, filters, toInt) <==>
              exists i | 0 <= i < |day| :: Accept(day[i].0, day[i].1, filters, toInt) == Some(a)
    decreases |day|
  {
    if day != [] {
      var n := |day| - 1;
      var past := day[..n];
      AllAcceptedExactly(past, filters, toInt, a);
      assert forall i | 0 <= i < n :: past[i] == day[i];
      AllAcceptedNext(day, n, filters, toInt);
      assert day[..n + 1] == day;
    }
  }

  function AllAccepted(day: Day, filters: Filters, toInt: string -> Option<int>): seq<Accepted> {
    if day == [] then []
    else
      var last := day[|day| - 1];
      var a := Accept(last.0, last.1, filters, toInt);
      AllAccepted(day[..|day| - 1], filters, toInt) + if a.Some? then [a.value] else []
  }

  lemma AllAcceptedNext(day: Day, i: nat, filters: Filters, toInt: string -> Option<int>)
    requires i < |day|
    ensures var a := Accept(day[i].0, day[i].1, filters, toInt);
            var before := AllAccepted(day[..i], filters, toInt);
            AllAccepted(day[..i + 1], filters, toInt) == if a.Some? then before + [a.value] else before
  {
    assert day[..i + 1][..i] == day[..i];
  }

  function DaysAccepted(days: seq<Day>, filters: Filters, toInt: string -> Option<int>): seq<Accepted> {
    if days == [] then []
    else DaysAccepted(days[..|days| - 1], filters, toInt) + AllAccepted(days[|days| - 1], filters, toInt)
  }

  /** Accepted amounts of one dimension over the selected bucket keys. */
  function Amount(values: seq<Accepted>, selected: string -> bool, d: Dim): int {
    if values == [] then 0
    else
      var v := values[|values| - 1];
      Amount(values[..|values| - 1], selected, d)
      + if v.field.dim == d && selected(Key(v.field.officer, v.field.project)) then v.amount else 0
  }

  lemma {:induction false} AmountAppend(xs: seq<Accepted>, ys: seq<Accepted>, selected: string -> bool, d: Dim)
    ensures Amount(xs + ys, selected, d) == Amount(xs, selected, d) + Amount(ys, selected, d)
  {
    if ys == [] {
      assert xs + ys == xs;
    } else {
      AmountAppend(xs, ys[..|ys| - 1], selected, d);
      assert (xs + ys)[..|xs + ys| - 1] == xs + ys[..|ys| - 1];
    }
  }

  /** Buckets hold the accepted values and nothing else: every selection of keys
      sums to the amounts accepted under those keys. */
  ghost predicate Holds(b: Buckets, values: seq<Accepted>) {
    && Distinct(b)
    && (forall k | HasKey(b, k) :: exists o, p :: SlugKey(k, o, p))
    && forall selected, d :: Sum(b, selected, d) == Amount(values, selected, d)
  }

  predicate SlugKey(key: string, officer: string, project: Option<string>) {
    key == Key(officer, project) && ValidSlug(officer) && (project.Some? ==> ValidSlug(project.value))
  }

  lemma HoldsNext(b: Buckets, values: seq<Accepted>, a: Accepted)
    requires Holds(b, values) && WellFormed(a.field)
    ensures Holds(AddTo(b, Key(a.field.officer, a.field.project), Single(a.field.dim, a.amount)), values + [a])
  {
    var key, t := Key(a.field.officer, a.field.project), Single(a.field.dim, a.amount);
    AddToKeys(b, key, t);
    assert SlugKey(key, a.field.officer, a.field.project);
    forall selected, d ensures Sum(AddTo(b, key, t), selected, d) == Amount(values + [a], selected, d) {
      AddToSum(b, key, t, selected, d);
      assert (values + [a])[..|values|] == values;
    }
  }

  method ParseCostHset(day: Day, filters: Filters, toInt: string -> Option<int>) returns (buckets: Buckets)
    ensures Holds(buckets, AllAccepted(day, filters, toInt))
  {
    buckets := [];
    for i := 0 to |day|
      invariant Holds(buckets, AllAccepted(day[..i], filters, toInt))
    {
      ghost var values := AllAccepted(day[..i], filters, toInt);
      AllAcceptedNext(day, i, filters, toInt);
      var a := Accept(day[i].0, day[i].1, filters, toInt);
      if a.None? {
        continue;
      }
      var field, amount := a.value.field, a.value.amount;
      ParseExactly(day[i].0, field);
      HoldsNext(buckets, values, a.value);
      buckets := AddTo(buckets, Key(field.officer, field.project), Single(field.dim, amount));
    }
    assert day[..|day|] == day;
  }

  // ----- several days

  lemma {:induction false} MergeHolds(b: Buckets, more: Buckets, n: nat)
    requires n <= |more|
    requires Distinct(b) && forall k | HasKey(b, k) || HasKey(more, k) :: exists o, p :: SlugKey(k, o, p)
    ensures Distinct(Merge(b, more[..n])) && forall k | HasKey(Merge(b, more[..n]), k) :: exists o, p :: SlugKey(k, o, p)
    ensures forall selected, d ::
              Sum(Merge(b, more[..n]), selected, d) == Sum(b, selected, d) + Sum(more[..n], selected, d)
  {
    if n > 0 {
      MergeHolds(b, more, n - 1);
      var before := Merge(b, more[..n - 1]);
      assert more[..n][..n - 1] == more[..n - 1] && more[..n][n - 1] == more[n - 1];
      AddToKeys(before, more[n - 1].key, more[n - 1].totals);
      assert HasKey(more, more[n - 1].key);
      forall selected, d
        ensures Sum(Merge(b, more[..n]), selected, d) == Sum(b, selected, d) + Sum(more[..n], selected, d)
      {
        AddToSum(before, more[n - 1].key, more[n - 1].totals, selected, d);
        SumLast(more[..n], selected, d);
      }
    }
  }

  lemma {:induction false} SumLast(b: Buckets, selected: string -> bool, d: Dim)
    requires b != []
    ensures Sum(b, selected, d) == Sum(b[..|b| - 1], selected, d)
                                   + if selected(b[|b| - 1].key) then b[|b| - 1].totals.Of(d) else 0
  {
    if |b| > 1 {
      SumLast(b[1..], selected, d);
      assert b[1..][..|b| - 2] == b[..|b| - 1][1..];
    }
  }

  /** `more` added bucket by bucket. */
  function Merge(b: Buckets, more: Buckets): Buckets {
    if more == [] then b
    else AddTo(Merge(b, more[..|more| - 1]), more[|more| - 1].key, more[|more| - 1].totals)
  }

  method CombineDays(days: seq<Day>, filters: Filters, toInt: string -> Option<int>) returns (combined: Buckets)
    ensures Holds(combined, DaysAccepted(days, filters, toInt))
  {
    combined := [];
    for i := 0 to |days|
      invariant Holds(combined, DaysAccepted(days[..i], filters, toInt))
    {
      assert days[..i + 1][..i] == days[..i];
      var day := ParseCostHset(days[i], filters, toInt);
      ghost var values, more := DaysAccepted(days[..i], filters, toInt), AllAccepted(days[i], filters, toInt);
      MergeHolds(combined, day, |day|);
      assert day[..|day|] == day;
      forall selected, d ensures Sum(Merge(combined, day), selected, d) == Amount(values + more, selected, d) {
        AmountAppend(values, more, selected, d);
      }
      ghost var before := combined;
      for j := 0 to |day|
        invariant combined == Merge(before, day[..j])
      {
        assert day[..j + 1][..j] == day[..j];
        combined := AddTo(combined, day[j].key, day[j].totals);
      }
    }
    assert days[..|days|] == days;
  }

  // ----- the rollups

  const NO_PROJECT := "null"

  function ProjectKey(key: string): string {
    var project := ProjectOf(key);
    if project.Some? then project.value else NO_PROJECT
  }

  /** The combined buckets regrouped under another name for each key. */
  function Rollup(combined: Buckets, name: string -> string): Buckets {
    if combined == [] then []
    else
      var last := combined[|combined| - 1];
      AddTo(Rollup(combined[..|combined| - 1], name), name(last.key), last.totals)
  }

  function Named(name: string -> string, wanted: string): string -> bool {
    key => name(key) == wanted
  }

  lemma {:induction false} RolledUp(combined: Buckets, name: string -> string, wanted: string, d: Dim)
    ensures Sum(Rollup(combined, name), Exactly(wanted), d) == Sum(combined, Named(name, wanted), d)
    ensures Sum(Rollup(combined, name), Everything(), d) == Sum(combined, Everything(), d)
  {
    if combined != [] {
      var front, last := combined[..|combined| - 1], combined[|combined| - 1];
      RolledUp(front, name, wanted, d);
      AddToSum(Rollup(front, name), name(last.key), last.totals, Exactly(wanted), d);
      AddToSum(Rollup(front, name), name(last.key), last.totals, Everything(), d);
      SumLast(combined, Named(name, wanted), d);
      SumLast(combined, Everything(), d);
    }
  }

  lemma {:induction false} RollupDistinct(combined: Buckets, name: string -> string)
    ensures Distinct(Rollup(combined, name))
  {
    if combined != [] {
      var front, last := combined[..|combined| - 1], combined[|combined| - 1];
      RollupDistinct(front, name);
      AddToKeys(Rollup(front, name), name(last.key), last.totals);
    }
  }

  function OfficerName(): string -> string {
    key => OfficerOf(key)
  }

  function ProjectName(): string -> string {
    key => ProjectKey(key)
  }

  /** The three views of the accepted values. */
  datatype Summary = Summary(byOfficerProject: Buckets, byOfficer: Buckets, byProject: Buckets)

  method CostSummary(days: seq<Day>, filters: Filters, toInt: string -> Option<int>) returns (s: Summary)
    ensures Holds(s.byOfficerProject, DaysAccepted(days, filters, toInt))
    ensures s.byOfficer == Rollup(s.byOfficerProject, OfficerName())
    ensures s.byProject == Rollup(s.byOfficerProject, ProjectName())
  {
    var combined := CombineDays(days, filters, toInt);
    var byOfficer, byProject: Buckets := [], [];
    for i := 0 to |combined|
      invariant byOfficer == Rollup(combined[..i], OfficerName())
      invariant byProject == Rollup(combined[..i], ProjectName())
    {
      assert combined[..i + 1][..i] == combined[..i];
      byOfficer := AddTo(byOfficer, OfficerOf(combined[i].key), combined[i].totals);
      byProject := AddTo(byProject, ProjectKey(combined[i].key), combined[i].totals);
    }
    assert combined[..|combined|] == combined;
    s := Summary(combined, byOfficer, byProject);
  }

  // ----- what the summary means, in the fields' own terms

  /** Accepted amounts of one dimension over the selected fields. */
  function FieldAmount(values: seq<Accepted>, chosen: Field -> bool, d: Dim): int {
    if values == [] then 0
    else
      var v := values[|values| - 1];
      FieldAmount(values[..|values| - 1], chosen, d) + if v.field.dim == d && chosen(v.field) then v.amount else 0
  }

  function WithOfficer(officer: string): Field -> bool {
    (f: Field) => f.officer == officer
  }

  function WithProject(project: Option<string>): Field -> bool {
    (f: Field) => f.project == project
  }

  function AnyField(): Field -> bool {
    (f: Field) => true
  }

  lemma {:induction false} DayValuesWellFormed(day: Day, filters: Filters, toInt: string -> Option<int>)
    ensures forall v | v in AllAccepted(day, filters, toInt) :: WellFormed(v.field)
  {
    if day != [] {
      DayValuesWellFormed(day[..|day| - 1], filters, toInt);
      var last := day[|day| - 1];
      if Parse(last.0).Some? {
        ParseExactly(last.0, Parse(last.0).value);
      }
    }
  }

  lemma {:induction false} ValuesWellFormed(days: seq<Day>, filters: Filters, toInt: string -> Option<int>)
    ensures forall v | v in DaysAccepted(days, filters, toInt) :: WellFormed(v.field)
  {
    if days != [] {
      ValuesWellFormed(days[..|days| - 1], filters, toInt);
      DayValuesWellFormed(days[|days| - 1], filters, toInt);
    }
  }

  lemma {:induction false} AmountByFields(values: seq<Accepted>, selected: string -> bool, chosen: Field -> bool, d: Dim)
    requires forall v | v in values :: selected(Key(v.field.officer, v.field.project)) <==> chosen(v.field)
    ensures Amount(values, selected, d) == FieldAmount(values, chosen, d)
  {
    if values != [] {
      AmountByFields(values[..|values| - 1], selected, chosen, d);
      assert values[|values| - 1] in values;
    }
  }

  /** Every view conserves every dimension: officer-project buckets, officers and
      projects each sum to all the accepted values of all the days. */
  lemma EveryViewConserves(s: Summary, days: seq<Day>, filters: Filters, toInt: string -> Option<int>, d: Dim)
    requires Holds(s.byOfficerProject, DaysAccepted(days, filters, toInt))
    requires s.byOfficer == Rollup(s.byOfficerProject, OfficerName())
    requires s.byProject == Rollup(s.byOfficerProject, ProjectName())
    ensures var total := FieldAmount(DaysAccepted(days, filters, toInt), AnyField(), d);
            && Sum(s.byOfficerProject, Everything(), d) == total
            && Sum(s.byOfficer, Everything(), d) == total
            && Sum(s.byProject, Everything(), d) == total
  {
    AmountByFields(DaysAccepted(days, filters, toInt), Everything(), AnyField(), d);
    RolledUp(s.byOfficerProject, OfficerName(), "", d);
    RolledUp(s.byOfficerProject, ProjectName(), "", d);
  }

  /** An officer's bucket holds exactly that officer's accepted values. */
  lemma OfficerBucketExactly(s: Summary, days: seq<Day>, filters: Filters, toInt: string -> Option<int>,
                             officer: string, d: Dim)
    requires Holds(s.byOfficerProject, DaysAccepted(days, filters, toInt))
    requires s.byOfficer == Rollup(s.byOfficerProject, OfficerName())
    ensures Sum(s.byOfficer, Exactly(officer), d)
            == FieldAmount(DaysAccepted(days, filters, toInt), WithOfficer(officer), d)
    ensures Distinct(s.byOfficer)
  {
    var values := DaysAccepted(days, filters, toInt);
    RollupDistinct(s.byOfficerProject, OfficerName());
    RolledUp(s.byOfficerProject, OfficerName(), officer, d);
    ValuesWellFormed(days, filters, toInt);
    forall v | v in values
      ensures Named(OfficerName(), officer)(Key(v.field.officer, v.field.project)) <==> WithOfficer(officer)(v.field)
    {
      KeyExactly(v.field.officer, v.field.project);
    }
    AmountByFields(values, Named(OfficerName(), officer), WithOfficer(officer), d);
  }

  /** Fields filed under a project's display name: the project's own, and under
      "null" also those without a project. */
  function FiledUnder(name: string): Field -> bool {
    (f: Field) => f.project == Some(name) || (name == NO_PROJECT && f.project.None?)
  }

  lemma {:induction false} FiledAmount(values: seq<Accepted>, name: string, d: Dim)
    ensures FieldAmount(values, FiledUnder(name), d)
            == FieldAmount(values, WithProject(Some(name)), d)
               + if name == NO_PROJECT then FieldAmount(values, WithProject(None), d) else 0
  {
    if values != [] {
      FiledAmount(values[..|values| - 1], name, d);
    }
  }

  /** A project's bucket holds exactly that project's accepted values, unless the
      project is called "null": that bucket also takes every value without a
      project. So a bucket misstates its project exactly when the project is
      "null" and the values without one do not cancel out. */
  lemma ProjectBucketExactly(s: Summary, days: seq<Day>, filters: Filters, toInt: string -> Option<int>,
                             project: string, d: Dim)
    requires Holds(s.byOfficerProject, DaysAccepted(days, filters, toInt))
    requires s.byProject == Rollup(s.byOfficerProject, ProjectName())
    ensures var values := DaysAccepted(days, filters, toInt);
            var unfiled := FieldAmount(values, WithProject(None), d);
            && Sum(s.byProject, Exactly(project), d)
               == FieldAmount(values, WithProject(Some(project)), d) + (if project == NO_PROJECT then unfiled else 0)
            && (Sum(s.byProject, Exactly(project), d) == FieldAmount(values, WithProject(Some(project)), d)
                <==> project != NO_PROJECT || unfiled == 0)
    ensures Distinct(s.byProject)
  {
    var values := DaysAccepted(days, filters, toInt);
    RollupDistinct(s.byOfficerProject, ProjectName());
    RolledUp(s.byOfficerProject, ProjectName(), project, d);
    ValuesWellFormed(days, filters, toInt);
    forall v | v in values
      ensures Named(ProjectName(), project)(Key(v.field.officer, v.field.project)) <==> FiledUnder(project)(v.field)
    {
      KeyExactly(v.field.officer, v.field.project);
    }
    AmountByFields(values, Named(ProjectName(), project), FiledUnder(project), d);
    FiledAmount(values, project, d);
  }

  /** The name is a valid slug, so the two kinds of field really can meet. */
  lemma NullIsASlug()
    ensures ValidSlug(NO_PROJECT)
    ensures ProjectKey(Key("cto", None)) == ProjectKey(Key("cto", Some(NO_PROJECT))) == NO_PROJECT
    ensures Key("cto", None) != Key("cto", Some(NO_PROJECT))
  {
    assert ValidSlug("cto");
    KeyExactly("cto", None);
    KeyExactly("cto", Some(NO_PROJECT));
  }
}
