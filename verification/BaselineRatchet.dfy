/** The ratchet on the baseline member sets: what a passing step guarantees, and
    what a chain of passing steps does. */
module BaselineRatchet {
  type Member = string
  type Sets = map<string, set<Member>>

  /** What git and the census report of the tree at head. `renames` gives for an old
      path the new one; it pairs over the same diff the rules read. */
  datatype Tree = Tree(observed: Sets, tracked: set<Member>, renames: map<Member, Member>)

  datatype Failure =
    | Grew(budget: string, added: nat, credited: nat)
    | NotCarried(budget: string, member: Member)
    | NotRenamed(budget: string, member: Member)

  function Of(sets: Sets, name: string): set<Member> {
    if name in sets then sets[name] else {}
  }

  // ----- the rules for one class

  function Added(before: set<Member>, after: set<Member>): set<Member> {
    after - before
  }

  /** A removal is credited when the tree no longer carries the member. */
  function Credited(before: set<Member>, after: set<Member>, present: set<Member>): set<Member> {
    set m | m in before && m !in after && m !in present
  }

  function Uncredited(before: set<Member>, after: set<Member>, present: set<Member>): set<Member> {
    (before - after) - Credited(before, after, present)
  }

  predicate RuleA(before: set<Member>, after: set<Member>, present: set<Member>) {
    |Added(before, after)| <= |Credited(before, after, present)|
  }

  predicate RuleB(before: set<Member>, after: set<Member>, present: set<Member>) {
    Added(before, after) <= present
  }

  predicate RenamedFrom(origin: Member, member: Member, credited: set<Member>, renames: map<Member, Member>) {
    origin in credited && origin in renames && renames[origin] == member
  }

  predicate HasSource(member: Member, credited: set<Member>, renames: map<Member, Member>) {
    exists origin | origin in credited :: RenamedFrom(origin, member, credited, renames)
  }

  /** Decided only for additions the tree carries. */
  predicate RuleC(before: set<Member>, after: set<Member>, present: set<Member>, tree: Tree) {
    forall m | m in Added(before, after) * present * tree.tracked ::
      HasSource(m, Credited(before, after, present), tree.renames)
  }

  predicate Passes(before: set<Member>, after: set<Member>, present: set<Member>, tree: Tree) {
    RuleA(before, after, present) && RuleB(before, after, present) && RuleC(before, after, present, tree)
  }

  ghost predicate Found(f: Failure, baseSets: Sets, headSets: Sets, tree: Tree) {
    var before, after, present := Of(baseSets, f.budget), Of(headSets, f.budget), Of(tree.observed, f.budget);
    && (f.budget in baseSets || f.budget in headSets)
    && match f
       case Grew(_, added, credited) =>
         added == |Added(before, after)| && credited == |Credited(before, after, present)| && added > credited
       case NotCarried(_, member) => member in Added(before, after) && member !in present
       case NotRenamed(_, member) =>
         && member in Added(before, after) && member in present && member in tree.tracked
         && !HasSource(member, Credited(before, after, present), tree.renames)
  }

  /** The removals that pay: of members the tree no longer carries. */
  function Left(before: set<Member>, after: set<Member>, present: set<Member>): set<Member> {
    before - after - present
  }

  /** The member is where some removal was renamed to. */
  ghost predicate Renamed(member: Member, left: set<Member>, renames: map<Member, Member>) {
    exists origin :: origin in left && origin in renames && renames[origin] == member
  }

  lemma SourceExactly(member: Member, before: set<Member>, after: set<Member>, present: set<Member>, renames: map<Member, Member>)
    ensures Credited(before, after, present) == Left(before, after, present)
    ensures HasSource(member, Credited(before, after, present), renames) <==> Renamed(member, Left(before, after, present), renames)
  {
    var left := Left(before, after, present);
    assert Credited(before, after, present) == left;
    if origin :| origin in left && origin in renames && renames[origin] == member {
      assert RenamedFrom(origin, member, left, renames);
    }
  }

  /** The three rules on the sets themselves: additions are paid for by removals that
      left the tree, every addition is in the tree, and a tracked one is the rename of
      such a removal. A removal the tree still carries pays for nothing. */
  lemma PassesExactly(before: set<Member>, after: set<Member>, present: set<Member>, tree: Tree)
    ensures Passes(before, after, present, tree) <==>
              && |after - before| <= |Left(before, after, present)|
              && after - before <= present
              && forall m | m in after && m !in before && m in tree.tracked :: Renamed(m, Left(before, after, present), tree.renames)
  {
    forall m ensures HasSource(m, Credited(before, after, present), tree.renames) <==> Renamed(m, Left(before, after, present), tree.renames) {
      SourceExactly(m, before, after, present, tree.renames);
    }
    SourceExactly("", before, after, present, tree.renames);
  }

  /** Each failure, exactly, on the sets themselves. */
  lemma FailuresExactly(budget: string, member: Member, added: nat, credited: nat, baseSets: Sets, headSets: Sets, tree: Tree)
    ensures var before, after, present := Of(baseSets, budget), Of(headSets, budget), Of(tree.observed, budget);
            var known, left := budget in baseSets || budget in headSets, Left(before, after, present);
            && (Found(Grew(budget, added, credited), baseSets, headSets, tree) <==>
                  known && added == |after - before| && credited == |left| && added > credited)
            && (Found(NotCarried(budget, member), baseSets, headSets, tree) <==>
                  known && member in after && member !in before && member !in present)
            && (Found(NotRenamed(budget, member), baseSets, headSets, tree) <==>
                  known && member in after && member !in before && member in present && member in tree.tracked
                  && !Renamed(member, left, tree.renames))
  {
    SourceExactly(member, Of(baseSets, budget), Of(headSets, budget), Of(tree.observed, budget), tree.renames);
  }

  // ----- the evaluation

  /** One class: growth first, then each addition. */
  method EvaluateClass(name: string, baseSets: Sets, headSets: Sets, tree: Tree) returns (failures: set<Failure>)
    requires name in baseSets || name in headSets
    ensures forall f :: f in failures <==> f.budget == name && Found(f, baseSets, headSets, tree)
  {
    var before, after, present := Of(baseSets, name), Of(headSets, name), Of(tree.observed, name);
    var added, credited := Added(before, after), Credited(before, after, present);
    failures := if |added| > |credited| then {Grew(name, |added|, |credited|)} else {};
    ghost var grown := failures;
    var rest := added;
    while rest != {}
      invariant rest <= added
      invariant forall f :: f in failures <==>
        f in grown || (f.budget == name && !f.Grew? && f.member !in rest && Found(f, baseSets, headSets, tree))
    {
      var member :| member in rest;
      rest := rest - {member};
      if member !in present {
        failures := failures + {NotCarried(name, member)};
      } else if member in tree.tracked && !HasSource(member, credited, tree.renames) {
        failures := failures + {NotRenamed(name, member)};
      }
    }
  }

  method Evaluate(baseSets: Sets, headSets: Sets, tree: Tree) returns (failures: set<Failure>, ok: bool)
    ensures forall f :: f in failures <==> Found(f, baseSets, headSets, tree)
    ensures ok <==> forall name | name in baseSets || name in headSets ::
                      Passes(Of(baseSets, name), Of(headSets, name), Of(tree.observed, name), tree)
  {
    failures := {};
    var rest := baseSets.Keys + headSets.Keys;
    while rest != {}
      invariant rest <= baseSets.Keys + headSets.Keys
      invariant forall f :: f in failures <==> f.budget !in rest && Found(f, baseSets, headSets, tree)
    {
      var name :| name in rest;
      rest := rest - {name};
      var more := EvaluateClass(name, baseSets, headSets, tree);
      failures := failures + more;
    }
    ok := failures == {};
    NoFailureExactly(baseSets, headSets, tree);
  }

  lemma NoFailureExactly(baseSets: Sets, headSets: Sets, tree: Tree)
    ensures (forall f :: !Found(f, baseSets, headSets, tree)) <==>
              forall name | name in baseSets || name in headSets ::
                Passes(Of(baseSets, name), Of(headSets, name), Of(tree.observed, name), tree)
  {
    if forall f :: !Found(f, baseSets, headSets, tree) {
      forall name | name in baseSets || name in headSets
        ensures Passes(Of(baseSets, name), Of(headSets, name), Of(tree.observed, name), tree)
      {
        var before, after, present := Of(baseSets, name), Of(headSets, name), Of(tree.observed, name);
        assert !Found(Grew(name, |Added(before, after)|, |Credited(before, after, present)|), baseSets, headSets, tree);
        forall m | m in Added(before, after)
          ensures m in present && (m in tree.tracked ==> HasSource(m, Credited(before, after, present), tree.renames))
        {
          assert !Found(NotCarried(name, m), baseSets, headSets, tree);
          assert !Found(NotRenamed(name, m), baseSets, headSets, tree);
        }
      }
    }
  }

  // ----- what a passing step guarantees

  lemma Sizes(a: set<Member>, b: set<Member>)
    ensures |a - b| == |a| - |a * b| && |a * b| <= |b| && |a * b| == |b * a|
  {
    assert a == (a - b) + a * b;
    assert b == (b - a) + a * b;
    assert a * b == b * a;
  }

  /** The surplus, what the tree holds beyond its baseline and so must be
      registered, is at least what the tree gained over the old baseline, and every
      removal that left its member in the tree adds to it. */
  lemma SurplusIsKept(before: set<Member>, after: set<Member>, present: set<Member>)
    requires RuleA(before, after, present)
    ensures |after| <= |before| - |Uncredited(before, after, present)|
    ensures |present - after| >= |present| - |before| + |Uncredited(before, after, present)|
  {
    var removed, credited := before - after, Credited(before, after, present);
    Sizes(after, before);
    Sizes(before, after);
    Sizes(present, after);
    assert removed == credited + Uncredited(before, after, present);
  }

  // ----- renames alone

  /** Where a member of the new baseline comes from: itself, or the credited removal
      it is a rename of. */
  ghost predicate ComesFrom(source: map<Member, Member>, before: set<Member>, after: set<Member>) {
    && source.Keys == after
    && (forall m | m in after :: source[m] in before)
    && forall m, n | m in after && n in after && m != n :: source[m] != source[n]
  }

  predicate KeptOrRenamed(origin: Member, member: Member, tree: Tree) {
    origin == member || (origin in tree.renames && tree.renames[origin] == member)
  }

  /** When every addition is a tracked path, rules B and C trace the new baseline
      back, one to one, into the old one. */
  lemma RenamesTraceBack(before: set<Member>, after: set<Member>, present: set<Member>, tree: Tree)
    returns (source: map<Member, Member>)
    requires RuleB(before, after, present) && RuleC(before, after, present, tree)
    requires Added(before, after) <= tree.tracked
    ensures ComesFrom(source, before, after)
    ensures forall m | m in after :: KeptOrRenamed(source[m], m, tree)
  {
    var credited := Credited(before, after, present);
    assert forall m | m in after - before :: HasSource(m, credited, tree.renames);
    source := map m | m in after ::
      if m in before then m else SourceOf(m, credited, tree.renames);
  }

  ghost function SourceOf(member: Member, credited: set<Member>, renames: map<Member, Member>): (origin: Member)
    ensures HasSource(member, credited, renames) ==> RenamedFrom(origin, member, credited, renames)
  {
    if HasSource(member, credited, renames) then
      var origin :| origin in credited && RenamedFrom(origin, member, credited, renames);
      origin
    else member
  }

  lemma {:induction false} InjectionBounds(source: map<Member, Member>, before: set<Member>, after: set<Member>)
    requires ComesFrom(source, before, after)
    ensures |after| <= |before|
    decreases |after|
  {
    if after != {} {
      var m :| m in after;
      var rest := source - {m};
      assert forall n | n in after - {m} :: rest[n] == source[n];
      InjectionBounds(rest, before - {source[m]}, after - {m});
    }
  }

  /** So for a class of paths rule A is not needed: it follows. */
  lemma RenamesImplyNonGrowth(before: set<Member>, after: set<Member>, present: set<Member>, tree: Tree)
    requires RuleB(before, after, present) && RuleC(before, after, present, tree)
    requires Added(before, after) <= tree.tracked
    ensures RuleA(before, after, present)
  {
    var added, credited := Added(before, after), Credited(before, after, present);
    assert forall m | m in added :: HasSource(m, credited, tree.renames);
    var source := map m | m in added :: SourceOf(m, credited, tree.renames);
    InjectionBounds(source, credited, added);
  }

  // ----- chains of steps

  ghost predicate StepPasses(baselines: seq<set<Member>>, presents: seq<set<Member>>, trees: seq<Tree>, i: nat)
    requires i + 1 < |baselines| && |presents| == |trees| == |baselines| - 1
  {
    Passes(baselines[i], baselines[i + 1], presents[i], trees[i])
  }

  ghost predicate OnlyPaths(baselines: seq<set<Member>>, trees: seq<Tree>, i: nat)
    requires i + 1 < |baselines| && |trees| == |baselines| - 1
  {
    Added(baselines[i], baselines[i + 1]) <= trees[i].tracked
  }

  /** The baseline never grows along a chain of passing steps. */
  lemma {:induction false} ChainNeverGrows(baselines: seq<set<Member>>, presents: seq<set<Member>>, trees: seq<Tree>,
                                            j: nat, k: nat)
    requires |presents| == |trees| == |baselines| - 1 && j <= k < |baselines|
    requires forall i: nat | i + 1 < |baselines| :: StepPasses(baselines, presents, trees, i)
    ensures |baselines[k]| <= |baselines[j]|
  {
    if j < k {
      ChainNeverGrows(baselines, presents, trees, j, k - 1);
      assert StepPasses(baselines, presents, trees, k - 1);
      SurplusIsKept(baselines[k - 1], baselines[k], presents[k - 1]);
    }
  }

  /** In a class of paths every member of a later baseline descends from a member of
      the first through unbroken renames, and no two from the same one: nothing was
      ever bought by swapping. */
  lemma {:induction false} ChainTracesBack(baselines: seq<set<Member>>, presents: seq<set<Member>>, trees: seq<Tree>, k: nat)
    returns (source: map<Member, Member>)
    requires |presents| == |trees| == |baselines| - 1 && k < |baselines|
    requires forall i: nat | i + 1 < |baselines| :: StepPasses(baselines, presents, trees, i) && OnlyPaths(baselines, trees, i)
    ensures ComesFrom(source, baselines[0], baselines[k])
    ensures forall m | m in baselines[k] :: Descends(source[m], m, trees[..k])
  {
    if k == 0 {
      source := map m | m in baselines[0] :: m;
    } else {
      var earlier := ChainTracesBack(baselines, presents, trees, k - 1);
      assert StepPasses(baselines, presents, trees, k - 1) && OnlyPaths(baselines, trees, k - 1);
      var last := RenamesTraceBack(baselines[k - 1], baselines[k], presents[k - 1], trees[k - 1]);
      source := Compose(baselines[0], baselines[k - 1], baselines[k], earlier, last);
      forall m | m in baselines[k] ensures Descends(source[m], m, trees[..k]) {
        DescendsOne(source[m], last[m], m, trees, k);
      }
    }
  }

  lemma Compose(first: set<Member>, middle: set<Member>, last: set<Member>, f: map<Member, Member>, g: map<Member, Member>)
    returns (source: map<Member, Member>)
    requires ComesFrom(f, first, middle) && ComesFrom(g, middle, last)
    ensures ComesFrom(source, first, last) && forall m | m in last :: source[m] == f[g[m]]
  {
    source := map m | m in last :: f[g[m]];
  }

  lemma DescendsOne(ancestor: Member, origin: Member, member: Member, trees: seq<Tree>, k: nat)
    requires 0 < k <= |trees|
    requires Descends(ancestor, origin, trees[..k - 1]) && KeptOrRenamed(origin, member, trees[k - 1])
    ensures Descends(ancestor, member, trees[..k])
  {
    assert trees[..k][..k - 1] == trees[..k - 1] && trees[..k][k - 1] == trees[k - 1];
  }

  /** Step by step, kept or renamed, the ancestor becomes the member. */
  ghost predicate Descends(ancestor: Member, member: Member, trees: seq<Tree>)
    decreases |trees|
  {
    if trees == [] then ancestor == member
    else
      var front, last := trees[..|trees| - 1], trees[|trees| - 1];
      exists origin :: KeptOrRenamed(origin, member, last) && Descends(ancestor, origin, front)
  }

  // ----- limits

  /** A class with no baseline before, all classes when the file is new, passes
      exactly when it names nothing. */
  lemma NewClassMustBeEmpty(after: set<Member>, present: set<Member>, tree: Tree)
    ensures Passes({}, after, present, tree) <==> after == {}
  {
    assert Credited({}, after, present) == {};
    assert Added({}, after) == after;
    if |after| == 0 {
      assert after == {};
    }
  }

  /** Without paths the swap stays open: replacing any vanished member by any other
      the tree carries passes exactly when the newcomer is no tracked path or is
      git's rename of the one it replaces. */
  lemma SwapExactly(before: set<Member>, gone: Member, newcomer: Member, present: set<Member>, tree: Tree)
    requires gone in before && gone !in present && newcomer in present && newcomer !in before
    ensures Passes(before, before - {gone} + {newcomer}, present, tree)
            <==> newcomer !in tree.tracked || (gone in tree.renames && tree.renames[gone] == newcomer)
  {
    var after := before - {gone} + {newcomer};
    assert Added(before, after) == {newcomer};
    assert Credited(before, after, present) == {gone};
    assert HasSource(newcomer, {gone}, tree.renames) <==> RenamedFrom(gone, newcomer, {gone}, tree.renames);
    if newcomer in tree.tracked {
      assert newcomer in Added(before, after) * present * tree.tracked;
    }
  }
}
