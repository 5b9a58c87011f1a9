/** Names of day-bounded evidence trials and their chain segments. */
module TrialNames {
  const MAX_CHAIN_SEGMENTS: nat := 6

  /** The chain marker carried inside the class token: nothing for the base
      segment, a dash and one letter for every later segment. */
  function Suffix(segment: nat): string
    requires segment < 26
  {
    if segment == 0 then "" else ['-', ('a' as int + segment) as char]
  }

  function TrialId(cls: string, segment: nat, day: string): string
    requires segment < 26
  {
    "evt-" + cls + Suffix(segment) + "-" + day
  }

  /** Two ids over equally long days agree exactly when the days agree and the
      class tokens, chain marker included, agree. */
  lemma SameIdExactly(c1: string, s1: nat, d1: string, c2: string, s2: nat, d2: string)
    requires s1 < 26 && s2 < 26 && |d1| == |d2|
    ensures TrialId(c1, s1, d1) == TrialId(c2, s2, d2)
            <==> d1 == d2 && c1 + Suffix(s1) == c2 + Suffix(s2)
  {
    var a, b := c1 + Suffix(s1), c2 + Suffix(s2);
    var x, y := TrialId(c1, s1, d1), TrialId(c2, s2, d2);
    assert x == ("evt-" + a) + ("-" + d1) && y == ("evt-" + b) + ("-" + d2);
    if x == y {
      assert |a| == |b|;
      assert x[4..4 + |a|] == a && y[4..4 + |a|] == b;
      assert x[5 + |a|..] == d1 && y[5 + |a|..] == d2;
    }
  }

  /** With dash-free classes no two (class, segment, day) triples share a trial,
      so chaining never spills one class's receipts into another's trial. */
  lemma DistinctTrials(c1: string, s1: nat, d1: string, c2: string, s2: nat, d2: string)
    requires s1 < 26 && s2 < 26 && |d1| == |d2|
    requires '-' !in c1 && '-' !in c2
    ensures TrialId(c1, s1, d1) == TrialId(c2, s2, d2) <==> c1 == c2 && s1 == s2 && d1 == d2
  {
    SameIdExactly(c1, s1, d1, c2, s2, d2);
    DashMarksChain(c1, s1);
    DashMarksChain(c2, s2);
    var a, b := c1 + Suffix(s1), c2 + Suffix(s2);
    if a == b && s1 != 0 {
      assert a[|a| - 1] == ('a' as int + s1) as char && b[|b| - 1] == ('a' as int + s2) as char;
      assert a[..|a| - 2] == c1 && b[..|b| - 2] == c2;
    }
  }

  lemma DashMarksChain(cls: string, segment: nat)
    requires segment < 26 && '-' !in cls
    ensures '-' in cls + Suffix(segment) <==> segment != 0
    ensures segment == 0 ==> cls + Suffix(segment) == cls
  {
    if segment != 0 {
      assert (cls + Suffix(segment))[|cls|] == '-';
    }
  }

  /** The dash-free condition is needed: a class that ends like a chain marker
      shares the trial of a chained segment of another class. */
  lemma DashedClassCollides(day: string)
    ensures TrialId("orgmirror-b", 0, day) == TrialId("orgmirror", 1, day)
  {
    assert "orgmirror-b" + "" == "orgmirror" + "-b";
    SameIdExactly("orgmirror-b", 0, day, "orgmirror", 1, day);
  }
}
