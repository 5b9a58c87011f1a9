/** Counting by positions. */
module Counting {
  ghost function Positions<T(!new)>(s: seq<T>, holds: T -> bool): set<nat> {
    set i: nat | i < |s| && holds(s[i])
  }

  lemma PositionsNext<T(!new)>(s: seq<T>, x: T, holds: T -> bool)
    ensures |Positions(s + [x], holds)| == |Positions(s, holds)| + if holds(x) then 1 else 0
  {
    var more := s + [x];
    forall i: nat ensures i in Positions(more, holds) <==> i in Positions(s, holds) || (i == |s| && holds(x)) {
      assert i < |s| ==> more[i] == s[i];
    }
    OneMorePosition(Positions(s, holds), Positions(more, holds), |s|, holds(x));
  }

  lemma OneMorePosition(before: set<nat>, after: set<nat>, next: nat, added: bool)
    requires next !in before && forall i: nat :: i in after <==> i in before || (i == next && added)
    ensures |after| == |before| + if added then 1 else 0
  {
    assert after == if added then before + {next} else before;
  }
}
