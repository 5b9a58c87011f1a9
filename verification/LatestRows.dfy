/** Stable timestamp sort followed by last-wins, and the row it selects: the
    latest surviving row of each trial. Timestamps are strings and compare as
    strings do, character by character. */
module LatestRows {
  import opened Options

  datatype Row<+T> = Row(trial: string, ts: string, body: T)

  predicate Before(a: string, b: string) {
    b != "" && (a == "" || a[0] < b[0] || (a[0] == b[0] && Before(a[1..], b[1..])))
  }

  /** The two agree up to `k`, where the first ends or has the smaller character. */
  predicate FirstDiffers(a: string, b: string, k: nat) {
    k <= |a| && k < |b| && a[..k] == b[..k] && (k == |a| || a[k] < b[k])
  }

  lemma {:induction false} BeforeExactly(a: string, b: string)
    ensures Before(a, b) <==> exists k: nat :: FirstDiffers(a, b, k)
  {
    if a == "" {
      assert b != "" ==> FirstDiffers(a, b, 0);
    } else if b != "" {
      BeforeExactly(a[1..], b[1..]);
      if a[0] < b[0] {
        assert FirstDiffers(a, b, 0);
      }
      if a[0] == b[0] {
        forall k: nat ensures FirstDiffers(a, b, k + 1) <==> FirstDiffers(a[1..], b[1..], k) {
          StepIn(a, b, k);
        }
      }
      if k: nat :| FirstDiffers(a, b, k) {
        if k > 0 {
          assert a[0] == a[..k][0] == b[..k][0] == b[0];
          assert FirstDiffers(a[1..], b[1..], k - 1) by { StepIn(a, b, k - 1); }
        }
      }
    }
  }

  lemma StepIn(a: string, b: string, k: nat)
    requires a != "" && b != "" && a[0] == b[0]
    ensures FirstDiffers(a, b, k + 1) <==> FirstDiffers(a[1..], b[1..], k)
  {
    if k + 1 <= |a| && k + 1 <= |b| {
      assert a[..k + 1] == [a[0]] + a[1..][..k];
      assert b[..k + 1] == [b[0]] + b[1..][..k];
      assert a[..k + 1][1..] == a[1..][..k] && b[..k + 1][1..] == b[1..][..k];
    }
  }

  lemma {:induction false} BeforeIsTransitive(a: string, b: string, c: string)
    requires !Before(b, a) && !Before(c, b)
    ensures !Before(c, a)
  {
    if a != "" && b != "" && c != "" {
      if !Before(b[1..], a[1..]) && !Before(c[1..], b[1..]) {
        BeforeIsTransitive(a[1..], b[1..], c[1..]);
      }
    }
  }

  lemma {:induction false} BeforeIsTotal(a: string, b: string)
    ensures !(Before(a, b) && Before(b, a))
    ensures a != b ==> Before(a, b) || Before(b, a)
    ensures !Before(a, a)
  {
    if a != "" && b != "" {
      BeforeIsTotal(a[1..], b[1..]);
      assert a == [a[0]] + a[1..] && b == [b[0]] + b[1..];
    }
    if a != "" {
      BeforeIsTotal(a[1..], a[1..]);
    }
  }

  // ----- distinct strings in order

  ghost predicate InOrder(s: seq<string>) {
    forall j, k | 0 <= j < k < |s| :: Before(s[j], s[k])
  }

  function Place(s: seq<string>, x: string): seq<string>
    decreases |s|
  {
    if s != [] && Before(x, s[|s| - 1]) then Place(s[..|s| - 1], x) + [s[|s| - 1]] else s + [x]
  }

  lemma {:induction false} PlaceHolds(s: seq<string>, x: string)
    ensures forall y :: y in Place(s, x) <==> y in s || y == x
    decreases |s|
  {
    if s != [] && Before(x, s[|s| - 1]) {
      PlaceHolds(s[..|s| - 1], x);
      assert s == s[..|s| - 1] + [s[|s| - 1]];
    }
  }

  lemma BeforeChains(a: string, b: string, c: string)
    requires Before(a, b) && Before(b, c)
    ensures Before(a, c)
  {
    BeforeIsTotal(a, b);
    BeforeIsTotal(b, c);
    BeforeIsTotal(a, c);
    BeforeIsTransitive(a, b, c);
  }

  lemma {:induction false} PlaceKeepsOrder(s: seq<string>, x: string)
    requires InOrder(s) && x !in s
    ensures InOrder(Place(s, x))
    decreases |s|
  {
    if s != [] {
      var front, last := s[..|s| - 1], s[|s| - 1];
      BeforeIsTotal(x, last);
      if Before(x, last) {
        PlaceKeepsOrder(front, x);
        PlaceHolds(front, x);
        var r := Place(front, x);
        forall k | 0 <= k < |r| ensures Before(r[k], last) {
          assert r[k] in r;
          if r[k] != x {
            var j :| 0 <= j < |front| && front[j] == r[k];
            assert s[j] == r[k];
          }
        }
      } else {
        forall j | 0 <= j < |s| ensures Before(s[j], x) {
          if j < |s| - 1 {
            BeforeChains(s[j], last, x);
          }
        }
      }
    }
  }

  method SortStrings(keys: set<string>) returns (sorted: seq<string>)
    ensures InOrder(sorted) && forall x :: x in sorted <==> x in keys
  {
    sorted := [];
    var rest := keys;
    while rest != {}
      invariant rest <= keys && InOrder(sorted)
      invariant forall x :: x in sorted <==> x in keys && x !in rest
    {
      var x :| x in rest;
      PlaceKeepsOrder(sorted, x);
      PlaceHolds(sorted, x);
      sorted := Place(sorted, x);
      rest := rest - {x};
    }
  }

  /** Two ordered lists of the same strings are the same list. */
  lemma {:induction false} OrderedIsUnique(s: seq<string>, r: seq<string>)
    requires InOrder(s) && InOrder(r) && forall x :: x in s <==> x in r
    ensures s == r
    decreases |s|
  {
    assert s != [] ==> s[0] in r;
    assert r != [] ==> r[0] in s;
    if s != [] {
      var a, b := s[|s| - 1], r[|r| - 1];
      assert a in r && b in s;
      LastIsLast(s, b);
      LastIsLast(r, a);
      BeforeIsTotal(a, b);
      assert a == b;
      var f, g := s[..|s| - 1], r[..|r| - 1];
      FrontHolds(s, f);
      FrontHolds(r, g);
      OrderedIsUnique(f, g);
      assert s == f + [a] && r == g + [b];
    }
  }

  lemma LastIsLast(s: seq<string>, x: string)
    requires InOrder(s) && x in s
    ensures x == s[|s| - 1] || Before(x, s[|s| - 1])
  {
  }

  lemma FrontHolds(s: seq<string>, front: seq<string>)
    requires InOrder(s) && s != [] && front == s[..|s| - 1]
    ensures InOrder(front) && forall x :: x in front <==> x in s && x != s[|s| - 1]
  {
    var last := s[|s| - 1];
    BeforeIsTotal(last, last);
    assert s == front + [last];
    forall x | x in front ensures x != last {
      var k :| 0 <= k < |front| && front[k] == x;
      assert Before(s[k], last);
    }
  }

  // ----- the stable sort, as an order on row positions

  predicate Orders<T>(order: seq<nat>, rows: seq<Row<T>>) {
    forall k | 0 <= k < |order| :: order[k] < |rows|
  }

  ghost predicate Ascending<T>(order: seq<nat>, rows: seq<Row<T>>)
    requires Orders(order, rows)
  {
    forall j, k | 0 <= j < k < |order| :: !Before(rows[order[k]].ts, rows[order[j]].ts)
  }

  /** Position `i` goes after every position whose timestamp is not later. */
  function Insert<T>(order: seq<nat>, i: nat, rows: seq<Row<T>>): (r: seq<nat>)
    requires Orders(order, rows) && i < |rows|
    ensures Orders(r, rows) && |r| == |order| + 1
    decreases |order|
  {
    if order != [] && Before(rows[i].ts, rows[order[|order| - 1]].ts)
    then Insert(order[..|order| - 1], i, rows) + [order[|order| - 1]]
    else order + [i]
  }

  /** Positions of the first `n` rows, earliest timestamp first, equal ones in input order. */
  function SortOrder<T>(rows: seq<Row<T>>, n: nat): (order: seq<nat>)
    requires n <= |rows|
    ensures Orders(order, rows) && |order| == n
  {
    if n == 0 then [] else Insert(SortOrder(rows, n - 1), n - 1, rows)
  }

  lemma {:induction false} InsertHolds<T>(order: seq<nat>, i: nat, rows: seq<Row<T>>)
    requires Orders(order, rows) && i < |rows|
    ensures forall x :: x in Insert(order, i, rows) <==> x in order || x == i
    decreases |order|
  {
    if order != [] && Before(rows[i].ts, rows[order[|order| - 1]].ts) {
      InsertHolds(order[..|order| - 1], i, rows);
      assert order == order[..|order| - 1] + [order[|order| - 1]];
    }
  }

  /** The sort is a permutation of the positions. */
  lemma {:induction false} SortHolds<T>(rows: seq<Row<T>>, n: nat)
    requires n <= |rows|
    ensures forall x: nat :: x in SortOrder(rows, n) <==> x < n
  {
    if n > 0 {
      SortHolds(rows, n - 1);
      InsertHolds(SortOrder(rows, n - 1), n - 1, rows);
    }
  }

  lemma {:induction false} InsertKeepsAscending<T>(order: seq<nat>, i: nat, rows: seq<Row<T>>)
    requires Orders(order, rows) && i < |rows| && Ascending(order, rows)
    ensures Ascending(Insert(order, i, rows), rows)
    decreases |order|
  {
    if order != [] {
      var last, front := order[|order| - 1], order[..|order| - 1];
      BeforeIsTotal(rows[i].ts, rows[last].ts);
      if Before(rows[i].ts, rows[last].ts) {
        InsertKeepsAscending(front, i, rows);
        InsertHolds(front, i, rows);
        var r := Insert(front, i, rows);
        forall k | 0 <= k < |r| ensures !Before(rows[last].ts, rows[r[k]].ts) {
          assert r[k] in r;
          if r[k] != i {
            var j :| 0 <= j < |front| && front[j] == r[k];
            assert order[j] == r[k];
          }
        }
      } else {
        forall k | 0 <= k < |order| ensures !Before(rows[i].ts, rows[order[k]].ts) {
          BeforeIsTotal(rows[last].ts, rows[last].ts);
          BeforeIsTransitive(rows[order[k]].ts, rows[last].ts, rows[i].ts);
        }
      }
    }
  }

  lemma {:induction false} SortIsAscending<T>(rows: seq<Row<T>>, n: nat)
    requires n <= |rows|
    ensures Ascending(SortOrder(rows, n), rows)
  {
    if n > 0 {
      SortIsAscending(rows, n - 1);
      InsertKeepsAscending(SortOrder(rows, n - 1), n - 1, rows);
    }
  }

  // ----- last wins

  /** Last position in the order holding a surviving row of the trial. */
  function LastIn<T>(order: seq<nat>, rows: seq<Row<T>>, survives: Row<T> -> bool, trial: string): (i: Option<nat>)
    requires Orders(order, rows)
    ensures i.Some? ==> i.value in order && survives(rows[i.value]) && rows[i.value].trial == trial
    ensures i.None? ==> forall x | x in order :: !(survives(rows[x]) && rows[x].trial == trial)
    decreases |order|
  {
    if order == [] then None
    else
      var last := order[|order| - 1];
      if survives(rows[last]) && rows[last].trial == trial then Some(last)
      else LastIn(order[..|order| - 1], rows, survives, trial)
  }

  /** Latest surviving row of the trial, the last of them in the input when
      timestamps tie. */
  function Latest<T>(rows: seq<Row<T>>, survives: Row<T> -> bool, trial: string): Option<Row<T>>
    decreases |rows|
  {
    if rows == [] then None
    else
      var before, last := Latest(rows[..|rows| - 1], survives, trial), rows[|rows| - 1];
      if survives(last) && last.trial == trial && (before.None? || !Before(last.ts, before.value.ts)) then Some(last)
      else before
  }

  /** Sorting stably and letting the last surviving row win selects the latest. */
  lemma {:induction false} SortedLastIsLatest<T>(rows: seq<Row<T>>, survives: Row<T> -> bool, trial: string, n: nat)
    requires n <= |rows|
    ensures var i := LastIn(SortOrder(rows, n), rows, survives, trial);
            Latest(rows[..n], survives, trial) == if i.None? then None else Some(rows[i.value])
  {
    if n > 0 {
      SortedLastIsLatest(rows, survives, trial, n - 1);
      SortIsAscending(rows, n - 1);
      LastAfterInsert(SortOrder(rows, n - 1), n - 1, rows, survives, trial);
      LatestNext(rows, n - 1, survives, trial);
    }
  }

  lemma LatestNext<T>(rows: seq<Row<T>>, n: nat, survives: Row<T> -> bool, trial: string)
    requires n < |rows|
    ensures var before, last := Latest(rows[..n], survives, trial), rows[n];
            Latest(rows[..n + 1], survives, trial)
            == if survives(last) && last.trial == trial && (before.None? || !Before(last.ts, before.value.ts)) then Some(last)
               else before
  {
    assert rows[..n + 1][..n] == rows[..n];
  }

  /** Nothing in an ascending order is later than what does not come before its end. */
  lemma NoneLater<T>(order: seq<nat>, i: nat, rows: seq<Row<T>>, x: nat)
    requires Orders(order, rows) && Ascending(order, rows) && order != [] && i < |rows| && x in order
    requires !Before(rows[i].ts, rows[order[|order| - 1]].ts)
    ensures !Before(rows[i].ts, rows[x].ts)
  {
    var last := order[|order| - 1];
    var k :| 0 <= k < |order| && order[k] == x;
    BeforeIsTotal(rows[last].ts, rows[last].ts);
    BeforeIsTransitive(rows[x].ts, rows[last].ts, rows[i].ts);
  }

  lemma {:induction false} LastAfterInsert<T>(order: seq<nat>, i: nat, rows: seq<Row<T>>,
                                              survives: Row<T> -> bool, trial: string)
    requires Orders(order, rows) && i < |rows| && Ascending(order, rows)
    ensures var before := LastIn(order, rows, survives, trial);
            LastIn(Insert(order, i, rows), rows, survives, trial)
            == if survives(rows[i]) && rows[i].trial == trial
                  && (before.None? || !Before(rows[i].ts, rows[before.value].ts)) then Some(i) else before
    decreases |order|
  {
    if order != [] {
      var last, front := order[|order| - 1], order[..|order| - 1];
      if Before(rows[i].ts, rows[last].ts) {
        LastAfterInsert(front, i, rows, survives, trial);
        assert (Insert(front, i, rows) + [last])[..|front| + 1] == Insert(front, i, rows);
      } else {
        assert (order + [i])[..|order|] == order;
        var before := LastIn(order, rows, survives, trial);
        if before.Some? {
          NoneLater(order, i, rows, before.value);
        }
      }
    }
  }

  /** What "latest" means: no surviving row of the trial is later, and none after
      it in the input is as late. */
  ghost predicate IsLatest<T>(rows: seq<Row<T>>, survives: Row<T> -> bool, trial: string, i: nat) {
    && i < |rows| && survives(rows[i]) && rows[i].trial == trial
    && forall j | 0 <= j < |rows| && survives(rows[j]) && rows[j].trial == trial ::
         !Before(rows[i].ts, rows[j].ts) && (j > i ==> Before(rows[j].ts, rows[i].ts))
  }

  lemma LaterTakesOver<T>(rows: seq<Row<T>>, survives: Row<T> -> bool, trial: string, n: nat, i: nat)
    requires n == |rows| - 1 && survives(rows[n]) && rows[n].trial == trial
    requires IsLatest(rows[..n], survives, trial, i) && !Before(rows[n].ts, rows[i].ts)
    ensures IsLatest(rows, survives, trial, n)
  {
    BeforeIsTotal(rows[n].ts, rows[n].ts);
    forall j | 0 <= j < n && survives(rows[j]) && rows[j].trial == trial ensures !Before(rows[n].ts, rows[j].ts) {
      assert rows[..n][j] == rows[j];
      BeforeIsTransitive(rows[j].ts, rows[i].ts, rows[n].ts);
    }
  }

  lemma EarlierStays<T>(rows: seq<Row<T>>, survives: Row<T> -> bool, trial: string, n: nat, i: nat)
    requires n == |rows| - 1 && IsLatest(rows[..n], survives, trial, i)
    requires !(survives(rows[n]) && rows[n].trial == trial) || Before(rows[n].ts, rows[i].ts)
    ensures IsLatest(rows, survives, trial, i)
  {
    assert forall j | 0 <= j < n :: rows[..n][j] == rows[j];
    BeforeIsTotal(rows[n].ts, rows[i].ts);
  }

  lemma {:induction false} LatestExactly<T>(rows: seq<Row<T>>, survives: Row<T> -> bool, trial: string)
    ensures Latest(rows, survives, trial).Some? <==>
              exists j | 0 <= j < |rows| :: survives(rows[j]) && rows[j].trial == trial
    ensures Latest(rows, survives, trial).Some? ==>
              exists i | 0 <= i < |rows| ::
                Latest(rows, survives, trial) == Some(rows[i]) && IsLatest(rows, survives, trial, i)
    decreases |rows|
  {
    if rows != [] {
      var n := |rows| - 1;
      var front := rows[..n];
      LatestExactly(front, survives, trial);
      assert forall j | 0 <= j < n :: front[j] == rows[j];
      var before := Latest(front, survives, trial);
      if before.Some? {
        var i :| 0 <= i < n && before == Some(front[i]) && IsLatest(front, survives, trial, i);
        if survives(rows[n]) && rows[n].trial == trial && !Before(rows[n].ts, rows[i].ts) {
          LaterTakesOver(rows, survives, trial, n, i);
        } else {
          EarlierStays(rows, survives, trial, n, i);
        }
      } else if survives(rows[n]) && rows[n].trial == trial {
        BeforeIsTotal(rows[n].ts, rows[n].ts);
        assert IsLatest(rows, survives, trial, n);
      }
    }
  }

  function Survivors<T>(rows: seq<Row<T>>, survives: Row<T> -> bool): seq<Row<T>>
    decreases |rows|
  {
    if rows == [] then []
    else
      Survivors(rows[..|rows| - 1], survives) + if survives(rows[|rows| - 1]) then [rows[|rows| - 1]] else []
  }

  /** Rows that do not survive neither win nor shadow: deleting them all changes nothing. */
  lemma {:induction false} SurvivorsDecide<T>(rows: seq<Row<T>>, survives: Row<T> -> bool, trial: string)
    ensures Latest(rows, survives, trial) == Latest(Survivors(rows, survives), survives, trial)
    decreases |rows|
  {
    if rows != [] {
      var front, last := rows[..|rows| - 1], rows[|rows| - 1];
      SurvivorsDecide(front, survives, trial);
      if survives(last) {
        assert Survivors(rows, survives)[..|Survivors(front, survives)|] == Survivors(front, survives);
      } else {
        assert Survivors(rows, survives) == Survivors(front, survives);
      }
    }
  }
}
