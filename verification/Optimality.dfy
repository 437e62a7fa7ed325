/** Merging the two lightest weights first is optimal: no assignment of code lengths that
    satisfies the Kraft inequality has a smaller total. */
module Optimality {
  import opened Bits
  import opened Sums

  // ---- greedy merging ----

  ghost predicate IsLeast(m: nat, ws: multiset<nat>)
  {
    m in ws && forall x :: x in ws ==> m <= x
  }

  lemma {:induction false} LeastExists(ws: multiset<nat>)
    requires |ws| > 0
    ensures exists m :: IsLeast(m, ws)
    decreases |ws|
  {
    var y :| y in ws;
    var rest := ws - multiset{y};
    assert ws == rest + multiset{y};
    if |rest| == 0 {
      assert rest == multiset{};
      assert IsLeast(y, ws);
    } else {
      LeastExists(rest);
      var m :| IsLeast(m, rest);
      LeastOfTwo(m, y, rest);
    }
  }

  lemma LeastOfTwo(m: nat, y: nat, rest: multiset<nat>)
    requires IsLeast(m, rest)
    ensures IsLeast(if y <= m then y else m, rest + multiset{y})
  {
  }

  ghost function Least(ws: multiset<nat>): (m: nat)
    requires |ws| > 0
    ensures IsLeast(m, ws)
  {
    LeastExists(ws);
    var m :| IsLeast(m, ws);
    m
  }

  lemma LeastUnique(m: nat, ws: multiset<nat>)
    requires IsLeast(m, ws)
    ensures |ws| > 0 && Least(ws) == m
  {
  }

  /** What is left after merging a and b. */
  function MergeTwo(ws: multiset<nat>, a: nat, b: nat): (r: multiset<nat>)
  {
    ws - multiset{a} - multiset{b} + multiset{a + b}
  }

  lemma MergedSmaller(ws: multiset<nat>, a: nat, b: nat)
    requires a in ws && b in ws - multiset{a}
    ensures |MergeTwo(ws, a, b)| == |ws| - 1
  {
    assert |ws - multiset{a}| == |ws| - 1;
  }

  /** Total weight of the internal nodes when the two lightest are always merged. */
  ghost function Greedy(ws: multiset<nat>): (c: nat)
    decreases |ws|
  {
    if |ws| < 2 then 0
    else
      var a := Least(ws);
      assert |ws - multiset{a}| == |ws| - 1;
      var b := Least(ws - multiset{a});
      MergedSmaller(ws, a, b);
      a + b + Greedy(MergeTwo(ws, a, b))
  }

  /** Greedy does not depend on which of equal weights are merged. */
  lemma GreedyStep(ws: multiset<nat>, a: nat, b: nat)
    requires IsLeast(a, ws) && IsLeast(b, ws - multiset{a})
    ensures Greedy(ws) == a + b + Greedy(MergeTwo(ws, a, b))
  {
    assert |ws - multiset{a}| == |ws| - 1;
    LeastUnique(a, ws);
    LeastUnique(b, ws - multiset{a});
  }

  // ---- weighted length ----

  /** Sum of weight times length. */
  function LengthCost(ws: seq<nat>, ls: seq<nat>): (d: nat)
    requires |ws| == |ls|
  {
    if ws == [] then 0 else LengthCost(ws[..|ws| - 1], ls[..|ls| - 1]) + ws[|ws| - 1] * ls[|ls| - 1]
  }

  lemma {:induction false} DotUpdate(ws: seq<nat>, ls: seq<nat>, k: nat, w: nat, l: nat)
    requires |ws| == |ls| && k < |ws|
    ensures LengthCost(ws[k := w], ls[k := l]) == LengthCost(ws, ls) - ws[k] * ls[k] + w * l
  {
    var n := |ws| - 1;
    if k < n {
      DotUpdate(ws[..n], ls[..n], k, w, l);
      assert ws[k := w][..n] == ws[..n][k := w] && ls[k := l][..n] == ls[..n][k := l];
    } else {
      assert ws[k := w][..n] == ws[..n] && ls[k := l][..n] == ls[..n];
    }
  }

  function RemoveAt<T>(s: seq<T>, k: nat): (r: seq<T>)
    requires k < |s|
    ensures |r| == |s| - 1
  {
    s[..k] + s[k + 1..]
  }

  lemma RemoveAtFront<T>(s: seq<T>, k: nat)
    requires k < |s| - 1
    ensures RemoveAt(s, k)[..|s| - 2] == RemoveAt(s[..|s| - 1], k)
    ensures RemoveAt(s, k)[|s| - 2] == s[|s| - 1]
  {
  }

  lemma {:induction false} DotRemove(ws: seq<nat>, ls: seq<nat>, k: nat)
    requires |ws| == |ls| && k < |ws|
    ensures LengthCost(RemoveAt(ws, k), RemoveAt(ls, k)) == LengthCost(ws, ls) - ws[k] * ls[k]
  {
    var n := |ws| - 1;
    if k < n {
      DotRemove(ws[..n], ls[..n], k);
      RemoveAtFront(ws, k);
      RemoveAtFront(ls, k);
    } else {
      assert RemoveAt(ws, k) == ws[..n] && RemoveAt(ls, k) == ls[..n];
    }
  }

  lemma {:induction false} SharesRemove(ls: seq<nat>, k: nat, max: nat)
    requires k < |ls|
    ensures Shares(RemoveAt(ls, k), max) == Shares(ls, max) - Share(ls[k], max)
  {
    var n := |ls| - 1;
    if k < n {
      SharesRemove(ls[..n], k, max);
      RemoveAtFront(ls, k);
    } else {
      assert RemoveAt(ls, k) == ls[..n];
    }
  }

  lemma MultisetRemove(s: seq<nat>, k: nat)
    requires k < |s|
    ensures multiset(RemoveAt(s, k)) == multiset(s) - multiset{s[k]}
  {
    assert s == s[..k] + [s[k]] + s[k + 1..];
  }

  // ---- feasible lengths ----

  /** Code lengths of some prefix code: at least one bit each, Kraft sum at most one. */
  predicate Feasible(ls: seq<nat>, max: nat)
  {
    && (forall i :: 0 <= i < |ls| ==> 1 <= ls[i] <= max)
    && Shares(ls, max) <= Pow2(max)
  }

  lemma {:induction false} SharesRescale(ls: seq<nat>, small: nat, max: nat)
    requires small <= max && forall i :: 0 <= i < |ls| ==> 1 <= ls[i] <= small
    ensures Shares(ls, max) == Shl(Shares(ls, small), max - small)
  {
    var d := max - small;
    if ls == [] {
      ShlZero(d);
    } else {
      var n := |ls| - 1;
      SharesRescale(ls[..n], small, max);
      ShlSum(Shares(ls[..n], small), Share(ls[n], small), d);
      Pow2IsShl(small - ls[n]);
      ShlShl(1, small - ls[n], d);
      Pow2IsShl(max - ls[n]);
      assert small - ls[n] + d == max - ls[n];
    }
  }

  /** The bound on the lengths can be taken to be their maximum. */
  lemma Tighten(ls: seq<nat>, small: nat, max: nat)
    requires Feasible(ls, max) && small <= max && forall i :: 0 <= i < |ls| ==> ls[i] <= small
    ensures Feasible(ls, small)
  {
    SharesRescale(ls, small, max);
    Pow2IsShl(small);
    Pow2IsShl(max);
    ShlShl(1, small, max - small);
    assert small + (max - small) == max;
    if Shares(ls, small) > Pow2(small) {
      ShlMonotone(Pow2(small), Shares(ls, small), max - small);
    }
  }

  lemma {:induction false} SharesAtLeastCount(ls: seq<nat>, max: nat)
    requires forall i :: 0 <= i < |ls| ==> 1 <= ls[i] <= max
    ensures Shares(ls, max) >= |ls|
  {
    if ls != [] {
      SharesAtLeastCount(ls[..|ls| - 1], max);
    }
  }

  lemma {:induction false} SharesEven(ls: seq<nat>, max: nat)
    requires forall i :: 0 <= i < |ls| ==> 1 <= ls[i] < max
    ensures Shares(ls, max) % 2 == 0
  {
    if ls != [] {
      SharesEven(ls[..|ls| - 1], max);
      assert Share(ls[|ls| - 1], max) == 2 * Pow2(max - ls[|ls| - 1] - 1);
    }
  }

  lemma TopShares(max: nat)
    requires max >= 2
    ensures Share(max - 1, max) == 2 && Share(max, max) == 1 && Pow2(max) % 2 == 0
  {
    assert Pow2(max) == 2 * Pow2(max - 1);
    hide Pow2;
    SmallShares(max - (max - 1), max - max);
  }

  lemma SmallShares(one: nat, zero: nat)
    requires one == 1 && zero == 0
    ensures Pow2(one) == 2 && Pow2(zero) == 1
  {
    assert Pow2(0) == 1;
  }

  /** A length that is alone at the maximum can be shortened. */
  lemma Shorten(ls: seq<nat>, p: nat, max: nat)
    requires Feasible(ls, max) && p < |ls| && ls[p] == max && max >= 2
    requires forall i :: 0 <= i < |ls| && i != p ==> ls[i] < max
    ensures Feasible(ls[p := max - 1], max)
  {
    TopShares(max);
    hide Shares, Share, Pow2;
    SharesRemove(ls, p, max);
    SharesEven(RemoveAt(ls, p), max);
    SharesUpdate(ls, p, max - 1, max);
  }

  /** Giving the longer length to the lighter weight does not cost more. */
  lemma Exchange(ws: seq<nat>, ls: seq<nat>, a: nat, p: nat, max: nat)
    requires |ws| == |ls| && a < |ls| && p < |ls| && ws[a] <= ws[p] && ls[a] <= ls[p] && Feasible(ls, max)
    ensures var ls' := ls[a := ls[p]][p := ls[a]];
            Feasible(ls', max) && LengthCost(ws, ls') <= LengthCost(ws, ls)
  {
    hide LengthCost, Shares, Share;
    var mid := ls[a := ls[p]];
    SharesUpdate(ls, a, ls[p], max);
    SharesUpdate(mid, p, ls[a], max);
    DotUpdate(ws, ls, a, ws[a], ls[p]);
    DotUpdate(ws, mid, p, ws[p], ls[a]);
    assert ws[a := ws[a]] == ws && ws[p := ws[p]] == ws;
    if a != p {
      Rearrange(ws[a], ws[p], ls[a], ls[p]);
    } else {
      assert mid == ls && mid[p := ls[a]] == ls;
    }
  }

  lemma Rearrange(wa: nat, wp: nat, la: nat, lp: nat)
    requires wa <= wp && la <= lp
    ensures wa * lp + wp * la <= wa * la + wp * lp
  {
    assert (wp - wa) * (lp - la) >= 0;
  }

  function SumLens(ls: seq<nat>): (n: nat)
  {
    if ls == [] then 0 else SumLens(ls[..|ls| - 1]) + ls[|ls| - 1]
  }

  lemma {:induction false} SumLensDown(ls: seq<nat>, p: nat)
    requires p < |ls| && ls[p] > 0
    ensures SumLens(ls[p := ls[p] - 1]) < SumLens(ls)
  {
    var n := |ls| - 1;
    if p < n {
      SumLensDown(ls[..n], p);
      assert ls[p := ls[p] - 1][..n] == ls[..n][p := ls[p] - 1];
    } else {
      assert ls[p := ls[p] - 1][..n] == ls[..n];
    }
  }

  lemma {:induction false} ArgMax(ls: seq<nat>) returns (p: nat)
    requires ls != []
    ensures p < |ls| && forall i :: 0 <= i < |ls| ==> ls[i] <= ls[p]
  {
    if |ls| == 1 {
      p := 0;
    } else {
      p := ArgMax(ls[..|ls| - 1]);
      if ls[|ls| - 1] > ls[p] {
        p := |ls| - 1;
      }
    }
  }

  lemma {:induction false} ArgMin(ws: seq<nat>, skip: int) returns (p: nat)
    requires |ws| >= 2 || (|ws| == 1 && skip != 0)
    ensures p < |ws| && p != skip && forall i :: 0 <= i < |ws| && i != skip ==> ws[p] <= ws[i]
  {
    var n := |ws| - 1;
    if n >= 2 || (n == 1 && skip != 0) {
      p := ArgMin(ws[..n], skip);
      if n != skip && ws[n] < ws[p] {
        p := n;
      }
    } else {
      p := n;
    }
  }

  lemma MergeCost(ws: seq<nat>, ls: seq<nat>, a: nat, b: nat, max: nat)
    requires |ws| == |ls| && a < |ls| && b < |ls| && a != b && ls[a] == ls[b] == max >= 2
    ensures LengthCost(ws, ls) == LengthCost(RemoveAt(ws[a := ws[a] + ws[b]], b), RemoveAt(ls[a := max - 1], b)) + ws[a] + ws[b]
  {
    hide LengthCost;
    DotUpdate(ws, ls, a, ws[a] + ws[b], max - 1);
    DotRemove(ws[a := ws[a] + ws[b]], ls[a := max - 1], b);
    MergedCost(ws[a], ws[b], max);
  }

  lemma MergeFeasible(ls: seq<nat>, a: nat, b: nat, max: nat)
    requires a < |ls| && b < |ls| && a != b && ls[a] == ls[b] == max >= 2 && Feasible(ls, max)
    ensures Feasible(RemoveAt(ls[a := max - 1], b), max)
  {
    hide Shares, Share;
    ShareTop(max);
    SharesUpdate(ls, a, max - 1, max);
    SharesRemove(ls[a := max - 1], b, max);
  }

  lemma MergeWeights(ws: seq<nat>, a: nat, b: nat)
    requires a < |ws| && b < |ws| && a != b
    ensures multiset(RemoveAt(ws[a := ws[a] + ws[b]], b)) == MergeTwo(multiset(ws), ws[a], ws[b])
  {
    var w1 := ws[a := ws[a] + ws[b]];
    MultisetRemove(w1, b);
    assert multiset(w1) == multiset(ws) - multiset{ws[a]} + multiset{ws[a] + ws[b]};
    PairIn(ws, a, b);
  }

  /** With the two lightest weights at the maximal length, merge them into one. */
  lemma MergeDown(ws: seq<nat>, ls: seq<nat>, a: nat, b: nat, max: nat) returns (ws': seq<nat>, ls': seq<nat>)
    requires |ws| == |ls| && a < |ls| && b < |ls| && a != b && ls[a] == ls[b] == max >= 2 && Feasible(ls, max)
    ensures |ws'| == |ls'| == |ws| - 1 && Feasible(ls', max)
    ensures LengthCost(ws, ls) == LengthCost(ws', ls') + ws[a] + ws[b]
    ensures multiset(ws') == MergeTwo(multiset(ws), ws[a], ws[b])
  {
    hide LengthCost, Feasible, MergeTwo;
    ws', ls' := RemoveAt(ws[a := ws[a] + ws[b]], b), RemoveAt(ls[a := max - 1], b);
    MergeCost(ws, ls, a, b, max);
    MergeFeasible(ls, a, b, max);
    MergeWeights(ws, a, b);
  }

  lemma ShareTop(max: nat)
    requires max >= 2
    ensures Share(max - 1, max) == 2 && Share(max, max) == 1
  {
    assert Pow2(1) == 2;
  }

  lemma PairIn(ws: seq<nat>, a: nat, b: nat)
    requires a < |ws| && b < |ws| && a != b
    ensures ws[b] in multiset(ws) - multiset{ws[a]}
  {
    MultisetRemove(ws, a);
    var r := RemoveAt(ws, a);
    assert ws[b] == r[if b < a then b else b - 1];
  }

  lemma MergedCost(wa: nat, wb: nat, max: nat)
    requires max >= 1
    ensures wa * max + wb * max == (wa + wb) * (max - 1) + wa + wb
  {
  }

  /** The weights at a and b are the two least. */
  lemma TwoLeast(ws: seq<nat>, a: nat, b: nat)
    requires a < |ws| && b < |ws| && a != b
    requires forall i :: 0 <= i < |ws| ==> ws[a] <= ws[i]
    requires forall i :: 0 <= i < |ws| && i != a ==> ws[b] <= ws[i]
    ensures Greedy(multiset(ws)) == ws[a] + ws[b] + Greedy(MergeTwo(multiset(ws), ws[a], ws[b]))
  {
    hide Greedy, MergeTwo;
    PairIn(ws, a, b);
    MultisetRemove(ws, a);
    var r := RemoveAt(ws, a);
    forall x | x in multiset(r) ensures ws[b] <= x {
      var i :| 0 <= i < |r| && r[i] == x;
      assert x == ws[if i < a then i else i + 1];
    }
    GreedyStep(multiset(ws), ws[a], ws[b]);
  }

  lemma SingleOptimal(ws: seq<nat>)
    requires |ws| <= 1
    ensures Greedy(multiset(ws)) == 0
  {
    assert |multiset(ws)| <= 1;
  }

  lemma PairOptimal(ws: seq<nat>, ls: seq<nat>)
    requires |ws| == |ls| == 2 && ls[0] >= 1 && ls[1] >= 1
    ensures LengthCost(ws, ls) >= Greedy(multiset(ws))
  {
    hide Greedy, LengthCost;
    var a, b := if ws[0] <= ws[1] then 0 else 1, if ws[0] <= ws[1] then 1 else 0;
    TwoLeast(ws, a, b);
    GreedyOfOne(MergeTwo(multiset(ws), ws[a], ws[b]));
    DotPair(ws, ls);
  }

  lemma GreedyOfOne(ws: multiset<nat>)
    requires |ws| < 2
    ensures Greedy(ws) == 0
  {
  }

  lemma DotPair(ws: seq<nat>, ls: seq<nat>)
    requires |ws| == |ls| == 2 && ls[0] >= 1 && ls[1] >= 1
    ensures LengthCost(ws, ls) >= ws[0] + ws[1]
  {
    assert ws[..1][..0] == [] && ls[..1][..0] == [];
    assert ws[0] * ls[0] >= ws[0] && ws[1] * ls[1] >= ws[1];
  }

  /** Any lengths satisfying the Kraft inequality cost at least as much as greedy merging. */
  lemma {:induction false} GreedyIsLeast(ws: seq<nat>, ls: seq<nat>, max: nat)
    requires |ws| == |ls| && Feasible(ls, max)
    ensures LengthCost(ws, ls) >= Greedy(multiset(ws))
    decreases |ws|, SumLens(ls)
  {
    hide LengthCost, Greedy, Shares, Share, SumLens;
    if |ws| <= 1 {
      SingleOptimal(ws);
      return;
    }
    if |ws| == 2 {
      PairOptimal(ws, ls);
      return;
    }
    var p := ArgMax(ls);
    var top := ls[p];
    Tighten(ls, top, max);
    TopAtLeastTwo(ls, top);
    if forall i :: 0 <= i < |ls| && i != p ==> ls[i] < top {
      Shorten(ls, p, top);
      SumLensDown(ls, p);
      GreedyIsLeast(ws, ls[p := top - 1], top);
      ShorterCostsLess(ws, ls, p);
      return;
    }
    var q :| 0 <= q < |ls| && q != p && ls[q] >= top;
    var a := ArgMin(ws, -1);
    var b := ArgMin(ws, a);
    var ls1 := ls[a := ls[p]][p := ls[a]];
    Exchange(ws, ls, a, p, top);
    var q1 := if q == a then p else q;
    var ls2 := ls1[b := ls1[q1]][q1 := ls1[b]];
    Exchange(ws, ls1, b, q1, top);
    var ws', ls' := MergeDown(ws, ls2, a, b, top);
    GreedyIsLeast(ws', ls', top);
    TwoLeast(ws, a, b);
  }

  lemma TopAtLeastTwo(ls: seq<nat>, top: nat)
    requires Feasible(ls, top) && |ls| >= 3
    ensures top >= 2
  {
    SharesAtLeastCount(ls, top);
    assert Pow2(1) == 2 && Pow2(0) == 1;
  }

  lemma ShorterCostsLess(ws: seq<nat>, ls: seq<nat>, p: nat)
    requires |ws| == |ls| && p < |ls| && ls[p] > 0
    ensures LengthCost(ws, ls[p := ls[p] - 1]) <= LengthCost(ws, ls)
  {
    DotUpdate(ws, ls, p, ws[p], ls[p] - 1);
    assert ws[p := ws[p]] == ws;
    assert ws[p] * (ls[p] - 1) <= ws[p] * ls[p];
  }
}
