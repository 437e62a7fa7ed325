/** build_tree as a whole: what the lengths, codes and bit counts it leaves behind mean. */
module HuffmanCode {
  import opened Bits
  import opened Inflate
  import opened Sums
  import opened Codes
  import opened BitLengths
  import opened CountRepair
  import opened LengthRepair
  import opened TreeCost
  import opened Optimality
  import opened Forest
  import opened Heap
  import opened BuildTree

  // ---- optimality over symbols ----

  /** Lengths of a prefix code for the symbols of non-zero frequency. */
  ghost predicate CodeFor(freq: seq<nat>, lens: seq<nat>, max: nat)
  {
    && |lens| <= |freq|
    && (forall i :: 0 <= i < |lens| ==> if freq[i] > 0 then 1 <= lens[i] <= max else lens[i] == 0)
    && Shares(lens, max) <= Pow2(max)
  }

  /** No prefix code for the same symbols takes fewer bits in total. */
  ghost predicate Optimal(freq: seq<nat>, lens: seq<nat>)
  {
    && |lens| <= |freq|
    && forall other: seq<nat>, max: nat :: |other| == |lens| && CodeFor(freq, other, max) ==>
         Cost(freq, lens, Zeros(|lens|)) <= Cost(freq, other, Zeros(|lens|))
  }

  /** The entries of xs at used symbols. */
  function Pick(freq: seq<nat>, xs: seq<nat>, n: nat): (r: seq<nat>)
    requires n <= |freq| && n <= |xs|
  {
    if n == 0 then [] else Pick(freq, xs, n - 1) + (if freq[n - 1] > 0 then [xs[n - 1]] else [])
  }

  lemma {:induction false} PickSame(freq: seq<nat>, xs: seq<nat>, n: nat)
    requires n <= |freq| && n <= |xs|
    ensures |Pick(freq, xs, n)| == |Pick(freq, freq, n)|
    ensures forall y :: y in Pick(freq, xs, n) ==> exists i :: 0 <= i < n && freq[i] > 0 && xs[i] == y
  {
    if n > 0 {
      PickSame(freq, xs, n - 1);
    }
  }

  lemma DotSnoc(ws: seq<nat>, ls: seq<nat>, w: nat, l: nat)
    requires |ws| == |ls|
    ensures LengthCost(ws + [w], ls + [l]) == LengthCost(ws, ls) + Bill(w, l)
  {
    assert (ws + [w])[..|ws|] == ws && (ls + [l])[..|ls|] == ls;
  }

  lemma SharesSnoc(ls: seq<nat>, l: nat, max: nat)
    ensures Shares(ls + [l], max) == Shares(ls, max) + Share(l, max)
  {
    assert (ls + [l])[..|ls|] == ls;
  }

  lemma CostSnoc(freq: seq<nat>, lens: seq<nat>, n: nat)
    requires 0 < n <= |lens| <= |freq|
    ensures Cost(freq, lens[..n], Zeros(n))
         == Cost(freq, lens[..n - 1], Zeros(n - 1)) + (if lens[n - 1] == 0 then 0 else Bill(freq[n - 1], lens[n - 1]))
  {
    hide Bill;
    assert lens[..n][..n - 1] == lens[..n - 1];
    CostExtra(freq, lens[..n - 1], Zeros(n - 1), Zeros(n));
  }

  lemma {:induction false} PickCost(freq: seq<nat>, lens: seq<nat>, n: nat)
    requires n <= |lens| <= |freq| && forall i :: 0 <= i < |lens| ==> (freq[i] > 0 <==> lens[i] > 0)
    ensures |Pick(freq, freq, n)| == |Pick(freq, lens, n)|
    ensures LengthCost(Pick(freq, freq, n), Pick(freq, lens, n)) == Cost(freq, lens[..n], Zeros(n))
  {
    PickSame(freq, lens, n);
    if n == 0 {
      DotNone();
    } else {
      hide LengthCost, Bill, Cost;
      PickCost(freq, lens, n - 1);
      CostSnoc(freq, lens, n);
      if freq[n - 1] > 0 {
        DotSnoc(Pick(freq, freq, n - 1), Pick(freq, lens, n - 1), freq[n - 1], lens[n - 1]);
      } else {
        assert Pick(freq, freq, n) == Pick(freq, freq, n - 1) && Pick(freq, lens, n) == Pick(freq, lens, n - 1);
      }
    }
  }

  lemma {:induction false} PickShares(freq: seq<nat>, lens: seq<nat>, n: nat, max: nat)
    requires n <= |lens| <= |freq| && forall i :: 0 <= i < |lens| ==> (freq[i] > 0 <==> lens[i] > 0)
    ensures Shares(Pick(freq, lens, n), max) == Shares(lens[..n], max)
  {
    if n > 0 {
      hide Share;
      PickShares(freq, lens, n - 1, max);
      assert lens[..n][..n - 1] == lens[..n - 1];
      if freq[n - 1] > 0 {
        SharesSnoc(Pick(freq, lens, n - 1), lens[n - 1], max);
      } else {
        ShareZero(max);
        assert Pick(freq, lens, n) == Pick(freq, lens, n - 1);
      }
    }
  }

  lemma DotNone()
    ensures LengthCost([], []) == 0
  {
  }

  lemma {:induction false} CostExtra(freq: seq<nat>, lens: seq<nat>, a: seq<nat>, b: seq<nat>)
    requires |lens| <= |freq| && |lens| <= |a| && |lens| <= |b| && forall i :: 0 <= i < |lens| ==> a[i] == b[i]
    ensures Cost(freq, lens, a) == Cost(freq, lens, b)
    decreases |lens|
  {
    if lens != [] {
      CostExtra(freq, lens[..|lens| - 1], a, b);
    }
  }

  lemma {:induction false} PickWeights(freq: seq<nat>, n: nat)
    requires n <= |freq|
    ensures Below(LeafSet(freq, n), |freq|) && multiset(Pick(freq, freq, n)) == Weights(LeafSet(freq, n), freq)
  {
    hide Weights, LeafSet, Pick, Below;
    if n == 0 {
      PickNone(freq);
    } else {
      PickWeights(freq, n - 1);
      PickStep(freq, n);
    }
  }

  lemma PickNone(freq: seq<nat>)
    ensures Below(LeafSet(freq, 0), |freq|) && multiset(Pick(freq, freq, 0)) == Weights(LeafSet(freq, 0), freq)
  {
    assert |LeafSet(freq, 0)| == 0;
  }

  lemma PickStep(freq: seq<nat>, n: nat)
    requires 0 < n <= |freq| && Below(LeafSet(freq, n - 1), |freq|)
    requires multiset(Pick(freq, freq, n - 1)) == Weights(LeafSet(freq, n - 1), freq)
    ensures Below(LeafSet(freq, n), |freq|) && multiset(Pick(freq, freq, n)) == Weights(LeafSet(freq, n), freq)
  {
    hide Weights, Below;
    if freq[n - 1] > 0 {
      WeightsPut(LeafSet(freq, n - 1), freq, n - 1);
    } else {
      assert LeafSet(freq, n) == LeafSet(freq, n - 1) && Pick(freq, freq, n) == Pick(freq, freq, n - 1);
    }
  }

  lemma WeightsPut(nodes: multiset<nat>, freq: seq<nat>, x: nat)
    requires Below(nodes, |freq|) && x < |freq|
    ensures Below(nodes + multiset{x}, |freq|)
    ensures Weights(nodes + multiset{x}, freq) == Weights(nodes, freq) + multiset{freq[x]}
  {
    hide Weights;
    var all := nodes + multiset{x};
    WeightsTake(all, freq, x);
    assert all - multiset{x} == nodes;
  }

  /** A code whose cost is what greedy merging costs is optimal. */
  lemma GreedyCostIsOptimal(freq: seq<nat>, lens: seq<nat>)
    requires |lens| <= |freq|
    requires Cost(freq, lens, Zeros(|lens|)) == Potential(LeafSet(freq, |lens|), freq)
    ensures Optimal(freq, lens)
  {
    var n := |lens|;
    PickWeights(freq, n);
    forall other: seq<nat>, max: nat | |other| == n && CodeFor(freq, other, max)
      ensures Cost(freq, lens, Zeros(n)) <= Cost(freq, other, Zeros(n))
    {
      PickCost(freq, other, n);
      assert other[..n] == other;
      PickFeasible(freq, other, max);
      GreedyIsLeast(Pick(freq, freq, n), Pick(freq, other, n), max);
    }
  }

  lemma PickFeasible(freq: seq<nat>, other: seq<nat>, max: nat)
    requires CodeFor(freq, other, max)
    ensures Feasible(Pick(freq, other, |other|), max)
  {
    var n := |other|;
    PickSame(freq, other, n);
    PickShares(freq, other, n, max);
    assert other[..n] == other;
    var p := Pick(freq, other, n);
    forall i | 0 <= i < |p| ensures 1 <= p[i] <= max {
      assert p[i] in p;
    }
  }

  // ---- forced codes ----

  /** Exactly two used symbols in a complete code have length one each. */
  lemma TwoCodes(freq: seq<nat>, lens: seq<nat>, k: nat)
    requires |lens| <= |freq| && Complete(lens) && k < |lens| && freq[k] > 0
    requires forall i :: 0 <= i < |lens| ==> (lens[i] > 0 <==> freq[i] > 0)
    requires |LeafSet(freq, |lens|)| == 2
    ensures lens[k] == 1
  {
    hide Complete;
    var m := TheOther(freq, |lens|, k);
    TwoShares(lens, k, m);
  }

  lemma TheOther(freq: seq<nat>, n: nat, k: nat) returns (m: nat)
    requires k < n <= |freq| && freq[k] > 0 && |LeafSet(freq, n)| == 2
    ensures m < n && m != k && forall i :: 0 <= i < n && i != k && i != m ==> freq[i] == 0
  {
    LeafSetHas(freq, n);
    var used := LeafSet(freq, n);
    hide LeafSet;
    var rest := used - multiset{k};
    assert |rest| == 1;
    m :| m in rest;
    assert |rest - multiset{m}| == 0;
    assert rest - multiset{m} == multiset{};
    forall i | 0 <= i < n && i != k && i != m ensures freq[i] == 0 {
      assert (rest - multiset{m})[i] == used[i];
    }
  }

  lemma TwoShares(lens: seq<nat>, k: nat, m: nat)
    requires Complete(lens) && k < |lens| && m < |lens| && k != m && lens[k] > 0
    requires forall i :: 0 <= i < |lens| && i != k && i != m ==> lens[i] == 0
    ensures lens[k] == 1
  {
    SharesIsKraft(lens, MAX_BITS);
    var l1 := lens[k := 0];
    SharesUpdate(lens, k, 0, MAX_BITS);
    SharesUpdate(l1, m, 0, MAX_BITS);
    SharesZero(l1[m := 0], MAX_BITS);
    ShareAtMostHalf(lens[k], MAX_BITS);
    ShareAtMostHalf(lens[m], MAX_BITS);
  }

  lemma ShareAtMostHalf(len: nat, max: nat)
    requires len <= max && max >= 2
    ensures 2 * Share(len, max) <= Pow2(max)
    ensures len > 1 ==> 2 * Share(len, max) < Pow2(max)
  {
    if len > 1 {
      Pow2Monotone(max - len, max - 2);
    }
  }

  /** Forced symbols add one bit each to the cost, which build_tree has taken off beforehand. */
  lemma {:induction false} ForcedCancels(freq: seq<nat>, freq': seq<nat>, lens: seq<nat>, extra: seq<nat>, imposed: seq<nat>)
    requires |lens| <= |freq| == |freq'| && |lens| <= |extra| && |lens| <= |imposed|
    requires forall i :: 0 <= i < |lens| ==> freq'[i] == freq[i] || (freq[i] == 0 && freq'[i] == 1 && lens[i] == 1 && extra[i] == 0)
    ensures Cost(freq', lens, extra) == Cost(freq, lens, extra) + ForcedCount(freq, freq', |lens|)
    ensures StaticCost(freq', lens, imposed) == StaticCost(freq, lens, imposed) + ForcedStatic(freq, freq', imposed, |lens|)
    decreases |lens|
  {
    if lens != [] {
      var n := |lens| - 1;
      ForcedCancels(freq, freq', lens[..n], extra, imposed);
    }
  }

  lemma {:induction false} CountedForced(freq: seq<nat>, freq': seq<nat>, n: nat, k: nat)
    requires k < n <= |freq| && n <= |freq'| && freq[k] == 0 && freq'[k] > 0
    ensures ForcedCount(freq, freq', n) > 0
    decreases n
  {
    if k < n - 1 {
      CountedForced(freq, freq', n - 1, k);
    }
  }

  /** Taken together: opt_len and static_len count the real symbols only. */
  lemma BitsOfRealSymbols(freq: seq<nat>, freq': seq<nat>, lens: seq<nat>, desc: Desc)
    requires desc.Valid() && |lens| == desc.elems <= |freq| && ForcedFrom(freq, freq', desc.elems) && Complete(lens)
    requires forall i :: 0 <= i < |lens| ==> (lens[i] > 0 <==> freq'[i] > 0)
    requires ForcedCount(freq, freq', desc.elems) > 0 ==> |LeafSet(freq', desc.elems)| == 2
    ensures Cost(freq', lens, Extras(desc)) == Cost(freq, lens, Extras(desc)) + ForcedCount(freq, freq', |lens|)
    ensures StaticCost(freq', lens, Imposed(desc)) == StaticCost(freq, lens, Imposed(desc)) + ForcedStatic(freq, freq', Imposed(desc), |lens|)
  {
    hide ForcedCount, ForcedStatic, Cost, StaticCost, Complete;
    forall i | 0 <= i < |lens| && freq'[i] != freq[i] ensures freq[i] == 0 && freq'[i] == 1 && lens[i] == 1 && Extras(desc)[i] == 0 {
      CountedForced(freq, freq', desc.elems, i);
      TwoCodes(freq', lens, i);
      ImposedLow(desc, i);
    }
    ForcedCancels(freq, freq', lens, Extras(desc), Imposed(desc));
  }

  // ---- the whole of build_tree ----

  /** Symbols above the largest used one do not change code or histogram. */
  lemma {:induction false} TrimUnused(lens: seq<nat>, n: nat)
    requires n <= |lens| && forall i :: n <= i < |lens| ==> lens[i] == 0
    ensures Kraft(lens[..n]) == Kraft(lens)
    ensures forall b :: 1 <= b ==> CountLen(lens[..n], b) == CountLen(lens, b)
    decreases |lens|
  {
    if n < |lens| {
      var front := lens[..|lens| - 1];
      TrimUnused(front, n);
      assert front[..n] == lens[..n];
    } else {
      assert lens[..n] == lens;
    }
  }

  lemma TrimTree(lens: seq<nat>, n: nat, blCount: seq<nat>)
    requires n <= |lens| && (forall i :: n <= i < |lens| ==> lens[i] == 0) && Complete(lens) && CountsMatch(blCount, lens)
    ensures Complete(lens[..n]) && CountsMatch(blCount, lens[..n])
  {
    TrimUnused(lens, n);
  }

  /** What build_tree leaves for symbols of the given frequencies: lengths and codes of a
      complete canonical prefix code that covers every symbol in use. */
  ghost predicate CodeBuilt(freq: seq<nat>, lens: seq<nat>, codes: seq<nat>, maxCode: nat, maxLength: nat)
  {
    && maxCode < |lens| <= |freq|
    && (forall n :: 0 <= n < |lens| && freq[n] > 0 ==> lens[n] > 0)
    && (forall n :: maxCode < n < |lens| ==> lens[n] == 0)
    && (forall n :: 0 <= n < |lens| ==> lens[n] <= maxLength)
    && Complete(lens[..maxCode + 1])
    && CodesSet(codes, lens[..maxCode + 1])
  }

  /** build_tree */
  method Build(fc: array<nat>, dl: array<nat>, heap: array<nat>, depth: array<nat>, blCount: array<nat>, desc: Desc)
      returns (maxCode: nat, opt: int, stat: int, overflow: nat, ghost freq: seq<nat>)
    requires desc.Valid() && heap.Length == HEAP_SIZE && blCount.Length == MAX_BITS + 1
    requires fc.Length == dl.Length == 2 * desc.elems + 1 <= depth.Length
    requires fc != dl && fc != heap && fc != depth && dl != heap && dl != depth && heap != depth
    requires blCount != fc && blCount != dl && blCount != heap && blCount != depth
    modifies fc, dl, heap, depth, blCount
    ensures ForcedFrom(old(fc[..]), freq, desc.elems)
    ensures CodeBuilt(freq, dl[..desc.elems], fc[..], maxCode, desc.maxLength)
    ensures forall n :: 0 <= n < desc.elems && old(fc[n]) > 0 ==> freq[n] > 0 && n <= maxCode
    ensures opt == Cost(old(fc[..]), dl[..desc.elems], Extras(desc))
    ensures stat == StaticCost(old(fc[..]), dl[..desc.elems], Imposed(desc))
    ensures overflow == 0 ==> Optimal(freq, dl[..desc.elems])
    ensures RarerIsLonger(freq, dl[..desc.elems])
  {
    hide Nodes, Ordered, LeafSet, Layout.Shape, Dads, Weighted, Unclipped, Leaves, OrdIsUsed, Potential, Cost, StaticCost,
         ForcedCount, ForcedStatic, Complete, CountsMatch, Optimal, Sum, CodesSet, Extras, Imposed, CodeBuilt, InRange, Forced, Sorted, Depths, RarerIsLonger, KeptAsRoom;
    var elems := desc.elems;
    ghost var freq0: seq<nat> := fc[..];
    var len, max := FillHeap(fc, dl, heap, depth, elems);
    var o, s;
    len, max, o, s := ForceCodes(fc, dl, heap, depth, desc, len, max);
    freq := fc[..];
    UsedFacts(heap[..], len, freq, dl[..], elems, max, depth[..]);
    maxCode := max;
    Heapify(heap, len, fc, depth);
    var heapMax;
    ghost var t;
    heapMax, t := Combine(heap, len, fc, dl, depth, elems);
    ghost var freq2: seq<nat> := fc[..];
    RootInRange(t);
    ListLeaves(t, freq, freq2, dl[..], elems, maxCode);
    ghost var first: seq<nat>;
    opt, stat, overflow, first := GenBitlen(heap, heapMax, fc, dl, desc, maxCode, blCount, t);
    ghost var lens: seq<nat> := dl[..elems];
    if overflow == 0 {
      NoOverflowOptimal(t, freq, freq2, dl[..], elems, maxCode);
    }
    SameOrder(freq, freq2, lens);
    SameCost(freq, freq2, lens, Extras(desc), Imposed(desc));
    BitsOfRealSymbols(freq0, freq, lens, desc);
    opt, stat := opt + o, stat + s;
    Assign(fc, dl, maxCode, blCount, freq, lens, desc.maxLength);
  }

  lemma SameOrder(freq: seq<nat>, freq2: seq<nat>, lens: seq<nat>)
    requires |lens| <= |freq| && |lens| <= |freq2| && freq[..|lens|] == freq2[..|lens|] && RarerIsLonger(freq2, lens)
    ensures RarerIsLonger(freq, lens)
  {
    assert forall n :: 0 <= n < |lens| ==> freq[n] == freq[..|lens|][n] == freq2[n];
  }

  /** gen_codes for the finished lengths. */
  method Assign(fc: array<nat>, dl: array<nat>, maxCode: nat, blCount: array<nat>, ghost freq: seq<nat>, ghost lens: seq<nat>, ghost maxLength: nat)
    requires fc != dl && blCount != fc && blCount != dl && fc.Length == dl.Length && blCount.Length == MAX_BITS + 1
    requires maxCode < |lens| <= |freq| && |lens| <= dl.Length && dl[..|lens|] == lens
    requires forall n :: 0 <= n < |lens| ==> (lens[n] > 0 <==> freq[n] > 0) && lens[n] <= maxLength
    requires forall n :: 0 <= n < |lens| && freq[n] > 0 ==> n <= maxCode
    requires Complete(lens) && CountsMatch(blCount[..], lens)
    modifies fc
    ensures CodeBuilt(freq, lens, fc[..], maxCode, maxLength)
  {
    hide Complete, CountsMatch, CodesSet, CodeBuilt;
    assert dl[..maxCode + 1] == lens[..maxCode + 1];
    TrimTree(lens, maxCode + 1, blCount[..]);
    CompleteBounded(lens[..maxCode + 1]);
    GenCodes(fc, dl, maxCode, blCount);
    BuiltCode(freq, lens, fc[..], maxCode, maxLength);
  }

  lemma BuiltCode(freq: seq<nat>, lens: seq<nat>, codes: seq<nat>, maxCode: nat, maxLength: nat)
    requires maxCode < |lens| <= |freq|
    requires forall n :: 0 <= n < |lens| ==> (lens[n] > 0 <==> freq[n] > 0) && lens[n] <= maxLength
    requires forall n :: 0 <= n < |lens| && freq[n] > 0 ==> n <= maxCode
    requires Complete(lens[..maxCode + 1]) && CodesSet(codes, lens[..maxCode + 1])
    ensures CodeBuilt(freq, lens, codes, maxCode, maxLength)
  {
  }

  lemma CompleteBounded(lens: seq<nat>)
    requires Complete(lens)
    ensures Bounded(lens)
  {
  }

  lemma UsedFacts(h: seq<nat>, len: nat, freq: seq<nat>, dl: seq<nat>, elems: nat, maxCode: int, depth: seq<nat>)
    requires Filled(h, len, freq, dl, elems, maxCode) && len >= 2 && elems <= |depth|
    ensures 0 <= maxCode < elems && len <= elems
    ensures InRange(h, len, freq, depth) && Nodes(h, len) == LeafSet(freq, elems)
    ensures |LeafSet(freq, elems)| == len
    ensures forall n :: 0 <= n < elems && freq[n] > 0 ==> n <= maxCode
    ensures forall n :: 0 <= n < elems && freq[n] == 0 ==> dl[n] == 0
  {
    LeafSetBelow(freq, elems);
    NodesBelow(h, len, elems);
    NodesCount(h, len);
    if maxCode < 0 {
      NoneUsed(freq, elems);
    }
  }

  lemma {:induction false} NoneUsed(freq: seq<nat>, n: nat)
    requires n <= |freq| && forall i :: 0 <= i < n ==> freq[i] == 0
    ensures LeafSet(freq, n) == multiset{}
  {
    if n > 0 {
      NoneUsed(freq, n - 1);
    }
  }

  lemma ListLeaves(t: Layout, freq: seq<nat>, freq2: seq<nat>, dl: seq<nat>, elems: nat, maxCode: nat)
    requires t.elems == elems <= |freq| == |freq2| && elems <= |dl| && maxCode < elems && freq2[..elems] == freq[..elems]
    requires OrdIsUsed(t, freq2, elems)
    requires forall n :: 0 <= n < elems && freq[n] > 0 ==> n <= maxCode
    requires forall n :: 0 <= n < elems && freq2[n] == 0 ==> dl[n] == 0
    ensures Leaves(t, freq2, dl, maxCode)
    ensures forall n :: 0 <= n < elems ==> freq2[n] == freq[n]
  {
    forall n | 0 <= n < elems ensures freq2[n] == freq[n] {
      assert freq2[..elems][n] == freq2[n];
    }
    forall k | 0 <= k < |t.ord| && t.ord[k] < elems ensures freq2[t.ord[k]] > 0 {
      assert t.ord[k] in t.ord;
    }
  }

  lemma {:induction false} SameCost(freq: seq<nat>, freq2: seq<nat>, lens: seq<nat>, extra: seq<nat>, imposed: seq<nat>)
    requires |lens| <= |freq| && |lens| <= |freq2| && |lens| <= |extra| && |lens| <= |imposed|
    requires forall n :: 0 <= n < |lens| ==> freq2[n] == freq[n]
    ensures Cost(freq, lens, extra) == Cost(freq2, lens, extra)
    ensures StaticCost(freq, lens, imposed) == StaticCost(freq2, lens, imposed)
    decreases |lens|
  {
    if lens != [] {
      SameCost(freq, freq2, lens[..|lens| - 1], extra, imposed);
    }
  }

  lemma NoOverflowOptimal(t: Layout, freq: seq<nat>, freq2: seq<nat>, dl: seq<nat>, elems: nat, maxCode: nat)
    requires t.Shape() && t.elems == elems && elems + t.inner <= |dl| && |dl| <= |freq2| == |freq| && dl[t.ord[0]] == 0
    requires Unclipped(t, dl, 2 * t.inner) && Weighted(t, freq2) && Leaves(t, freq2, dl, maxCode)
    requires forall n :: 0 <= n < elems ==> freq2[n] == freq[n]
    requires Sum(freq2[elems..elems + t.inner]) == Potential(LeafSet(freq, elems), freq)
    ensures Optimal(freq, dl[..elems])
  {
    hide Layout.Shape, Unclipped, Weighted, Leaves, Sum, Potential, Cost, Optimal, LeafSet;
    PathLengthIsInnerWeight(t, freq2, dl, maxCode);
    SameCost(freq, freq2, dl[..elems], Zeros(elems), Zeros(elems));
    GreedyCostIsOptimal(freq, dl[..elems]);
  }
}
