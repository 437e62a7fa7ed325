/** gen_bitlen: from the sorted node list of a Huffman tree to code lengths of at most
    max_length bits that fill the code space exactly, whatever the shape of the tree. */
module BitLengths {
  import opened Bits
  import opened Inflate
  import opened Sums
  import opened Codes

  const HEAP_SIZE := 573

  /** tree_desc: static lengths (empty if there is no static tree), extra bits, limits. */
  datatype Desc = Desc(staticLens: seq<nat>, extraBits: seq<nat>, extraBase: nat, elems: nat, maxLength: nat) {
    predicate Valid() {
      && 3 <= elems && 2 * elems + 1 <= HEAP_SIZE
      && 1 <= maxLength <= MAX_BITS
      && elems <= Pow2(maxLength)
      && elems <= extraBase + |extraBits|
      && (staticLens == [] || elems <= |staticLens|)
      && (extraBase >= 3 || (extraBase == 0 && extraBits[0] == extraBits[1] == extraBits[2] == 0))
    }

    function Extra(n: nat): (x: nat)
      requires Valid() && n < elems
    {
      if n >= extraBase then extraBits[n - extraBase] else 0
    }

    function Static(n: nat): (x: nat)
      requires Valid() && n < elems && staticLens != []
    {
      staticLens[n]
    }
  }

  // ---- the shape of the node list ----

  /** The node list heap[heap_max..]: the root first, then for every internal node, last
      created first, its two sons; an internal node stands before its sons. Internal
      node j has index elems + j and stands at pos[j]. */
  datatype Layout = Layout(ord: seq<nat>, pos: seq<nat>, elems: nat, inner: nat) {
    ghost predicate Shape()
    {
      && inner >= 1 && |ord| == 2 * inner + 1 && |pos| == inner
      && pos[inner - 1] == 0
      && (forall j :: 0 <= j < inner ==> pos[j] < 2 * (inner - j) - 1 && ord[pos[j]] == elems + j)
      && (forall a, b :: 0 <= a < b < |ord| ==> ord[a] != ord[b])
      && (forall k :: 0 <= k < |ord| ==> ord[k] < elems + inner)
    }

    /** The internal node that is the father of the k-th node of the list. */
    function Father(k: nat): (f: nat)
      requires 0 < k <= 2 * inner
      ensures elems <= f < elems + inner
    {
      elems + inner - (k + 1) / 2
    }

    /** Whether that father is among the first i + 1 nodes. */
    predicate FatherSeen(k: nat, i: nat)
      requires 0 < k <= 2 * inner && |pos| == inner
    {
      pos[Father(k) - elems] <= i
    }
  }

  // ---- the balance kept while lengths are handed down ----

  /** pending[k] is 0, or one more than the length of the visited father of the unvisited
      node k. The shares of the lengths given out and of the pending nodes exceed the code
      space by half the overflow, counting pending overflows too. */
  ghost predicate Balance(lens: seq<nat>, pending: seq<nat>, max: nat, overflow: nat)
  {
    var excess := Shares(lens, max) + Shares(pending, max) - Pow2(max);
    && excess >= 0
    && 2 * excess == overflow + CountLen(pending, max + 1)
    && CountLen(lens, max) + CountLen(pending, max) + CountLen(pending, max + 1) >= excess + (if excess > 0 then 1 else 0)
  }

  function Clip(b: nat, max: nat): (r: nat)
  {
    if b > max then max else b
  }

  lemma LeafStep(lens: seq<nat>, pending: seq<nat>, max: nat, overflow: nat, n: nat, k: nat)
    requires Balance(lens, pending, max, overflow) && max >= 1
    requires n < |lens| && lens[n] == 0 && k < |pending| && 0 < pending[k] <= max + 1
    ensures Balance(lens[n := Clip(pending[k], max)], pending[k := 0], max,
                    overflow + (if pending[k] > max then 1 else 0))
  {
    hide Shares, CountLen, Pow2;
    var b := Clip(pending[k], max);
    SharesUpdate(lens, n, b, max);
    SharesUpdate(pending, k, 0, max);
    CountUpdate(lens, n, b, max);
    CountUpdate(pending, k, 0, max);
    CountUpdate(pending, k, 0, max + 1);
    ShareSplits(pending[k], max);
    ShareSplits(b, max);
  }

  lemma NodeStep(lens: seq<nat>, pending: seq<nat>, max: nat, overflow: nat, k: nat, s: nat, t: nat)
    requires Balance(lens, pending, max, overflow) && max >= 1
    requires k < s < t < |pending| && pending[s] == pending[t] == 0 && 0 < pending[k] <= max + 1
    ensures var b := Clip(pending[k], max);
            Balance(lens, pending[k := 0][s := b + 1][t := b + 1], max, overflow + (if pending[k] > max then 1 else 0))
  {
    hide Shares, CountLen, Share, Pow2;
    var b := Clip(pending[k], max);
    var p1 := pending[k := 0];
    var p2 := p1[s := b + 1];
    SharesUpdate(pending, k, 0, max);
    SharesUpdate(p1, s, b + 1, max);
    SharesUpdate(p2, t, b + 1, max);
    forall c | c == max || c == max + 1
      ensures CountLen(p2[t := b + 1], c) == CountLen(pending, c) - Hit(pending[k], c) + 2 * Hit(b + 1, c)
    {
      CountUpdate(pending, k, 0, c);
      CountUpdate(p1, s, b + 1, c);
      CountUpdate(p2, t, b + 1, c);
    }
    CountPresent(pending, k);
    ShareSplits(pending[k], max);
    ShareZero(max);
  }

  /** Two sons share what their father had, until the clipped depth is reached. */
  lemma ShareSplits(b: nat, max: nat)
    requires 0 < b && max >= 1
    ensures b < max ==> Share(b, max) == 2 * Share(b + 1, max)
    ensures b >= max ==> Share(b, max) == Share(Clip(b, max) + 1, max) == 1
  {
  }

  lemma ShareZero(max: nat)
    ensures Share(0, max) == 0
  {
  }

  /** What is pending after visiting the first i + 1 nodes of the list. */
  ghost predicate Pending(t: Layout, dl: seq<nat>, pending: seq<nat>, i: nat)
    requires t.Shape() && t.elems + t.inner <= |dl|
  {
    && |pending| == |t.ord| && pending[0] == 0
    && forall k :: 0 < k < |t.ord| ==>
         pending[k] == if i < k && t.FatherSeen(k, i) then dl[t.Father(k)] + 1 else 0
  }

  /** Unvisited nodes still hold their father. */
  ghost predicate Dads(t: Layout, dl: seq<nat>, i: nat)
    requires t.Shape() && t.elems + t.inner <= |dl|
  {
    forall k :: i < k < |t.ord| && 0 < k ==> dl[t.ord[k]] == t.Father(k)
  }

  lemma PendingStart(t: Layout, dl: seq<nat>, max: nat) returns (pending: seq<nat>)
    requires t.Shape() && t.elems + t.inner <= |dl| && max >= 1
    requires dl[t.elems + t.inner - 1] == 0
    ensures Pending(t, dl, pending, 0)
    ensures Balance(Zeros(t.elems), pending, max, 0)
  {
    hide Shares, CountLen;
    var zeros := Zeros(|t.ord|);
    var lens := Zeros(t.elems);
    pending := zeros[1 := 1][2 := 1];
    SharesZero(zeros, max);
    SharesZero(lens, max);
    SharesUpdate(zeros, 1, 1, max);
    SharesUpdate(zeros[1 := 1], 2, 1, max);
    forall k | 0 < k < |t.ord| && t.FatherSeen(k, 0) ensures k <= 2 {
      var j := t.Father(k) - t.elems;
      assert t.ord[t.pos[j]] == t.elems + j;
      assert t.ord[t.pos[t.inner - 1]] == t.elems + t.inner - 1;
    }
    forall c | c == max || c == max + 1 ensures CountLen(pending, c) == 2 * Hit(1, c) {
      CountAbsent(zeros, c);
      CountUpdate(zeros, 1, 1, c);
      CountUpdate(zeros[1 := 1], 2, 1, c);
    }
  }

  lemma PendingLeaf(t: Layout, dl: seq<nat>, b: nat, pending: seq<nat>, i: nat)
    requires t.Shape() && t.elems + t.inner <= |dl|
    requires Pending(t, dl, pending, i) && i + 1 < |t.ord| && t.ord[i + 1] < t.elems
    ensures Pending(t, dl[t.ord[i + 1] := b], pending[i + 1 := 0], i + 1)
  {
    forall k | i + 1 < k < |t.ord| && t.FatherSeen(k, i + 1) ensures t.FatherSeen(k, i) {
      var j := t.Father(k) - t.elems;
      assert t.ord[t.pos[j]] == t.elems + j;
    }
  }

  /** An internal node's two sons become pending. */
  lemma PendingNode(t: Layout, dl: seq<nat>, b: nat, pending: seq<nat>, i: nat) returns (s: nat)
    requires t.Shape() && t.elems + t.inner <= |dl|
    requires Pending(t, dl, pending, i) && i + 1 < |t.ord| && t.ord[i + 1] >= t.elems
    ensures i + 1 < s && s + 1 < |t.ord| && pending[s] == pending[s + 1] == 0
    ensures Pending(t, dl[t.ord[i + 1] := b], pending[i + 1 := 0][s := b + 1][s + 1 := b + 1], i + 1)
  {
    var j := t.ord[i + 1] - t.elems;
    assert t.ord[t.pos[j]] == t.elems + j;
    assert t.pos[j] == i + 1;
    s := 2 * (t.inner - j) - 1;
    assert t.Father(s) == t.elems + j && t.Father(s + 1) == t.elems + j;
    forall k | 0 < k < |t.ord| && t.Father(k) != t.elems + j
      ensures k != s && k != s + 1 && t.FatherSeen(k, i) == t.FatherSeen(k, i + 1)
    {
      var q := t.Father(k) - t.elems;
      assert t.ord[t.pos[q]] == t.elems + q;
    }
    forall k | 0 < k < |t.ord| && t.Father(k) == t.elems + j ensures k == s || k == s + 1 {
    }
  }

  // ---- costs ----

  /** Bits for a symbol sent freq times. */
  function Bill(freq: nat, bits: nat): (c: nat)
  {
    freq * bits
  }

  /** Total bits of the used symbols: frequency times code length plus extra bits. */
  function Cost(freq: seq<nat>, lens: seq<nat>, extra: seq<nat>): (c: nat)
    requires |lens| <= |freq| && |lens| <= |extra|
    decreases |lens|
  {
    if lens == [] then 0
    else
      var n := |lens| - 1;
      Cost(freq, lens[..n], extra) + (if lens[n] == 0 then 0 else Bill(freq[n], lens[n] + extra[n]))
  }

  lemma {:induction false} CostUpdate(freq: seq<nat>, lens: seq<nat>, extra: seq<nat>, n: nat, b: nat)
    requires |lens| <= |freq| && |lens| <= |extra| && n < |lens| && b > 0
    ensures Cost(freq, lens[n := b], extra)
         == Cost(freq, lens, extra) + Bill(freq[n], b + extra[n]) - (if lens[n] == 0 then 0 else Bill(freq[n], lens[n] + extra[n]))
    decreases |lens|
  {
    hide Bill;
    var last := |lens| - 1;
    if n < last {
      CostUpdate(freq, lens[..last], extra, n, b);
      assert lens[n := b][..last] == lens[..last][n := b];
    } else {
      assert lens[n := b][..last] == lens[..last];
    }
  }

  /** The same with imposed lengths: used says which symbols are coded at all. */
  function StaticCost(freq: seq<nat>, used: seq<nat>, imposed: seq<nat>): (c: nat)
    requires |used| <= |freq| && |used| <= |imposed|
    decreases |used|
  {
    if used == [] then 0
    else
      var n := |used| - 1;
      StaticCost(freq, used[..n], imposed) + (if used[n] == 0 then 0 else Bill(freq[n], imposed[n]))
  }

  lemma {:induction false} StaticCostUpdate(freq: seq<nat>, used: seq<nat>, imposed: seq<nat>, n: nat, b: nat)
    requires |used| <= |freq| && |used| <= |imposed| && n < |used| && b > 0 && used[n] == 0
    ensures StaticCost(freq, used[n := b], imposed) == StaticCost(freq, used, imposed) + Bill(freq[n], imposed[n])
    decreases |used|
  {
    hide Bill;
    var last := |used| - 1;
    if n < last {
      StaticCostUpdate(freq, used[..last], imposed, n, b);
      assert used[n := b][..last] == used[..last][n := b];
    } else {
      assert used[n := b][..last] == used[..last];
    }
  }

  lemma {:induction false} CostZero(freq: seq<nat>, lens: seq<nat>, extra: seq<nat>)
    requires |lens| <= |freq| && |lens| <= |extra| && forall i :: 0 <= i < |lens| ==> lens[i] == 0
    ensures Cost(freq, lens, extra) == 0 && StaticCost(freq, lens, extra) == 0
    decreases |lens|
  {
    if lens != [] {
      CostZero(freq, lens[..|lens| - 1], extra);
    }
  }

  function Extras(desc: Desc): (x: seq<nat>)
    requires desc.Valid()
    ensures |x| == desc.elems && forall n :: 0 <= n < |x| ==> x[n] == desc.Extra(n)
  {
    seq(desc.elems, n requires 0 <= n < desc.elems => desc.Extra(n))
  }

  /** Static code length plus extra bits. */
  function Imposed(desc: Desc): (x: seq<nat>)
    requires desc.Valid()
    ensures |x| == desc.elems
    ensures forall n :: 0 <= n < |x| ==> x[n] == (if desc.staticLens == [] then 0 else desc.Static(n) + desc.Extra(n))
  {
    seq(desc.elems, n requires 0 <= n < desc.elems =>
      if desc.staticLens == [] then 0 else desc.Static(n) + desc.Extra(n))
  }

  // ---- first pass ----

  /** Leaves are exactly the symbols of non-zero frequency; the others have length 0. */
  ghost predicate Leaves(t: Layout, freq: seq<nat>, dl: seq<nat>, maxCode: nat)
    requires t.elems <= |freq| && t.elems <= |dl|
  {
    && maxCode < t.elems
    && (forall n :: 0 <= n < t.elems && freq[n] > 0 ==> n in t.ord && n <= maxCode)
    && (forall n :: 0 <= n < t.elems && freq[n] == 0 ==> dl[n] == 0)
    && (forall k :: 0 <= k < |t.ord| && t.ord[k] < t.elems ==> freq[t.ord[k]] > 0)
  }

  /** Lengths handed out to the first i + 1 nodes. */
  ghost predicate Given(t: Layout, freq: seq<nat>, dl: seq<nat>, lens: seq<nat>, max: nat, i: nat)
    requires |lens| == t.elems <= |dl| && t.elems <= |freq|
  {
    && (forall k :: 0 <= k <= i && k < |t.ord| && t.ord[k] < t.elems ==> lens[t.ord[k]] == dl[t.ord[k]] > 0)
    && (forall k :: i < k < |t.ord| && t.ord[k] < t.elems ==> lens[t.ord[k]] == 0)
    && (forall n :: 0 <= n < t.elems && freq[n] == 0 ==> lens[n] == 0)
    && (forall n :: 0 <= n < t.elems ==> lens[n] <= max)
  }

  /** Depths, clipped: the root has 0, every other node one more than its father. */
  ghost predicate Depths(t: Layout, dl: seq<nat>, max: nat, i: nat)
    requires t.Shape() && t.elems + t.inner <= |dl|
  {
    && dl[t.ord[0]] == 0
    && (forall j :: 0 <= j < t.inner && t.pos[j] <= i ==> dl[t.elems + j] <= max)
    && forall k :: 0 < k <= i && k < |t.ord| ==> dl[t.ord[k]] == Clip(dl[t.Father(k)] + 1, max)
  }

  ghost predicate Unclipped(t: Layout, dl: seq<nat>, i: nat)
    requires t.Shape() && t.elems + t.inner <= |dl|
  {
    forall k :: 0 < k <= i && k < |t.ord| ==> dl[t.ord[k]] == dl[t.Father(k)] + 1
  }

  /** How many entries of a node list are leaves. */
  function LeafCount(ord: seq<nat>, elems: nat): (n: nat)
  {
    if ord == [] then 0 else LeafCount(ord[..|ord| - 1], elems) + (if ord[|ord| - 1] < elems then 1 else 0)
  }

  /** As many symbols have a length as leaves were visited. */
  ghost predicate Tally(t: Layout, lens: seq<nat>, i: nat)
    requires i < |t.ord|
  {
    LeafCount(t.ord[..i + 1], t.elems) + CountLen(lens, 0) == t.elems
  }

  lemma TallyNext(t: Layout, lens: seq<nat>, i: nat, b: nat)
    requires i + 1 < |t.ord| && Tally(t, lens, i)
    ensures t.ord[i + 1] >= t.elems ==> Tally(t, lens, i + 1)
    ensures t.ord[i + 1] < |lens| == t.elems && lens[t.ord[i + 1]] == 0 < b ==> Tally(t, lens[t.ord[i + 1] := b], i + 1)
  {
    assert t.ord[..i + 2][..i + 1] == t.ord[..i + 1];
    if t.ord[i + 1] < |lens| == t.elems && lens[t.ord[i + 1]] == 0 < b {
      CountUpdate(lens, t.ord[i + 1], b, 0);
    }
  }

  /** Everything known after visiting the first i + 1 nodes. */
  ghost predicate Visited(t: Layout, freq: seq<nat>, dl: seq<nat>, lens: seq<nat>, pending: seq<nat>,
                          max: nat, overflow: nat, i: nat)
  {
    && t.Shape() && i < |t.ord| && max >= 1
    && t.elems + t.inner <= |dl| && |dl| == |freq| && |lens| == t.elems
    && Dads(t, dl, i) && Pending(t, dl, pending, i)
    && Balance(lens, pending, max, overflow)
    && Given(t, freq, dl, lens, max, i)
    && Depths(t, dl, max, i)
    && (overflow == 0 ==> Unclipped(t, dl, i))
    && Tally(t, lens, i)
  }

  lemma PendingIsNext(t: Layout, freq: seq<nat>, dl: seq<nat>, lens: seq<nat>, pending: seq<nat>, max: nat, overflow: nat, i: nat)
    requires Visited(t, freq, dl, lens, pending, max, overflow, i) && i + 1 < |t.ord|
    ensures |pending| == |t.ord| == 2 * t.inner + 1 == 2 * |t.pos| + 1 && t.ord[i + 1] < |dl|
    ensures dl[t.ord[i + 1]] == t.Father(i + 1) < |dl|
    ensures t.FatherSeen(i + 1, i) && pending[i + 1] == dl[t.Father(i + 1)] + 1 && 0 < pending[i + 1] <= max + 1
  {
  }

  lemma DadsKept(t: Layout, dl: seq<nat>, b: nat, i: nat)
    requires t.Shape() && t.elems + t.inner <= |dl| && i + 1 < |t.ord| && Dads(t, dl, i)
    ensures Dads(t, dl[t.ord[i + 1] := b], i + 1)
  {
  }

  /** The father of a visited or next node is visited and is not the next node. */
  lemma FatherBefore(t: Layout, k: nat, i: nat)
    requires t.Shape() && 0 < k <= i + 1 < |t.ord|
    ensures t.FatherSeen(k, i) && t.Father(k) != t.ord[i + 1]
  {
    var j := t.Father(k) - t.elems;
    assert t.ord[t.pos[j]] == t.elems + j && t.pos[j] < 2 * (t.inner - j) - 1 <= k;
  }

  lemma DepthsKept(t: Layout, dl: seq<nat>, max: nat, i: nat)
    requires t.Shape() && t.elems + t.inner <= |dl| && i + 1 < |t.ord|
    requires Depths(t, dl, max, i)
    ensures Depths(t, dl[t.ord[i + 1] := Clip(dl[t.Father(i + 1)] + 1, max)], max, i + 1)
  {
    var dl' := dl[t.ord[i + 1] := Clip(dl[t.Father(i + 1)] + 1, max)];
    forall k | 0 < k <= i + 1 ensures dl'[t.Father(k)] == dl[t.Father(k)] {
      FatherBefore(t, k, i);
    }
    forall k | 0 <= k <= i ensures dl'[t.ord[k]] == dl[t.ord[k]] {
    }
    forall j | 0 <= j < t.inner && t.pos[j] <= i + 1 ensures dl'[t.elems + j] <= max {
      assert t.ord[t.pos[j]] == t.elems + j;
    }
  }

  lemma UnclippedKept(t: Layout, dl: seq<nat>, max: nat, i: nat)
    requires t.Shape() && t.elems + t.inner <= |dl| && i + 1 < |t.ord|
    requires Unclipped(t, dl, i) && dl[t.Father(i + 1)] + 1 <= max
    ensures Unclipped(t, dl[t.ord[i + 1] := Clip(dl[t.Father(i + 1)] + 1, max)], i + 1)
  {
    var dl' := dl[t.ord[i + 1] := Clip(dl[t.Father(i + 1)] + 1, max)];
    forall k | 0 < k <= i + 1 ensures dl'[t.Father(k)] == dl[t.Father(k)] {
      FatherBefore(t, k, i);
    }
  }

  lemma GivenLeaf(t: Layout, freq: seq<nat>, dl: seq<nat>, lens: seq<nat>, max: nat, i: nat, b: nat)
    requires t.Shape() && |lens| == t.elems <= |dl| && t.elems <= |freq|
    requires Given(t, freq, dl, lens, max, i) && i + 1 < |t.ord| && 0 < b <= max
    requires t.ord[i + 1] < t.elems && freq[t.ord[i + 1]] > 0
    ensures Given(t, freq, dl[t.ord[i + 1] := b], lens[t.ord[i + 1] := b], max, i + 1)
  {
    OthersDiffer(t, i + 1);
  }

  lemma GivenNode(t: Layout, freq: seq<nat>, dl: seq<nat>, lens: seq<nat>, max: nat, i: nat, b: nat)
    requires t.Shape() && |lens| == t.elems && t.elems + t.inner <= |dl| && t.elems <= |freq|
    requires Given(t, freq, dl, lens, max, i) && i + 1 < |t.ord| && t.ord[i + 1] >= t.elems
    ensures Given(t, freq, dl[t.ord[i + 1] := b], lens, max, i + 1)
  {
    OthersDiffer(t, i + 1);
  }

  lemma OthersDiffer(t: Layout, i: nat)
    requires t.Shape() && i < |t.ord|
    ensures forall k :: 0 <= k < |t.ord| && k != i ==> t.ord[k] != t.ord[i]
  {
  }

  lemma VisitLeaf(t: Layout, freq: seq<nat>, dl: seq<nat>, lens: seq<nat>, pending: seq<nat>, max: nat, overflow: nat, i: nat)
    requires Visited(t, freq, dl, lens, pending, max, overflow, i) && i + 1 < |t.ord|
    requires t.ord[i + 1] < t.elems && freq[t.ord[i + 1]] > 0
    ensures var n := t.ord[i + 1];
            var b := Clip(dl[t.Father(i + 1)] + 1, max);
            Visited(t, freq, dl[n := b], lens[n := b], pending[i + 1 := 0], max,
                    overflow + (if dl[t.Father(i + 1)] + 1 > max then 1 else 0), i + 1)
  {
    hide Balance, Dads, Given, Depths, Unclipped, Pending, Tally, Layout.Shape;
    PendingIsNext(t, freq, dl, lens, pending, max, overflow, i);
    var n := t.ord[i + 1];
    var b := Clip(pending[i + 1], max);
    assert lens[n] == 0 by { NextUngiven(t, freq, dl, lens, max, i); }
    LeafStep(lens, pending, max, overflow, n, i + 1);
    PendingLeaf(t, dl, b, pending, i);
    DadsKept(t, dl, b, i);
    GivenLeaf(t, freq, dl, lens, max, i, b);
    TallyNext(t, lens, i, b);
    DepthsKept(t, dl, max, i);
    if overflow == 0 && dl[t.Father(i + 1)] + 1 <= max {
      UnclippedKept(t, dl, max, i);
    }
  }

  lemma NextUngiven(t: Layout, freq: seq<nat>, dl: seq<nat>, lens: seq<nat>, max: nat, i: nat)
    requires |lens| == t.elems <= |dl| && t.elems <= |freq|
    requires Given(t, freq, dl, lens, max, i) && i + 1 < |t.ord| && t.ord[i + 1] < t.elems
    ensures lens[t.ord[i + 1]] == 0
  {
  }

  lemma VisitNode(t: Layout, freq: seq<nat>, dl: seq<nat>, lens: seq<nat>, pending: seq<nat>, max: nat, overflow: nat, i: nat)
      returns (pending': seq<nat>)
    requires Visited(t, freq, dl, lens, pending, max, overflow, i) && i + 1 < |t.ord|
    requires t.ord[i + 1] >= t.elems
    ensures var n := t.ord[i + 1];
            var b := Clip(dl[t.Father(i + 1)] + 1, max);
            Visited(t, freq, dl[n := b], lens, pending', max,
                    overflow + (if dl[t.Father(i + 1)] + 1 > max then 1 else 0), i + 1)
  {
    hide Balance, Dads, Given, Depths, Unclipped, Pending, Tally, Layout.Shape;
    PendingIsNext(t, freq, dl, lens, pending, max, overflow, i);
    var b := Clip(pending[i + 1], max);
    var s := PendingNode(t, dl, b, pending, i);
    NodeStep(lens, pending, max, overflow, i + 1, s, s + 1);
    pending' := pending[i + 1 := 0][s := b + 1][s + 1 := b + 1];
    DadsKept(t, dl, b, i);
    GivenNode(t, freq, dl, lens, max, i, b);
    TallyNext(t, lens, i, b);
    DepthsKept(t, dl, max, i);
    if overflow == 0 && dl[t.Father(i + 1)] + 1 <= max {
      UnclippedKept(t, dl, max, i);
    }
  }

  lemma RootFirst(t: Layout)
    requires t.Shape()
    ensures |t.ord| == 2 * t.inner + 1 && t.ord[0] == t.elems + t.inner - 1
    ensures forall j :: 0 <= j < t.inner && t.pos[j] <= 0 ==> j == t.inner - 1
    ensures forall k :: 0 < k < |t.ord| ==> t.ord[k] != t.ord[0]
  {
    assert t.ord[t.pos[t.inner - 1]] == t.elems + t.inner - 1;
    forall j | 0 <= j < t.inner && t.pos[j] <= 0 ensures j == t.inner - 1 {
      assert t.ord[t.pos[j]] == t.elems + j;
    }
  }

  lemma TallyStart(t: Layout, lens: seq<nat>)
    requires |t.ord| > 0 && t.ord[0] >= t.elems == |lens| && forall i :: 0 <= i < |lens| ==> lens[i] == 0
    ensures Tally(t, lens, 0)
  {
    CountAllZero(lens);
    assert t.ord[..1][..0] == [];
  }

  lemma RootVisited(t: Layout, freq: seq<nat>, dl: seq<nat>, max: nat)
    requires t.Shape() && max >= 1 && t.elems + t.inner <= |dl| && |dl| == |freq| && Dads(t, dl, 0)
    ensures var dl' := dl[t.ord[0] := 0];
            Dads(t, dl', 0) && Depths(t, dl', max, 0) && Unclipped(t, dl', 0) && Given(t, freq, dl', Zeros(t.elems), max, 0)
  {
    RootFirst(t);
  }

  lemma VisitStart(t: Layout, freq: seq<nat>, dl: seq<nat>, maxCode: nat, max: nat) returns (lens: seq<nat>, pending: seq<nat>)
    requires t.Shape() && max >= 1 && t.elems + t.inner <= |dl| && |dl| == |freq|
    requires Dads(t, dl, 0) && Leaves(t, freq, dl, maxCode)
    ensures Visited(t, freq, dl[t.ord[0] := 0], lens, pending, max, 0, 0)
    ensures lens == Zeros(t.elems)
    ensures Leaves(t, freq, dl[t.ord[0] := 0], maxCode)
  {
    hide Balance, Pending, Tally, Given, Depths, Unclipped, Dads, Layout.Shape;
    RootFirst(t);
    RootVisited(t, freq, dl, max);
    lens := Zeros(t.elems);
    pending := PendingStart(t, dl[t.ord[0] := 0], max);
    TallyStart(t, lens);
  }

  lemma {:induction false} CountAllZero(lens: seq<nat>)
    requires forall i :: 0 <= i < |lens| ==> lens[i] == 0
    ensures CountLen(lens, 0) == |lens|
  {
    if lens != [] {
      CountAllZero(lens[..|lens| - 1]);
    }
  }

  /** Nothing is pending once every node has been visited. */
  lemma NothingPending(lens: seq<nat>, pending: seq<nat>, max: nat, overflow: nat)
    requires Balance(lens, pending, max, overflow) && forall k :: 0 <= k < |pending| ==> pending[k] == 0
    requires max >= 1
    ensures Excess(lens, max, overflow)
  {
    SharesZero(pending, max);
    CountAbsent(pending, max);
    CountAbsent(pending, max + 1);
  }

  lemma AllGiven(t: Layout, freq: seq<nat>, dl: seq<nat>, lens: seq<nat>, max: nat, maxCode: nat)
    requires |lens| == t.elems <= |dl| && t.elems <= |freq| && |t.ord| == 2 * t.inner + 1
    requires Given(t, freq, dl, lens, max, 2 * t.inner) && Leaves(t, freq, dl, maxCode)
    ensures lens == dl[..t.elems]
    ensures forall n :: 0 <= n < t.elems ==> (lens[n] > 0 <==> freq[n] > 0) && lens[n] <= max
  {
    forall n | 0 <= n < t.elems ensures lens[n] == dl[n] && (lens[n] > 0 <==> freq[n] > 0) {
      if freq[n] > 0 {
        var k :| 0 <= k < |t.ord| && t.ord[k] == n;
      }
    }
  }

  /** The clipped lengths exceed the code space by half the overflow, and enough symbols
      sit at the limit to take the excess away one by one. */
  ghost predicate Excess(lens: seq<nat>, max: nat, overflow: nat)
  {
    && 2 * Shares(lens, max) == 2 * Pow2(max) + overflow
    && (overflow > 0 ==> 2 * CountLen(lens, max) >= overflow + 2)
  }

  /** First pass of gen_bitlen: clipped depths, their histogram, the overflow count and
      the bits they cost. */
  method FirstPass(heap: array<nat>, heapMax: nat, fc: array<nat>, dl: array<nat>, desc: Desc, maxCode: nat,
                   blCount: array<nat>, ghost t: Layout)
      returns (overflow: nat, opt: nat, stat: nat)
    requires desc.Valid() && t.Shape() && t.elems == desc.elems
    requires heap.Length == HEAP_SIZE && heapMax <= HEAP_SIZE && heap[heapMax..] == t.ord
    requires fc.Length == dl.Length && t.elems + t.inner <= dl.Length && blCount.Length == MAX_BITS + 1
    requires dl != fc && dl != heap && blCount != fc && blCount != heap && blCount != dl
    requires Dads(t, dl[..], 0) && Leaves(t, fc[..], dl[..], maxCode)
    modifies dl, blCount
    ensures Leaves(t, fc[..], dl[..], maxCode)
    ensures Excess(dl[..t.elems], desc.maxLength, overflow)
    ensures forall n :: 0 <= n < t.elems ==> (dl[n] > 0 <==> fc[n] > 0) && dl[n] <= desc.maxLength
    ensures CountsMatch(blCount[..], dl[..t.elems])
    ensures opt == Cost(fc[..], dl[..t.elems], Extras(desc))
    ensures stat == StaticCost(fc[..], dl[..t.elems], Imposed(desc))
    ensures Depths(t, dl[..], desc.maxLength, 2 * t.inner)
    ensures overflow == 0 ==> Unclipped(t, dl[..], 2 * t.inner)
    ensures LeafCount(t.ord, t.elems) + CountLen(dl[..t.elems], 0) == t.elems
  {
    hide Bill;
    hide LeafCount, Layout.Shape, Dads, Leaves, Depths, Unclipped, Excess, Cost, StaticCost, Visited, CountLen, CountsMatch;
    ghost var freq: seq<nat> := fc[..];
    var max := desc.maxLength;
    ClearCounts(blCount);
    ghost var lens: seq<nat>, pending: seq<nat> := VisitStart(t, freq, dl[..], maxCode, max);
    RootInRange(t);
    dl[heap[heapMax]] := 0;
    overflow, opt, stat := 0, 0, 0;
    ghost var i := 0;
    CostZero(freq, lens, Extras(desc));
    CostZero(freq, lens, Imposed(desc));
    NoneCounted(blCount[..], lens);
    var h := heapMax + 1;
    while h < HEAP_SIZE
      invariant heapMax < h == heapMax + i + 1 <= HEAP_SIZE
      invariant fc[..] == freq && heap[heapMax..] == t.ord && |lens| == t.elems
      invariant Visited(t, freq, dl[..], lens, pending, max, overflow, i)
      invariant Leaves(t, freq, dl[..], maxCode)
      invariant CountsMatch(blCount[..], lens)
      invariant opt == Cost(freq, lens, Extras(desc))
      invariant stat == StaticCost(freq, lens, Imposed(desc))
    {
      var n := heap[h];
      assert n == t.ord[i + 1];
      NextNode(t, freq, dl[..], lens, pending, max, overflow, i, maxCode);
      var bits: nat := dl[dl[n]] + 1;
      ghost var before, overflow0 := dl[..], overflow;
      bits, overflow := Clip(bits, max), if bits > max then overflow + 1 else overflow;
      dl[n] := bits;
      assert dl[..] == before[n := bits];
      if n > maxCode {
        pending := VisitNode(t, freq, before, lens, pending, max, overflow0, i);
      } else {
        VisitLeaf(t, freq, before, lens, pending, max, overflow0, i);
        opt, stat := CountLeaf(fc, desc, blCount, n, bits, opt, stat, lens);
        lens := lens[n := bits];
        pending := pending[i + 1 := 0];
      }
      LeavesKept(t, freq, before, n, bits, maxCode);
      h, i := h + 1, i + 1;
    }
    VisitDone(t, freq, dl[..], lens, pending, max, overflow, i, maxCode);
  }

  /** A leaf of the given length enters the histogram and the bit counts. */
  method CountLeaf(fc: array<nat>, desc: Desc, blCount: array<nat>, n: nat, bits: nat, opt0: nat, stat0: nat, ghost lens: seq<nat>)
      returns (opt: nat, stat: nat)
    requires desc.Valid() && |lens| == desc.elems <= fc.Length && n < desc.elems && lens[n] == 0
    requires 1 <= bits <= MAX_BITS && blCount.Length == MAX_BITS + 1 && blCount != fc
    requires CountsMatch(blCount[..], lens)
    requires opt0 == Cost(fc[..], lens, Extras(desc)) && stat0 == StaticCost(fc[..], lens, Imposed(desc))
    modifies blCount
    ensures CountsMatch(blCount[..], lens[n := bits])
    ensures opt == Cost(fc[..], lens[n := bits], Extras(desc))
    ensures stat == StaticCost(fc[..], lens[n := bits], Imposed(desc))
  {
    hide Bill, Cost, StaticCost;
    LeafCounted(blCount[..], lens, n, bits);
    ghost var c: seq<nat> := blCount[..];
    blCount[bits] := blCount[bits] + 1;
    assert blCount[..] == c[bits := c[bits] + 1];
    CostUpdate(fc[..], lens, Extras(desc), n, bits);
    StaticCostUpdate(fc[..], lens, Imposed(desc), n, bits);
    NoStatic(desc, fc[n], n);
    opt := opt0 + Bill(fc[n], bits + desc.Extra(n));
    stat := stat0;
    if desc.staticLens != [] {
      stat := stat0 + Bill(fc[n], desc.Static(n) + desc.Extra(n));
    }
  }

  lemma NoneCounted(blCount: seq<nat>, lens: seq<nat>)
    requires |blCount| == MAX_BITS + 1 && (forall b :: 0 <= b <= MAX_BITS ==> blCount[b] == 0)
    requires forall i :: 0 <= i < |lens| ==> lens[i] == 0
    ensures CountsMatch(blCount, lens)
  {
    forall b | 1 <= b <= MAX_BITS ensures CountLen(lens, b) == 0 {
      CountAbsent(lens, b);
    }
  }

  lemma NoStatic(desc: Desc, f: nat, n: nat)
    requires desc.Valid() && n < desc.elems
    ensures desc.staticLens == [] ==> Bill(f, Imposed(desc)[n]) == 0
    ensures desc.staticLens != [] ==> Imposed(desc)[n] == desc.Static(n) + desc.Extra(n)
  {
  }

  method ClearCounts(blCount: array<nat>)
    requires blCount.Length == MAX_BITS + 1
    modifies blCount
    ensures forall b :: 0 <= b <= MAX_BITS ==> blCount[b] == 0
  {
    var bits := 0;
    while bits < blCount.Length
      invariant 0 <= bits <= blCount.Length
      invariant forall b :: 0 <= b < bits ==> blCount[b] == 0
    {
      blCount[bits] := 0;
      bits := bits + 1;
    }
  }

  lemma RootInRange(t: Layout)
    requires t.Shape()
    ensures |t.ord| == 2 * t.inner + 1 && t.ord[0] < t.elems + t.inner
  {
  }

  /** What the loop may read about the next node. */
  lemma NextNode(t: Layout, freq: seq<nat>, dl: seq<nat>, lens: seq<nat>, pending: seq<nat>, max: nat, overflow: nat, i: nat, maxCode: nat)
    requires Visited(t, freq, dl, lens, pending, max, overflow, i) && i + 1 < |t.ord|
    requires Leaves(t, freq, dl, maxCode)
    ensures |t.ord| == 2 * t.inner + 1
    ensures var n := t.ord[i + 1];
            && n < t.elems + t.inner <= |dl| && |lens| == t.elems && |pending| == |t.ord|
            && (n <= maxCode <==> n < t.elems)
            && (n < t.elems ==> freq[n] > 0 && lens[n] == 0)
            && dl[n] == t.Father(i + 1) && t.Father(i + 1) < |dl|
  {
    PendingIsNext(t, freq, dl, lens, pending, max, overflow, i);
  }

  lemma LeafCounted(blCount: seq<nat>, lens: seq<nat>, n: nat, b: nat)
    requires CountsMatch(blCount, lens) && n < |lens| && lens[n] == 0 && 1 <= b <= MAX_BITS
    ensures CountsMatch(blCount[b := blCount[b] + 1], lens[n := b])
  {
    forall c | 1 <= c <= MAX_BITS ensures CountLen(lens[n := b], c) == CountLen(lens, c) + Hit(b, c) {
      CountUpdate(lens, n, b, c);
    }
  }

  lemma LeavesKept(t: Layout, freq: seq<nat>, dl: seq<nat>, n: nat, b: nat, maxCode: nat)
    requires t.elems <= |freq| && t.elems <= |dl| && n < |dl| && Leaves(t, freq, dl, maxCode)
    requires n in t.ord
    ensures Leaves(t, freq, dl[n := b], maxCode)
  {
  }

  lemma VisitDone(t: Layout, freq: seq<nat>, dl: seq<nat>, lens: seq<nat>, pending: seq<nat>, max: nat, overflow: nat, i: nat, maxCode: nat)
    requires Visited(t, freq, dl, lens, pending, max, overflow, i) && i + 1 == |t.ord|
    requires Leaves(t, freq, dl, maxCode)
    ensures i == 2 * t.inner
    ensures lens == dl[..t.elems] && Excess(lens, max, overflow)
    ensures forall n :: 0 <= n < t.elems ==> (lens[n] > 0 <==> freq[n] > 0) && lens[n] <= max
    ensures Depths(t, dl, max, i) && (overflow == 0 ==> Unclipped(t, dl, i))
    ensures LeafCount(t.ord, t.elems) + CountLen(lens, 0) == t.elems
  {
    hide Balance, Given, Excess, CountLen;
    assert t.ord[..i + 1] == t.ord;
    NothingPending(lens, pending, max, overflow);
    AllGiven(t, freq, dl, lens, max, maxCode);
  }
}
