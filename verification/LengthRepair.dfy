/** gen_bitlen: the lengths of the first pass, repaired if some had to be clipped and then handed out afresh. */
module LengthRepair {
  import opened Bits
  import opened Inflate
  import opened Sums
  import opened Codes
  import opened BitLengths
  import opened TreeCost
  import opened CountRepair

  // ---- a histogram agrees with its lengths ----

  function Histogram(lens: seq<nat>): (c: seq<nat>)
  {
    seq(MAX_BITS + 1, b requires 0 <= b <= MAX_BITS => if b == 0 then 0 else CountLen(lens, b))
  }

  lemma MatchIsHistogram(c: seq<nat>, lens: seq<nat>)
    requires CountsMatch(c, lens)
    ensures c == Histogram(lens)
  {
  }

  lemma {:induction false} HistogramEmpty(max: nat, b: nat)
    requires b <= max <= MAX_BITS
    ensures CountShares(Histogram([]), max, b) == 0 && CountSum(Histogram([]), b) == 0
    decreases b
  {
    if b > 0 {
      HistogramEmpty(max, b - 1);
      ShlZero(max - b);
    }
  }

  /** Shares and number of codes can be read off the histogram. */
  lemma {:induction false} HistogramShares(lens: seq<nat>, max: nat)
    requires 1 <= max <= MAX_BITS && forall i :: 0 <= i < |lens| ==> lens[i] <= max
    ensures CountShares(Histogram(lens), max, max) == Shares(lens, max)
    ensures CountSum(Histogram(lens), max) == |lens| - CountLen(lens, 0)
  {
    hide CountShares, CountSum;
    if lens == [] {
      HistogramEmpty(max, max);
    } else {
      var front, last := lens[..|lens| - 1], lens[|lens| - 1];
      HistogramShares(front, max);
      var c := Histogram(front);
      if last > 0 {
        CountSharesUp(c, max, max, last);
        assert Histogram(lens) == c[last := c[last] + 1];
      } else {
        assert Histogram(lens) == c;
      }
    }
  }

  // ---- the order of the lengths ----

  /** A more frequent symbol never has a longer code. */
  ghost predicate RarerIsLonger(freq: seq<nat>, lens: seq<nat>)
  {
    |lens| <= |freq| && forall n, m :: 0 <= n < |lens| && 0 <= m < |lens| && freq[n] > freq[m] > 0 ==> lens[n] <= lens[m]
  }

  /** A node of greater weight is never deeper: its father then outweighs the other's father. */
  lemma {:induction false} HeavierIsHigher(t: Layout, freq: seq<nat>, dl: seq<nat>, max: nat, a: nat, b: nat)
    requires t.Shape() && t.elems + t.inner <= |dl| && t.elems + t.inner <= |freq| && max >= 1
    requires Weighted(t, freq) && Sorted(t, freq) && Depths(t, dl, max, 2 * t.inner)
    requires a < |t.ord| && b < |t.ord| && freq[t.ord[a]] > freq[t.ord[b]]
    ensures dl[t.ord[a]] <= dl[t.ord[b]]
    decreases b
  {
    hide Weighted;
    assert a < b;
    if a > 0 {
      FatherBefore(t, a, a - 1);
      FatherBefore(t, b, b - 1);
      var f, g := t.Father(a) - t.elems, t.Father(b) - t.elems;
      assert t.ord[t.pos[f]] == t.Father(a) && t.ord[t.pos[g]] == t.Father(b) && t.pos[g] < b;
      if f != g {
        FatherHeavier(t, freq, a, b);
        HeavierIsHigher(t, freq, dl, max, t.pos[f], t.pos[g]);
      }
    }
  }

  lemma FatherHeavier(t: Layout, freq: seq<nat>, a: nat, b: nat)
    requires t.Shape() && t.elems + t.inner <= |freq| && Weighted(t, freq) && Sorted(t, freq)
    requires 0 < a < b < |t.ord| && freq[t.ord[a]] > freq[t.ord[b]] && t.Father(a) != t.Father(b)
    ensures freq[t.Father(a)] > freq[t.Father(b)]
  {
    var f, g := t.Father(a) - t.elems, t.Father(b) - t.elems;
    var s, u := 2 * (t.inner - f) - 1, 2 * (t.inner - g) - 1;
    assert (a == s || a == s + 1) && (b == u || b == u + 1) && s + 1 < u;
    assert SonsWeigh(t, freq, f) && SonsWeigh(t, freq, g);
  }

  lemma DepthsInOrder(t: Layout, freq: seq<nat>, dl: seq<nat>, max: nat, maxCode: nat)
    requires t.Shape() && t.elems + t.inner <= |dl| && t.elems + t.inner <= |freq| && max >= 1
    requires Weighted(t, freq) && Sorted(t, freq) && Depths(t, dl, max, 2 * t.inner) && Leaves(t, freq, dl, maxCode)
    ensures RarerIsLonger(freq, dl[..t.elems])
  {
    hide Layout.Shape, Weighted, Sorted, Depths;
    forall n, m | 0 <= n < t.elems && 0 <= m < t.elems && freq[n] > freq[m] > 0 ensures dl[n] <= dl[m] {
      var a :| 0 <= a < |t.ord| && t.ord[a] == n;
      var b :| 0 <= b < |t.ord| && t.ord[b] == m;
      HeavierIsHigher(t, freq, dl, max, a, b);
    }
  }

  /** The leaves from position i on have lengths of bits or more that grow along the list. */
  ghost predicate Growing(t: Layout, lens: seq<nat>, i: nat, bits: nat)
  {
    && |lens| == t.elems
    && (forall k :: i <= k < |t.ord| && t.ord[k] < t.elems ==> lens[t.ord[k]] >= bits)
    && forall a, b :: i <= a < b < |t.ord| && t.ord[a] < t.elems && t.ord[b] < t.elems ==> lens[t.ord[a]] <= lens[t.ord[b]]
  }

  lemma GrowingLeaf(t: Layout, lens: seq<nat>, i: nat, bits: nat)
    requires t.Shape() && Growing(t, lens, i, bits) && 0 < i <= |t.ord| && t.ord[i - 1] < t.elems
    ensures Growing(t, lens[t.ord[i - 1] := bits], i - 1, bits)
  {
    OthersDiffer(t, i - 1);
  }

  lemma GrowingNode(t: Layout, lens: seq<nat>, i: nat, bits: nat)
    requires Growing(t, lens, i, bits) && 0 < i <= |t.ord| && t.ord[i - 1] >= t.elems
    ensures Growing(t, lens, i - 1, bits)
  {
  }

  lemma GrowingInOrder(t: Layout, freq: seq<nat>, dl: seq<nat>, maxCode: nat)
    requires t.elems <= |dl| && t.elems <= |freq| && Sorted(t, freq) && Leaves(t, freq, dl, maxCode) && Growing(t, dl[..t.elems], 0, 0)
    ensures RarerIsLonger(freq, dl[..t.elems])
  {
    forall n, m | 0 <= n < t.elems && 0 <= m < t.elems && freq[n] > freq[m] > 0 ensures dl[n] <= dl[m] {
      var a :| 0 <= a < |t.ord| && t.ord[a] == n;
      var b :| 0 <= b < |t.ord| && t.ord[b] == m;
      assert a < b;
      assert dl[..t.elems][t.ord[a]] <= dl[..t.elems][t.ord[b]];
    }
  }

  // ---- handing the repaired lengths out ----

  /** Nodes from position i of the list on have their final length, recorded in lens. */
  ghost predicate Handed(t: Layout, freq: seq<nat>, dl: seq<nat>, lens: seq<nat>, max: nat, i: nat)
  {
    && |lens| == t.elems <= |dl| && t.elems <= |freq| && i <= |t.ord|
    && (forall k :: i <= k < |t.ord| && t.ord[k] < t.elems ==> lens[t.ord[k]] == dl[t.ord[k]])
    && (forall k :: 0 <= k < i && t.ord[k] < t.elems ==> lens[t.ord[k]] == 0)
    && (forall n :: 0 <= n < t.elems && freq[n] == 0 ==> lens[n] == 0)
    && (forall n :: 0 <= n < t.elems ==> lens[n] <= max && dl[n] <= max && (dl[n] > 0 <==> freq[n] > 0))
  }

  /** Lengths above bits are used up, n of length bits are still to be given. */
  ghost predicate Remaining(t: Layout, c: seq<nat>, lens: seq<nat>, max: nat, bits: nat, n: nat, i: nat)
  {
    && |c| == MAX_BITS + 1 && bits <= max <= MAX_BITS && i <= |t.ord| && n <= c[bits]
    && (forall b :: bits < b <= MAX_BITS ==> CountLen(lens, b) == c[b])
    && (bits > 0 ==> CountLen(lens, bits) == c[bits] - n)
    && (forall b :: 1 <= b < bits ==> CountLen(lens, b) == 0)
    && LeafCount(t.ord[..i], t.elems) == (if bits == 0 then 0 else CountSum(c, bits - 1) + n)
  }

  lemma HandLeaf(t: Layout, freq: seq<nat>, dl: seq<nat>, lens: seq<nat>, max: nat, i: nat, b: nat)
    requires t.Shape() && Handed(t, freq, dl, lens, max, i) && i > 0 && t.ord[i - 1] < t.elems && 0 < b <= max
    requires freq[t.ord[i - 1]] > 0
    ensures Handed(t, freq, dl[t.ord[i - 1] := b], lens[t.ord[i - 1] := b], max, i - 1)
  {
    OthersDiffer(t, i - 1);
  }

  lemma HandNode(t: Layout, freq: seq<nat>, dl: seq<nat>, lens: seq<nat>, max: nat, i: nat)
    requires Handed(t, freq, dl, lens, max, i) && i > 0 && t.ord[i - 1] >= t.elems
    ensures Handed(t, freq, dl, lens, max, i - 1)
  {
  }

  /** While lengths remain there is an unvisited leaf. */
  lemma LeafAhead(t: Layout, c: seq<nat>, lens: seq<nat>, max: nat, bits: nat, n: nat, i: nat)
    requires Remaining(t, c, lens, max, bits, n, i) && n > 0 && bits > 0
    ensures i > 0
  {
    assert t.ord[..0] == [];
  }

  lemma RemainingLeaf(t: Layout, c: seq<nat>, lens: seq<nat>, max: nat, bits: nat, n: nat, i: nat)
    requires Remaining(t, c, lens, max, bits, n, i) && n > 0 && bits > 0 && i > 0
    requires t.ord[i - 1] < t.elems == |lens| && lens[t.ord[i - 1]] == 0
    ensures Remaining(t, c, lens[t.ord[i - 1] := bits], max, bits, n - 1, i - 1)
  {
    var m := t.ord[i - 1];
    assert t.ord[..i][..i - 1] == t.ord[..i - 1];
    var lens' := lens[m := bits];
    forall b | 1 <= b <= MAX_BITS ensures CountLen(lens', b) == CountLen(lens, b) + Hit(bits, b) {
      CountUpdate(lens, m, bits, b);
    }
    forall b | 1 <= b < bits ensures CountLen(lens', b) == 0 {
      assert CountLen(lens, b) == 0;
    }
  }

  lemma RemainingNode(t: Layout, c: seq<nat>, lens: seq<nat>, max: nat, bits: nat, n: nat, i: nat)
    requires Remaining(t, c, lens, max, bits, n, i) && i > 0 && t.ord[i - 1] >= t.elems
    ensures Remaining(t, c, lens, max, bits, n, i - 1)
  {
    assert t.ord[..i][..i - 1] == t.ord[..i - 1];
  }

  lemma RemainingNext(t: Layout, c: seq<nat>, lens: seq<nat>, max: nat, bits: nat, i: nat)
    requires Remaining(t, c, lens, max, bits, 0, i) && bits > 0 && c[0] == 0
    ensures Remaining(t, c, lens, max, bits - 1, if bits == 1 then 0 else c[bits - 1], i)
  {
  }

  /** Once every length has been given out, the list of lengths is complete. */
  lemma HandedAll(t: Layout, freq: seq<nat>, dl: seq<nat>, lens: seq<nat>, c: seq<nat>, max: nat, i: nat, maxCode: nat)
    requires Handed(t, freq, dl, lens, max, i) && Remaining(t, c, lens, max, 0, 0, i)
    requires Leaves(t, freq, dl, maxCode) && c[0] == 0
    ensures lens == dl[..t.elems] && CountsMatch(c, lens)
  {
    var prefix := t.ord[..i];
    NoLeaves(prefix, t.elems);
    assert forall k :: 0 <= k < i ==> t.ord[k] == prefix[k];
    forall n | 0 <= n < t.elems ensures lens[n] == dl[n] {
      if freq[n] > 0 {
        var k :| 0 <= k < |t.ord| && t.ord[k] == n;
      }
    }
  }

  lemma {:induction false} NoLeaves(ord: seq<nat>, elems: nat)
    requires LeafCount(ord, elems) == 0
    ensures forall k :: 0 <= k < |ord| ==> ord[k] >= elems
  {
    if ord != [] {
      NoLeaves(ord[..|ord| - 1], elems);
    }
  }

  /** The last loop of gen_bitlen: the least frequent leaves get the longest codes. */
  method Reassign(heap: array<nat>, heapMax: nat, fc: array<nat>, dl: array<nat>, desc: Desc, maxCode: nat,
                  blCount: array<nat>, start: int, ghost t: Layout)
      returns (opt: int)
    requires desc.Valid() && t.Shape() && t.elems == desc.elems
    requires heap.Length == HEAP_SIZE && heapMax <= HEAP_SIZE && heap[heapMax..] == t.ord
    requires fc.Length == dl.Length && t.elems + t.inner <= dl.Length
    requires dl != fc && dl != heap && dl != blCount
    requires Leaves(t, fc[..], dl[..], maxCode)
    requires forall n :: 0 <= n < t.elems ==> dl[n] <= desc.maxLength && (dl[n] > 0 <==> fc[n] > 0)
    requires Repairing(blCount[..], desc.maxLength, 0, LeafCount(t.ord, t.elems))
    requires forall b :: desc.maxLength < b <= MAX_BITS ==> blCount[b] == 0
    requires start == Cost(fc[..], dl[..t.elems], Extras(desc))
    modifies dl
    ensures Leaves(t, fc[..], dl[..], maxCode)
    ensures forall n :: 0 <= n < t.elems ==> (dl[n] > 0 <==> fc[n] > 0) && dl[n] <= desc.maxLength
    ensures CountsMatch(blCount[..], dl[..t.elems])
    ensures opt == Cost(fc[..], dl[..t.elems], Extras(desc))
    ensures Growing(t, dl[..t.elems], 0, 0)
  {
    GrowingNone(t);
    hide Growing;
    hide Layout.Shape, Leaves, Cost, CountLen, CountShares, CountSum, LeafCount, Handed, Remaining, CountsMatch, Repairing;
    assert blCount.Length == MAX_BITS + 1 && desc.maxLength <= MAX_BITS by { RepairingBounds(blCount[..], desc.maxLength, 0, LeafCount(t.ord, t.elems)); }
    opt := start;
    var max := desc.maxLength;
    ghost var freq: seq<nat>, c: seq<nat>, lens: seq<nat> := fc[..], blCount[..], Zeros(t.elems);
    HandStart(t, freq, dl[..], max, c, maxCode);
    var h := HEAP_SIZE;
    var bits := max;
    while bits != 0
      invariant 0 <= bits <= max && heapMax <= h <= HEAP_SIZE
      invariant fc[..] == freq && blCount[..] == c
      invariant Leaves(t, freq, dl[..], maxCode)
      invariant Handed(t, freq, dl[..], lens, max, h - heapMax)
      invariant Growing(t, lens, h - heapMax, bits)
      invariant Remaining(t, c, lens, max, bits, if bits == 0 then 0 else c[bits], h - heapMax)
      invariant opt == Cost(freq, dl[..t.elems], Extras(desc))
    {
      h, opt, lens := HandOut(heap, heapMax, fc, dl, desc, maxCode, bits, blCount[bits], h, opt, t, c, lens);
      RemainingNext(t, c, lens, max, bits, h - heapMax);
      GrowingNext(t, lens, h - heapMax, bits);
      bits := bits - 1;
    }
    HandedAll(t, freq, dl[..], lens, c, max, h - heapMax, maxCode);
    HandedBounds(t, freq, dl[..], lens, max, h - heapMax);
    GrowingAll(t, c, lens, max, h - heapMax);
  }

  lemma GrowingNone(t: Layout)
    ensures forall bits :: Growing(t, Zeros(t.elems), |t.ord|, bits)
  {
  }

  lemma GrowingNext(t: Layout, lens: seq<nat>, i: nat, bits: nat)
    requires Growing(t, lens, i, bits) && bits > 0
    ensures Growing(t, lens, i, bits - 1)
  {
  }

  /** When all lengths are given out no leaf is left. */
  lemma GrowingAll(t: Layout, c: seq<nat>, lens: seq<nat>, max: nat, i: nat)
    requires Growing(t, lens, i, 0) && Remaining(t, c, lens, max, 0, 0, i)
    ensures Growing(t, lens, 0, 0)
  {
    NoLeaves(t.ord[..i], t.elems);
    assert forall k :: 0 <= k < i ==> t.ord[k] == t.ord[..i][k];
  }

  /** Gives the length bits to the next count leaves below h. */
  method HandOut(heap: array<nat>, heapMax: nat, fc: array<nat>, dl: array<nat>, desc: Desc, maxCode: nat,
                 bits: nat, count: nat, h0: nat, start: int, ghost t: Layout, ghost c: seq<nat>, ghost lens0: seq<nat>)
      returns (h: nat, opt: int, ghost lens: seq<nat>)
    requires desc.Valid() && t.Shape() && t.elems == desc.elems
    requires heap.Length == HEAP_SIZE && heapMax <= h0 <= HEAP_SIZE && heap[heapMax..] == t.ord
    requires fc.Length == dl.Length && t.elems + t.inner <= dl.Length && dl != fc && dl != heap
    requires Leaves(t, fc[..], dl[..], maxCode) && 0 < bits <= desc.maxLength
    requires Handed(t, fc[..], dl[..], lens0, desc.maxLength, h0 - heapMax)
    requires Remaining(t, c, lens0, desc.maxLength, bits, count, h0 - heapMax) && Growing(t, lens0, h0 - heapMax, bits)
    requires start == Cost(fc[..], dl[..t.elems], Extras(desc))
    modifies dl
    ensures heapMax <= h <= HEAP_SIZE
    ensures Leaves(t, fc[..], dl[..], maxCode)
    ensures Handed(t, fc[..], dl[..], lens, desc.maxLength, h - heapMax)
    ensures Remaining(t, c, lens, desc.maxLength, bits, 0, h - heapMax) && Growing(t, lens, h - heapMax, bits)
    ensures opt == Cost(fc[..], dl[..t.elems], Extras(desc))
  {
    hide Layout.Shape, Leaves, Cost, Handed, Remaining, Growing;
    ghost var freq: seq<nat>, max := fc[..], desc.maxLength;
    h, opt, lens := h0, start, lens0;
    var n := count;
    while n != 0
      invariant heapMax <= h <= HEAP_SIZE && fc[..] == freq
      invariant Leaves(t, freq, dl[..], maxCode)
      invariant Handed(t, freq, dl[..], lens, max, h - heapMax)
      invariant Remaining(t, c, lens, max, bits, n, h - heapMax) && Growing(t, lens, h - heapMax, bits)
      invariant opt == Cost(freq, dl[..t.elems], Extras(desc))
      decreases h
    {
      LeafAhead(t, c, lens, max, bits, n, h - heapMax);
      ghost var i := h - heapMax;
      h := h - 1;
      var m := heap[h];
      assert m == t.ord[i - 1];
      HandNext(t, freq, dl[..], lens, max, i, maxCode);
      if m > maxCode {
        HandNode(t, freq, dl[..], lens, max, i);
        RemainingNode(t, c, lens, max, bits, n, i);
        GrowingNode(t, lens, i, bits);
        continue;
      }
      ghost var before: seq<nat> := dl[..];
      HandLeaf(t, freq, before, lens, max, i, bits);
      RemainingLeaf(t, c, lens, max, bits, n, i);
      GrowingLeaf(t, lens, i, bits);
      LeavesKept(t, freq, before, m, bits, maxCode);
      CostUpdate(freq, before[..t.elems], Extras(desc), m, bits);
      Regroup(freq[m], bits, before[m], Extras(desc)[m]);
      if dl[m] != bits {
        opt := opt + (bits - dl[m]) * fc[m];
        dl[m] := bits;
      }
      assert dl[..] == before[m := bits];
      assert dl[..t.elems] == before[..t.elems][m := bits];
      lens := lens[m := bits];
      n := n - 1;
    }
  }

  lemma Regroup(f: nat, b: nat, a: nat, x: nat)
    ensures Bill(f, b + x) - Bill(f, a + x) == (b - a) * f
  {
  }

  lemma HandStart(t: Layout, freq: seq<nat>, dl: seq<nat>, max: nat, c: seq<nat>, maxCode: nat)
    requires t.Shape() && t.elems <= |dl| == |freq|
    requires Leaves(t, freq, dl, maxCode)
    requires forall n :: 0 <= n < t.elems ==> dl[n] <= max && (dl[n] > 0 <==> freq[n] > 0)
    requires Repairing(c, max, 0, LeafCount(t.ord, t.elems))
    requires forall b :: max < b <= MAX_BITS ==> c[b] == 0
    ensures Handed(t, freq, dl, Zeros(t.elems), max, |t.ord|)
    ensures Remaining(t, c, Zeros(t.elems), max, max, c[max], |t.ord|)
    ensures c[0] == 0
  {
    hide LeafCount;
    var lens: seq<nat> := Zeros(t.elems);
    forall b: nat | 1 <= b ensures CountLen(lens, b) == 0 {
      CountAbsent(lens, b);
    }
    assert t.ord[..|t.ord|] == t.ord;
  }

  lemma HandNext(t: Layout, freq: seq<nat>, dl: seq<nat>, lens: seq<nat>, max: nat, i: nat, maxCode: nat)
    requires t.Shape() && Handed(t, freq, dl, lens, max, i) && i > 0 && Leaves(t, freq, dl, maxCode)
    requires t.elems + t.inner <= |dl|
    ensures var m := t.ord[i - 1];
            && m < |dl| && |lens| == t.elems && (m <= maxCode <==> m < t.elems) && m in t.ord
            && (m < t.elems ==> freq[m] > 0 && lens[m] == 0 && dl[m] > 0)
  {
  }

  lemma HandedBounds(t: Layout, freq: seq<nat>, dl: seq<nat>, lens: seq<nat>, max: nat, i: nat)
    requires Handed(t, freq, dl, lens, max, i)
    ensures forall n :: 0 <= n < t.elems ==> (dl[n] > 0 <==> freq[n] > 0) && dl[n] <= max
  {
  }

  // ---- gen_bitlen as a whole ----

  /** The clipped lengths are in need of repair by half the overflow. */
  lemma RepairStarts(lens: seq<nat>, c: seq<nat>, max: nat, overflow: nat, codes: nat)
    requires Excess(lens, max, overflow) && CountsMatch(c, lens) && 1 <= max <= MAX_BITS
    requires forall i :: 0 <= i < |lens| ==> lens[i] <= max
    requires codes + CountLen(lens, 0) == |lens| <= Pow2(max)
    ensures Repairing(c, max, overflow, codes)
    ensures forall b :: max < b <= MAX_BITS ==> c[b] == 0
  {
    HistogramShares(lens, max);
    MatchIsHistogram(c, lens);
    forall b | max < b <= MAX_BITS ensures c[b] == 0 {
      CountAbsent(lens, b);
    }
  }

  /** A histogram that fills the code space exactly makes its lengths a complete code. */
  lemma FullIsComplete(lens: seq<nat>, max: nat)
    requires Shares(lens, max) == Pow2(max) && 1 <= max <= MAX_BITS
    requires forall i :: 0 <= i < |lens| ==> lens[i] <= max
    ensures Complete(lens)
  {
    hide Shl, Pow2, Kraft, Shares;
    SharesIsKraft(lens, max);
    Pow2IsShl(max);
    ShlShl(1, max, MAX_BITS - max);
    Pow2IsShl(MAX_BITS);
  }

  lemma RepairedIsComplete(lens: seq<nat>, c: seq<nat>, max: nat, codes: nat)
    requires Repairing(c, max, 0, codes) && CountsMatch(c, lens)
    requires forall i :: 0 <= i < |lens| ==> lens[i] <= max
    ensures Complete(lens)
  {
    HistogramShares(lens, max);
    MatchIsHistogram(c, lens);
    FullIsComplete(lens, max);
  }

  /** Code lengths for a finished tree: a complete code of at most max_length bits for
      exactly the used symbols, its histogram, and the bits it costs. A more frequent symbol never
      gets a longer code, and after an overflow the lengths up to k keep their numbers of codes exactly
      as long as the longer ones have room for all the rounds; `first` are the clipped depths. */
  method GenBitlen(heap: array<nat>, heapMax: nat, fc: array<nat>, dl: array<nat>, desc: Desc, maxCode: nat,
                   blCount: array<nat>, ghost t: Layout)
      returns (opt: int, stat: nat, overflow: nat, ghost first: seq<nat>)
    requires desc.Valid() && t.Shape() && t.elems == desc.elems
    requires heap.Length == HEAP_SIZE && heapMax <= HEAP_SIZE && heap[heapMax..] == t.ord
    requires fc.Length == dl.Length && t.elems + t.inner <= dl.Length && blCount.Length == MAX_BITS + 1
    requires dl != fc && dl != heap && blCount != fc && blCount != heap && blCount != dl
    requires Dads(t, dl[..], 0) && Leaves(t, fc[..], dl[..], maxCode) && Weighted(t, fc[..]) && Sorted(t, fc[..])
    modifies dl, blCount
    ensures Complete(dl[..t.elems])
    ensures forall n :: 0 <= n < t.elems ==> (dl[n] > 0 <==> fc[n] > 0) && dl[n] <= desc.maxLength
    ensures CountsMatch(blCount[..], dl[..t.elems])
    ensures opt == Cost(fc[..], dl[..t.elems], Extras(desc))
    ensures stat == StaticCost(fc[..], dl[..t.elems], Imposed(desc))
    ensures overflow == 0 ==> Unclipped(t, dl[..], 2 * t.inner) && dl[t.ord[0]] == 0
    ensures Leaves(t, fc[..], dl[..], maxCode)
    ensures RarerIsLonger(fc[..], dl[..t.elems])
    ensures |first| == dl.Length && Depths(t, first, desc.maxLength, 2 * t.inner)
    ensures forall k :: 1 <= k < desc.maxLength ==> KeptAsRoom(first[..t.elems], dl[..t.elems], desc.maxLength, overflow, k)
  {
    hide Layout.Shape, Dads, Leaves, Depths, Unclipped, Excess, Cost, StaticCost, CountLen, CountsMatch, Repairing, Complete, LeafCount, Shares;
    hide Weighted, Sorted, RarerIsLonger, Growing, Room, Rounds, Histogram;
    var clipped: nat;
    overflow, clipped, stat := FirstPass(heap, heapMax, fc, dl, desc, maxCode, blCount, t);
    opt := clipped;
    first := dl[..];
    ghost var max, lens: seq<nat>, codes := desc.maxLength, dl[..t.elems], LeafCount(t.ord, t.elems);
    DepthsInOrder(t, fc[..], first, max, maxCode);
    ghost var c: seq<nat> := blCount[..];
    MatchIsHistogram(c, lens);
    assert first[..t.elems] == lens;
    RepairStarts(lens, blCount[..], max, overflow, codes);
    if overflow == 0 {
      RepairedIsComplete(lens, blCount[..], max, codes);
      RootDepth(t, dl[..], max);
      return;
    }
    Repair(blCount, desc.maxLength, overflow, codes);
    opt := Reassign(heap, heapMax, fc, dl, desc, maxCode, blCount, opt, t);
    RepairedIsComplete(dl[..t.elems], blCount[..], max, codes);
    SameUsed(fc[..], lens, dl[..t.elems], Imposed(desc));
    GrowingInOrder(t, fc[..], dl[..], maxCode);
    forall k | 1 <= k < max ensures KeptAsRoom(lens, dl[..t.elems], max, overflow, k) {
      RepairKeeps(c, lens, dl[..t.elems], max, overflow, codes, k);
    }
  }

  /** The lengths up to k keep their numbers of codes exactly as long as the longer ones have room for all rounds. */
  ghost predicate KeptAsRoom(first: seq<nat>, lens: seq<nat>, max: nat, overflow: nat, k: nat)
    requires 1 <= k < max <= MAX_BITS
  {
    overflow / 2 <= Room(Histogram(first), max, k, max - 1) <==> forall b :: 1 <= b <= k ==> CountLen(lens, b) == CountLen(first, b)
  }

  /** What the rounds leave of the histogram. */
  lemma RepairKeeps(c: seq<nat>, lens: seq<nat>, lens': seq<nat>, max: nat, overflow: nat, codes: nat, k: nat)
    requires Repairing(c, max, overflow, codes) && CountsMatch(c, lens) && CountsMatch(Rounds(c, max, overflow / 2), lens')
    requires 1 <= k < max <= MAX_BITS
    ensures KeptAsRoom(lens, lens', max, overflow, k)
  {
    hide Repairing, Room, Rounds, CountLen;
    MatchIsHistogram(c, lens);
    var c' := Rounds(c, max, overflow / 2);
    CountsKept(c, max, overflow, codes, k);
    assert forall b :: 1 <= b <= k ==> c'[b] == CountLen(lens', b) && c[b] == CountLen(lens, b);
  }

  lemma RootDepth(t: Layout, dl: seq<nat>, max: nat)
    requires t.Shape() && t.elems + t.inner <= |dl| && Depths(t, dl, max, 2 * t.inner)
    ensures |t.ord| > 0 && t.ord[0] < |dl| && dl[t.ord[0]] == 0
  {
  }

  lemma {:induction false} SameUsed(freq: seq<nat>, a: seq<nat>, b: seq<nat>, imposed: seq<nat>)
    requires |a| == |b| <= |freq| && |a| <= |imposed|
    requires forall n :: 0 <= n < |a| ==> (a[n] == 0 <==> b[n] == 0)
    ensures StaticCost(freq, a, imposed) == StaticCost(freq, b, imposed)
    decreases |a|
  {
    if a != [] {
      SameUsed(freq, a[..|a| - 1], b[..|b| - 1], imposed);
    }
  }
}
