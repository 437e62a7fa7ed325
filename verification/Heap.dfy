/** The heap of tree nodes used to build a Huffman tree (pqdownheap). heap[1..len] is the
    heap proper; the sons of heap[n] are heap[2n] and heap[2n+1]. */
module Heap {

  /** SMALLER: by frequency, then by depth. */
  predicate Smaller(freq: seq<nat>, depth: seq<nat>, n: nat, m: nat)
    requires n < |freq| && n < |depth| && m < |freq| && m < |depth|
  {
    freq[n] < freq[m] || (freq[n] == freq[m] && depth[n] <= depth[m])
  }

  ghost predicate InRange(h: seq<nat>, len: nat, freq: seq<nat>, depth: seq<nat>)
  {
    && len < |h|
    && forall i :: 1 <= i <= len ==> h[i] < |freq| && h[i] < |depth|
  }

  /** Every father from position k on is no larger than its sons. */
  ghost predicate Ordered(h: seq<nat>, len: nat, freq: seq<nat>, depth: seq<nat>, k: nat)
    requires InRange(h, len, freq, depth)
  {
    forall j :: 2 <= j <= len && j / 2 >= k ==> Smaller(freq, depth, h[j / 2], h[j])
  }

  /** The nodes in the heap, with multiplicity. */
  ghost function Nodes(h: seq<nat>, len: nat): (m: multiset<nat>)
    requires len < |h|
  {
    multiset(h[1..len + 1])
  }

  lemma SwapKeepsNodes(h: seq<nat>, len: nat, i: nat, j: nat)
    requires 1 <= i <= len < |h| && 1 <= j <= len
    ensures Nodes(h[i := h[j]][j := h[i]], len) == Nodes(h, len)
  {
    var s := h[1..len + 1];
    assert h[i := h[j]][j := h[i]][1..len + 1] == s[i - 1 := s[j - 1]][j - 1 := s[i - 1]];
  }

  /** Ordered from k on except below the hole at p, whose sons are above p's father. */
  ghost predicate AlmostOrdered(h: seq<nat>, len: nat, freq: seq<nat>, depth: seq<nat>, k: nat, p: nat)
    requires InRange(h, len, freq, depth) && 1 <= k <= p
  {
    && (forall j :: 2 <= j <= len && j / 2 >= k && j / 2 != p ==> Smaller(freq, depth, h[j / 2], h[j]))
    && (p / 2 >= k ==> forall j :: 2 <= j <= len && j / 2 == p ==> Smaller(freq, depth, h[p / 2], h[j]))
  }

  /** Moving the smaller son up keeps everything else in order. */
  lemma SiftStep(h: seq<nat>, len: nat, freq: seq<nat>, depth: seq<nat>, k: nat, p: nat, j: nat)
    requires InRange(h, len, freq, depth) && 1 <= k <= p && 2 <= j <= len && j / 2 == p
    requires AlmostOrdered(h, len, freq, depth, k, p)
    requires forall i :: 2 <= i <= len && i / 2 == p ==> Smaller(freq, depth, h[j], h[i])
    requires Smaller(freq, depth, h[j], h[p])
    ensures InRange(h[p := h[j]][j := h[p]], len, freq, depth)
    ensures AlmostOrdered(h[p := h[j]][j := h[p]], len, freq, depth, k, j)
  {
    var h' := h[p := h[j]][j := h[p]];
    forall i | 2 <= i <= len && i / 2 >= k && i / 2 != j
      ensures Smaller(freq, depth, h'[i / 2], h'[i])
    {
      if i / 2 == p {
      } else if i == p {
        assert Smaller(freq, depth, h[p / 2], h[j]);
      } else {
        assert Smaller(freq, depth, h[i / 2], h[i]);
      }
    }
    forall i | 2 <= i <= len && i / 2 == j
      ensures Smaller(freq, depth, h'[j / 2], h'[i])
    {
      assert Smaller(freq, depth, h[i / 2], h[i]);
    }
  }

  lemma SiftDone(h: seq<nat>, len: nat, freq: seq<nat>, depth: seq<nat>, k: nat, p: nat)
    requires InRange(h, len, freq, depth) && 1 <= k <= p
    requires AlmostOrdered(h, len, freq, depth, k, p)
    requires forall i :: 2 <= i <= len && i / 2 == p ==> Smaller(freq, depth, h[p], h[i])
    ensures Ordered(h, len, freq, depth, k)
  {
  }

  method PqDownHeap(heap: array<nat>, len: nat, fc: array<nat>, depth: array<nat>, k: nat)
    requires 1 <= k <= len && heap != fc && heap != depth
    requires InRange(heap[..], len, fc[..], depth[..])
    requires Ordered(heap[..], len, fc[..], depth[..], k + 1)
    modifies heap
    ensures InRange(heap[..], len, fc[..], depth[..])
    ensures Ordered(heap[..], len, fc[..], depth[..], k)
    ensures Nodes(heap[..], len) == old(Nodes(heap[..], len))
    ensures forall i :: 0 <= i < heap.Length && (i < k || i > len) ==> heap[i] == old(heap[i])
  {
    hide Ordered, Nodes, AlmostOrdered;
    var v := heap[k];
    var p := k;
    var j := 2 * k;
    ghost var a: seq<nat>, freq: seq<nat>, deep: seq<nat> := heap[..], fc[..], depth[..];
    SiftStart(a, len, freq, deep, k);
    while j <= len
      invariant k <= p <= len && j == 2 * p
      invariant |a| == heap.Length && heap[..][p := v] == a && a[p] == v
      invariant fc[..] == freq && depth[..] == deep
      invariant InRange(a, len, freq, deep) && AlmostOrdered(a, len, freq, deep, k, p)
      invariant Nodes(a, len) == old(Nodes(heap[..], len))
      invariant forall i :: 0 <= i < heap.Length && (i < k || i > len) ==> a[i] == old(heap[i])
    {
      assert heap[j] == a[j] && (j < len ==> heap[j + 1] == a[j + 1]);
      if j < len && Smaller2(fc, depth, heap[j + 1], heap[j]) {
        j := j + 1;
      }
      assert SonsAbove(a, len, freq, deep, p, j);
      if Smaller2(fc, depth, v, heap[j]) {
        SiftEnd(a, len, freq, deep, k, p, j);
        break;
      }
      SonIsSmallest(a, len, freq, deep, p, j);
      SiftStep(a, len, freq, deep, k, p, j);
      SwapKeepsNodes(a, len, p, j);
      heap[p] := heap[j];
      a := a[p := a[j]][j := v];
      p := j;
      j := 2 * j;
    }
    heap[p] := v;
    assert heap[..] == a;
    if j > len {
      SiftDone(a, len, freq, deep, k, p);
    }
  }

  predicate Smaller2(fc: array<nat>, depth: array<nat>, n: nat, m: nat)
    requires n < fc.Length && n < depth.Length && m < fc.Length && m < depth.Length
    reads fc, depth
  {
    fc[n] < fc[m] || (fc[n] == fc[m] && depth[n] <= depth[m])
  }

  /** j is a son of p and no larger than the other son. */
  ghost predicate SonsAbove(a: seq<nat>, len: nat, freq: seq<nat>, depth: seq<nat>, p: nat, j: nat)
    requires InRange(a, len, freq, depth)
  {
    && 2 <= j <= len && j / 2 == p
    && (2 * p <= len ==> Smaller(freq, depth, a[j], a[2 * p]))
    && (2 * p + 1 <= len ==> Smaller(freq, depth, a[j], a[2 * p + 1]))
  }

  lemma SonIsSmallest(a: seq<nat>, len: nat, freq: seq<nat>, depth: seq<nat>, p: nat, j: nat)
    requires InRange(a, len, freq, depth) && SonsAbove(a, len, freq, depth, p, j)
    ensures forall i :: 2 <= i <= len && i / 2 == p ==> Smaller(freq, depth, a[j], a[i])
  {
    forall i | 2 <= i <= len && i / 2 == p ensures i == 2 * p || i == 2 * p + 1 {
    }
  }

  lemma SiftStart(a: seq<nat>, len: nat, freq: seq<nat>, depth: seq<nat>, k: nat)
    requires InRange(a, len, freq, depth) && k >= 1 && Ordered(a, len, freq, depth, k + 1)
    ensures AlmostOrdered(a, len, freq, depth, k, k)
  {
  }

  lemma SiftEnd(a: seq<nat>, len: nat, freq: seq<nat>, depth: seq<nat>, k: nat, p: nat, j: nat)
    requires InRange(a, len, freq, depth) && 1 <= k <= p <= len && AlmostOrdered(a, len, freq, depth, k, p)
    requires SonsAbove(a, len, freq, depth, p, j) && Smaller(freq, depth, a[p], a[j])
    ensures Ordered(a, len, freq, depth, k)
  {
    SonIsSmallest(a, len, freq, depth, p, j);
    SiftDone(a, len, freq, depth, k, p);
  }

  /** The root of an ordered heap has the least frequency. */
  lemma {:induction false} RootSmallest(h: seq<nat>, len: nat, freq: seq<nat>, depth: seq<nat>, i: nat)
    requires InRange(h, len, freq, depth) && Ordered(h, len, freq, depth, 1) && 1 <= i <= len
    ensures freq[h[1]] <= freq[h[i]]
  {
    if i > 1 {
      RootSmallest(h, len, freq, depth, i / 2);
      assert Smaller(freq, depth, h[i / 2], h[i]);
    }
  }
}
