/** build_tree: from symbol frequencies to a complete, optimal, canonical prefix code. */
module BuildTree {
  import opened Bits
  import opened Inflate
  import opened Sums
  import opened Codes
  import opened BitLengths
  import opened LengthRepair
  import opened TreeCost
  import opened Optimality
  import opened Forest
  import opened Heap

  // ---- the used symbols ----

  /** Symbols below n with a non-zero frequency. */
  function LeafSet(freq: seq<nat>, n: nat): (m: multiset<nat>)
    requires n <= |freq|
  {
    if n == 0 then multiset{} else LeafSet(freq, n - 1) + (if freq[n - 1] > 0 then multiset{n - 1} else multiset{})
  }

  lemma {:induction false} LeafSetHas(freq: seq<nat>, n: nat)
    requires n <= |freq|
    ensures forall x: nat :: LeafSet(freq, n)[x] == if x < n && freq[x] > 0 then 1 else 0
    ensures |LeafSet(freq, n)| <= n
  {
    if n > 0 {
      LeafSetHas(freq, n - 1);
    }
  }

  lemma {:induction false} LeafSetForce(freq: seq<nat>, n: nat, k: nat)
    requires k < n <= |freq| && freq[k] == 0
    ensures LeafSet(freq[k := 1], n) == LeafSet(freq, n) + multiset{k}
  {
    if k == n - 1 {
      LeafSetSame(freq, freq[k := 1], n - 1);
    } else {
      LeafSetForce(freq, n - 1, k);
    }
  }

  lemma {:induction false} LeafSetSame(freq: seq<nat>, freq': seq<nat>, n: nat)
    requires n <= |freq| && n <= |freq'| && forall x :: 0 <= x < n ==> freq[x] == freq'[x]
    ensures LeafSet(freq, n) == LeafSet(freq', n)
  {
    if n > 0 {
      LeafSetSame(freq, freq', n - 1);
    }
  }

  /** The heap holds the used symbols below n; unused ones have length 0. */
  ghost predicate Filled(h: seq<nat>, len: nat, freq: seq<nat>, dl: seq<nat>, n: nat, maxCode: int)
  {
    && n <= |freq| && n <= |dl| && len < |h| && -1 <= maxCode < n
    && Nodes(h, len) == LeafSet(freq, n) && len <= n
    && (forall x :: 0 <= x < n && freq[x] == 0 ==> dl[x] == 0)
    && (forall x :: 0 <= x < n && freq[x] > 0 ==> x <= maxCode)
    && (maxCode >= 0 ==> freq[maxCode] > 0)
  }

  lemma NodesPush(h: seq<nat>, len: nat, x: nat)
    requires len + 1 < |h|
    ensures Nodes(h[len + 1 := x], len + 1) == Nodes(h, len) + multiset{x}
  {
    assert h[len + 1 := x][1..len + 2] == h[1..len + 1] + [x];
  }

  /** The first loop of build_tree. */
  method FillHeap(fc: array<nat>, dl: array<nat>, heap: array<nat>, depth: array<nat>, elems: nat)
      returns (len: nat, maxCode: int)
    requires elems < fc.Length == dl.Length && elems < heap.Length && elems < depth.Length
    requires fc != dl && fc != heap && fc != depth && dl != heap && dl != depth && heap != depth
    modifies dl, heap, depth
    ensures Filled(heap[..], len, fc[..], dl[..], elems, maxCode)
  {
    hide Nodes;
    len, maxCode := 0, -1;
    NodesNone(heap[..]);
    var n := 0;
    while n < elems
      invariant 0 <= n <= elems
      invariant Filled(heap[..], len, fc[..], dl[..], n, maxCode)
    {
      ghost var h: seq<nat> := heap[..];
      if fc[n] != 0 {
        NodesPush(h, len, n);
        len := len + 1;
        heap[len] := n;
        assert heap[..] == h[len := n];
        maxCode := n;
        depth[n] := 0;
      } else {
        dl[n] := 0;
      }
      n := n + 1;
    }
  }

  lemma NodesNone(h: seq<nat>)
    requires |h| > 0
    ensures Nodes(h, 0) == multiset{}
  {
    assert h[1..1] == [];
  }

  lemma NodesCount(h: seq<nat>, len: nat)
    requires len < |h|
    ensures |Nodes(h, len)| == len
  {
  }

  /** With fewer than two symbols in the heap, the symbol chosen to be forced is unused. */
  lemma ForcedUnused(h: seq<nat>, len: nat, freq: seq<nat>, dl: seq<nat>, elems: nat, maxCode: int)
    requires Filled(h, len, freq, dl, elems, maxCode) && len < 2 && elems >= 3
    ensures -1 <= maxCode < elems <= |freq|
    ensures maxCode < 2 ==> freq[maxCode + 1] == 0
    ensures maxCode >= 2 ==> freq[0] == 0
  {
    NodesCount(h, len);
    LeafSetHas(freq, elems);
    if maxCode >= 2 && freq[0] > 0 {
      AtLeastTwo(freq, elems, 0, maxCode);
    }
  }

  lemma AtLeastTwo(freq: seq<nat>, elems: nat, a: nat, b: nat)
    requires a < elems && b < elems <= |freq| && a != b && freq[a] > 0 && freq[b] > 0
    ensures |LeafSet(freq, elems)| >= 2
  {
    LeafSetHas(freq, elems);
    var two := multiset{a, b};
    assert two <= LeafSet(freq, elems);
    assert |two| == 2;
    assert |LeafSet(freq, elems) - two| == |LeafSet(freq, elems)| - 2;
  }

  /** Frequencies after forcing: new symbols, below 3, have frequency 1. */
  ghost predicate ForcedFrom(freq: seq<nat>, freq': seq<nat>, elems: nat)
  {
    && |freq| == |freq'| && elems <= |freq|
    && forall x :: 0 <= x < |freq| ==> freq'[x] == freq[x] || (x < 3 && x < elems && freq[x] == 0 && freq'[x] == 1)
  }

  /** How many symbols were forced, and the static bits they were charged. */
  function ForcedCount(freq: seq<nat>, freq': seq<nat>, n: nat): (c: nat)
    requires n <= |freq| && n <= |freq'|
  {
    if n == 0 then 0 else ForcedCount(freq, freq', n - 1) + (if freq[n - 1] == 0 && freq'[n - 1] > 0 then 1 else 0)
  }

  function ForcedStatic(freq: seq<nat>, freq': seq<nat>, imposed: seq<nat>, n: nat): (c: nat)
    requires n <= |freq| && n <= |freq'| && n <= |imposed|
  {
    if n == 0 then 0
    else ForcedStatic(freq, freq', imposed, n - 1) + (if freq[n - 1] == 0 && freq'[n - 1] > 0 then imposed[n - 1] else 0)
  }

  lemma {:induction false} ForceOne(freq: seq<nat>, freq': seq<nat>, imposed: seq<nat>, n: nat, k: nat)
    requires n <= |freq| == |freq'| && n <= |imposed| && k < n && freq[k] == 0 && freq'[k] == 0
    ensures ForcedCount(freq, freq'[k := 1], n) == ForcedCount(freq, freq', n) + 1
    ensures ForcedStatic(freq, freq'[k := 1], imposed, n) == ForcedStatic(freq, freq', imposed, n) + imposed[k]
    decreases n
  {
    if k == n - 1 {
      ForceSame(freq, freq', freq'[k := 1], imposed, n - 1);
    } else {
      ForceOne(freq, freq', imposed, n - 1, k);
    }
  }

  lemma {:induction false} ForceSame(freq: seq<nat>, a: seq<nat>, b: seq<nat>, imposed: seq<nat>, n: nat)
    requires n <= |freq| && n <= |a| && n <= |b| && n <= |imposed| && forall x :: 0 <= x < n ==> a[x] == b[x]
    ensures ForcedCount(freq, a, n) == ForcedCount(freq, b, n)
    ensures ForcedStatic(freq, a, imposed, n) == ForcedStatic(freq, b, imposed, n)
    decreases n
  {
    if n > 0 {
      ForceSame(freq, a, b, imposed, n - 1);
    }
  }

  lemma {:induction false} ForceNone(freq: seq<nat>, imposed: seq<nat>, n: nat)
    requires n <= |freq| && n <= |imposed|
    ensures ForcedCount(freq, freq, n) == 0 && ForcedStatic(freq, freq, imposed, n) == 0
    decreases n
  {
    if n > 0 {
      ForceNone(freq, imposed, n - 1);
    }
  }

  lemma ImposedLow(desc: Desc, n: nat)
    requires desc.Valid() && n < 3
    ensures desc.Extra(n) == 0
    ensures Imposed(desc)[n] == if desc.staticLens == [] then 0 else desc.Static(n)
  {
  }

  /** The frequencies with len symbols in the heap, when there were len0 at first. */
  function Forced(freq: seq<nat>, len0: nat, maxCode0: int, len: nat): (freq': seq<nat>)
    requires |freq| > 2 && -1 <= maxCode0
  {
    if len <= len0 then freq
    else if len0 == 1 then freq[(if maxCode0 < 2 then maxCode0 + 1 else 0) := 1]
    else if len == 1 then freq[0 := 1] else freq[0 := 1][1 := 1]
  }

  /** Only symbol 1 is in use. */
  ghost predicate OnlyOne(freq: seq<nat>, elems: nat)
    requires elems <= |freq|
  {
    forall x :: 0 <= x < elems ==> (freq[x] > 0 <==> x == 1)
  }

  lemma OneUsed(freq: seq<nat>, elems: nat)
    requires 3 <= elems <= |freq| && OnlyOne(freq, elems)
    ensures |LeafSet(freq, elems)| == 1
  {
    LeafSetHas(freq, elems);
    forall x: nat ensures LeafSet(freq, elems)[x] == multiset{1 as nat}[x] {
    }
    assert LeafSet(freq, elems) == multiset{1 as nat};
  }

  lemma NoneInHeap(h: seq<nat>, len: nat, freq: seq<nat>, dl: seq<nat>, elems: nat, maxCode: int)
    requires Filled(h, len, freq, dl, elems, maxCode)
    ensures -1 <= maxCode && (len == 0 ==> maxCode == -1)
    ensures |freq| > 2 ==> Forced(freq, len, maxCode, len) == freq
  {
    NodesCount(h, len);
    LeafSetHas(freq, elems);
  }

  /** A forced symbol is 0 or 1, or 2 exactly when symbol 1 alone is in use. */
  lemma TwoForced(h: seq<nat>, len0: nat, freq: seq<nat>, dl: seq<nat>, elems: nat, maxCode0: int, len: nat)
    requires Filled(h, len0, freq, dl, elems, maxCode0) && elems >= 3 && len >= 2
    ensures Forced(freq, len0, maxCode0, len)[2] != freq[2] <==> OnlyOne(freq, elems)
  {
    NodesCount(h, len0);
    LeafSetHas(freq, elems);
    forall a, b | 0 <= a < b < elems && freq[a] > 0 && freq[b] > 0 ensures len0 >= 2 {
      AtLeastTwo(freq, elems, a, b);
    }
    if OnlyOne(freq, elems) {
      OneUsed(freq, elems);
    }
  }

  /** An unused symbol gets frequency 1 and enters the heap. */
  method ForceSymbol(fc: array<nat>, dl: array<nat>, heap: array<nat>, depth: array<nat>, elems: nat, len: nat, ghost maxCode: int, forced: nat)
    requires elems <= fc.Length && elems <= dl.Length && elems < heap.Length && elems <= depth.Length && len < elems
    requires fc != dl && fc != heap && fc != depth && dl != heap && dl != depth && heap != depth
    requires Filled(heap[..], len, fc[..], dl[..], elems, maxCode) && forced < elems && fc[forced] == 0
    modifies fc, heap, depth
    ensures Filled(heap[..], len + 1, fc[..], dl[..], elems, if forced > maxCode then forced else maxCode)
    ensures fc[..] == old(fc[..])[forced := 1]
  {
    hide Nodes, LeafSet;
    ghost var h: seq<nat>, freq: seq<nat> := heap[..], fc[..];
    LeafSetForce(freq, elems, forced);
    NodesPush(h, len, forced);
    heap[len + 1] := forced;
    assert heap[..] == h[len + 1 := forced];
    fc[forced] := 1;
    assert fc[..] == freq[forced := 1];
    depth[forced] := 0;
  }

  lemma ForcedNext(freq: seq<nat>, len0: nat, maxCode0: int, len: nat, maxCode: int, forced: nat)
    requires |freq| > 2 && -1 <= maxCode0 && len0 <= len < 2 && (len0 == 0 ==> maxCode0 == -1)
    requires if len == len0 then maxCode == maxCode0 else len0 == 0 && len == 1 ==> maxCode == 0
    requires forced == if maxCode < 2 then maxCode + 1 else 0
    ensures Forced(freq, len0, maxCode0, len0) == freq && |Forced(freq, len0, maxCode0, len)| == |freq|
    ensures Forced(freq, len0, maxCode0, len + 1) == Forced(freq, len0, maxCode0, len)[forced := 1]
  {
  }

  /** The forced symbols are charged: one bit each, and their bits in the static tree. */
  ghost predicate Charged(freq0: seq<nat>, freq: seq<nat>, desc: Desc, opt: int, stat: int, len: nat)
    requires desc.Valid()
  {
    && ForcedFrom(freq0, freq, desc.elems) && opt == 0 - ForcedCount(freq0, freq, desc.elems)
    && stat == 0 - ForcedStatic(freq0, freq, Imposed(desc), desc.elems)
    && (ForcedCount(freq0, freq, desc.elems) > 0 ==> len <= 2)
  }

  lemma ChargeNone(freq: seq<nat>, desc: Desc, len: nat)
    requires desc.Valid() && desc.elems <= |freq|
    ensures Charged(freq, freq, desc, 0, 0, len)
  {
    ForceNone(freq, Imposed(desc), desc.elems);
  }

  lemma ChargeOne(freq0: seq<nat>, freq: seq<nat>, desc: Desc, opt: int, stat: int, len: nat, k: nat)
    requires desc.Valid() && Charged(freq0, freq, desc, opt, stat, len) && len < 2 && k < 3 && freq[k] == 0
    ensures Charged(freq0, freq[k := 1], desc, opt - 1, if desc.staticLens == [] then stat else stat - desc.Static(k), len + 1)
  {
    hide ForcedCount, ForcedStatic, Imposed;
    ForceOne(freq0, freq, Imposed(desc), desc.elems, k);
    ImposedLow(desc, k);
  }

  /** At least two codes of non-zero frequency are forced to exist. */
  method ForceCodes(fc: array<nat>, dl: array<nat>, heap: array<nat>, depth: array<nat>, desc: Desc, len0: nat, maxCode0: int)
      returns (len: nat, maxCode: int, opt: int, stat: int)
    requires desc.Valid() && desc.elems < fc.Length == dl.Length && desc.elems < heap.Length && desc.elems < depth.Length
    requires fc != dl && fc != heap && fc != depth && dl != heap && dl != depth && heap != depth
    requires Filled(heap[..], len0, fc[..], dl[..], desc.elems, maxCode0)
    modifies fc, heap, depth
    ensures Filled(heap[..], len, fc[..], dl[..], desc.elems, maxCode) && len >= 2
    ensures Charged(old(fc[..]), fc[..], desc, opt, stat, len)
    ensures -1 <= maxCode0 && fc[..] == Forced(old(fc[..]), len0, maxCode0, len)
  {
    NoneInHeap(heap[..], len0, fc[..], dl[..], desc.elems, maxCode0);
    hide Nodes, Imposed, ForcedCount, ForcedStatic, LeafSet, OnlyOne, Filled, Charged, Forced;
    len, maxCode, opt, stat := len0, maxCode0, 0, 0;
    ghost var freq0: seq<nat> := fc[..];
    ChargeNone(freq0, desc, len);
    while len < 2
      invariant Filled(heap[..], len, fc[..], dl[..], desc.elems, maxCode)
      invariant Charged(freq0, fc[..], desc, opt, stat, len)
      invariant len >= len0 && fc[..] == Forced(freq0, len0, maxCode0, len)
      invariant if len == len0 then maxCode == maxCode0 else len0 == 0 && len == 1 ==> maxCode == 0
      decreases 2 - len
    {
      ghost var freq: seq<nat>, before := fc[..], maxCode;
      ForcedUnused(heap[..], len, freq, dl[..], desc.elems, maxCode);
      var forced := 0;
      if maxCode < 2 {
        maxCode := maxCode + 1;
        forced := maxCode;
      }
      ForcedNext(freq0, len0, maxCode0, len, before, forced);
      ChargeOne(freq0, freq, desc, opt, stat, len, forced);
      ForceSymbol(fc, dl, heap, depth, desc.elems, len, before, forced);
      len := len + 1;
      opt := opt - 1;
      if desc.staticLens != [] {
        stat := stat - desc.Static(forced);
      }
    }
  }

  // ---- heap operations ----

  lemma {:induction false} LeafSetBelow(freq: seq<nat>, n: nat)
    requires n <= |freq|
    ensures forall x :: x in LeafSet(freq, n) ==> x < n && freq[x] > 0
  {
    LeafSetHas(freq, n);
  }

  /** Nodes all lie below a bound exactly when the heap entries do. */
  lemma NodesBelow(h: seq<nat>, len: nat, bound: nat)
    requires len < |h|
    ensures (forall x :: x in Nodes(h, len) ==> x < bound) <==> (forall i :: 1 <= i <= len ==> h[i] < bound)
  {
    var s := h[1..len + 1];
    if forall x :: x in Nodes(h, len) ==> x < bound {
      forall i | 1 <= i <= len ensures h[i] < bound {
        assert s[i - 1] == h[i];
        assert s[i - 1] in multiset(s);
      }
    }
    if forall i :: 1 <= i <= len ==> h[i] < bound {
      forall x | x in Nodes(h, len) ensures x < bound {
        assert x in s;
      }
    }
  }

  /** Establishes the heap order over all nodes. */
  method Heapify(heap: array<nat>, len: nat, fc: array<nat>, depth: array<nat>)
    requires heap != fc && heap != depth && InRange(heap[..], len, fc[..], depth[..])
    modifies heap
    ensures InRange(heap[..], len, fc[..], depth[..]) && Ordered(heap[..], len, fc[..], depth[..], 1)
    ensures Nodes(heap[..], len) == old(Nodes(heap[..], len))
  {
    var n := len / 2;
    while n >= 1
      invariant 0 <= n <= len / 2
      invariant InRange(heap[..], len, fc[..], depth[..]) && Ordered(heap[..], len, fc[..], depth[..], n + 1)
      invariant Nodes(heap[..], len) == old(Nodes(heap[..], len))
    {
      PqDownHeap(heap, len, fc, depth, n);
      n := n - 1;
    }
  }

  /** The least frequent node, if all others in the heap are at least as frequent. */
  ghost predicate Lightest(n: nat, nodes: multiset<nat>, freq: seq<nat>)
  {
    && (forall x :: x in nodes ==> x < |freq|)
    && n in nodes && forall x :: x in nodes ==> freq[n] <= freq[x]
  }

  lemma RootIsLightest(h: seq<nat>, len: nat, freq: seq<nat>, depth: seq<nat>)
    requires InRange(h, len, freq, depth) && Ordered(h, len, freq, depth, 1) && len >= 1
    ensures Lightest(h[1], Nodes(h, len), freq)
  {
    var s := h[1..len + 1];
    assert s[0] == h[1];
    forall x | x in Nodes(h, len) ensures x < |freq| && freq[h[1]] <= freq[x] {
      assert x in s;
      var i :| 0 <= i < |s| && s[i] == x;
      RootSmallest(h, len, freq, depth, i + 1);
    }
  }

  /** Overwriting the root by the last node drops the root. */
  lemma DropRoot(h: seq<nat>, len: nat, freq: seq<nat>, depth: seq<nat>)
    requires InRange(h, len, freq, depth) && Ordered(h, len, freq, depth, 1) && len >= 2
    ensures var h' := h[1 := h[len]];
            && InRange(h', len - 1, freq, depth) && Ordered(h', len - 1, freq, depth, 2)
            && Nodes(h', len - 1) == Nodes(h, len) - multiset{h[1]}
  {
    var h' := h[1 := h[len]];
    RootDropped(h, len);
    hide Nodes;
    forall j | 2 <= j <= len - 1 && j / 2 >= 2 ensures Smaller(freq, depth, h'[j / 2], h'[j]) {
      assert Smaller(freq, depth, h[j / 2], h[j]);
    }
  }

  lemma RootDropped(h: seq<nat>, len: nat)
    requires 2 <= len < |h|
    ensures Nodes(h[1 := h[len]], len - 1) == Nodes(h, len) - multiset{h[1]}
  {
    var mid := h[2..len];
    assert h[1..len + 1] == [h[1]] + mid + [h[len]];
    assert h[1 := h[len]][1..len] == [h[len]] + mid;
  }

  /** PQREMOVE */
  method PqRemove(heap: array<nat>, len: nat, fc: array<nat>, depth: array<nat>) returns (top: nat)
    requires len >= 2 && heap != fc && heap != depth
    requires InRange(heap[..], len, fc[..], depth[..]) && Ordered(heap[..], len, fc[..], depth[..], 1)
    modifies heap
    ensures InRange(heap[..], len - 1, fc[..], depth[..]) && Ordered(heap[..], len - 1, fc[..], depth[..], 1)
    ensures Nodes(heap[..], len - 1) == old(Nodes(heap[..], len)) - multiset{top}
    ensures Lightest(top, old(Nodes(heap[..], len)), fc[..])
    ensures forall i :: len < i < heap.Length ==> heap[i] == old(heap[i])
  {
    hide Ordered, Nodes, Lightest;
    top := heap[1];
    ghost var h: seq<nat> := heap[..];
    RootIsLightest(h, len, fc[..], depth[..]);
    DropRoot(h, len, fc[..], depth[..]);
    heap[1] := heap[len];
    assert heap[..] == h[1 := h[len]];
    PqDownHeap(heap, len - 1, fc, depth, 1);
  }

  /** Replacing the root, whatever the new root's weight, leaves the rest ordered. */
  lemma NewRoot(h: seq<nat>, len: nat, freq: seq<nat>, depth: seq<nat>, f: seq<nat>, d: seq<nat>, node: nat)
    requires InRange(h, len, freq, depth) && Ordered(h, len, freq, depth, 1) && len >= 1
    requires |f| == |freq| && |d| == |depth| && node < |f| && node < |d|
    requires forall i :: 1 <= i <= len ==> h[i] != node
    requires forall x :: 0 <= x < |f| && x != node ==> f[x] == freq[x]
    requires forall x :: 0 <= x < |d| && x != node ==> d[x] == depth[x]
    ensures var h' := h[1 := node];
            && InRange(h', len, f, d) && Ordered(h', len, f, d, 2)
            && Nodes(h', len) == Nodes(h, len) - multiset{h[1]} + multiset{node}
  {
    var h' := h[1 := node];
    var mid := h[2..len + 1];
    assert h[1..len + 1] == [h[1]] + mid && h'[1..len + 1] == [node] + mid;
    forall j | 2 <= j <= len && j / 2 >= 2 ensures Smaller(f, d, h'[j / 2], h'[j]) {
      assert Smaller(freq, depth, h[j / 2], h[j]);
    }
  }

  lemma NotInHeap(h: seq<nat>, len: nat, node: nat)
    requires len < |h| && node !in Nodes(h, len)
    ensures forall i :: 1 <= i <= len ==> h[i] != node
  {
    var s := h[1..len + 1];
    forall i | 1 <= i <= len ensures h[i] != node {
      assert s[i - 1] == h[i];
      assert h[i] in multiset(s);
    }
  }

  // ---- joining ----

  /** The state between rounds: an ordered heap and a well-formed list. */
  ghost predicate Growing(h: seq<nat>, len: nat, heapMax: nat, freq: seq<nat>, dl: seq<nat>, depth: seq<nat>,
                          leaves: multiset<nat>, elems: nat, j: nat)
  {
    && len < heapMax <= |h|
    && InRange(h, len, freq, depth) && Ordered(h, len, freq, depth, 1)
    && Joined(Nodes(h, len), h[heapMax..], leaves, elems, j, freq, dl)
    && Ranked(Nodes(h, len), h[heapMax..], freq)
  }

  lemma InnerIsNew(nodes: multiset<nat>, list: seq<nat>, leaves: multiset<nat>, elems: nat, j: nat, freq: seq<nat>, dl: seq<nat>)
    requires Joined(nodes, list, leaves, elems, j, freq, dl)
    ensures elems + j !in nodes && elems + j !in list
  {
    OnlyOnce(nodes, list, leaves, elems, j, elems + j);
  }

  lemma NodesPrefix(h: seq<nat>, h': seq<nat>, len: nat)
    requires len < |h| && len < |h'| && forall i :: 1 <= i <= len ==> h[i] == h'[i]
    ensures Nodes(h, len) == Nodes(h', len)
  {
    assert h[1..len + 1] == h'[1..len + 1];
  }

  lemma OrderedPrefix(h: seq<nat>, h': seq<nat>, len: nat, freq: seq<nat>, depth: seq<nat>)
    requires len < |h'| && InRange(h, len, freq, depth) && Ordered(h, len, freq, depth, 1)
    requires forall i :: 1 <= i <= len ==> h[i] == h'[i]
    ensures InRange(h', len, freq, depth) && Ordered(h', len, freq, depth, 1)
  {
    forall k | 2 <= k <= len && k / 2 >= 1 ensures Smaller(freq, depth, h'[k / 2], h'[k]) {
      assert Smaller(freq, depth, h[k / 2], h[k]);
    }
  }

  /** Takes the lightest node out, finds the next, and puts both at the front of the list. */
  method TakeTwo(heap: array<nat>, len: nat, heapMax: nat, fc: array<nat>, depth: array<nat>) returns (n: nat, m: nat)
    requires len >= 2 && len + 2 < heapMax <= heap.Length && heap != fc && heap != depth
    requires InRange(heap[..], len, fc[..], depth[..]) && Ordered(heap[..], len, fc[..], depth[..], 1)
    modifies heap
    ensures InRange(heap[..], len - 1, fc[..], depth[..]) && Ordered(heap[..], len - 1, fc[..], depth[..], 1)
    ensures heap[1] == m && n < fc.Length && m < fc.Length
    ensures Nodes(heap[..], len - 1) == old(Nodes(heap[..], len)) - multiset{n}
    ensures Lightest(n, old(Nodes(heap[..], len)), fc[..])
    ensures Lightest(m, old(Nodes(heap[..], len)) - multiset{n}, fc[..])
    ensures heap[heapMax - 2..] == [m, n] + old(heap[heapMax..])
  {
    hide Ordered, Nodes;
    n := PqRemove(heap, len, fc, depth);
    ghost var h1: seq<nat> := heap[..];
    RootIsLightest(h1, len - 1, fc[..], depth[..]);
    m := heap[1];
    heap[heapMax - 1] := n;
    heap[heapMax - 2] := m;
    NodesPrefix(h1, heap[..], len - 1);
    OrderedPrefix(h1, heap[..], len - 1, fc[..], depth[..]);
  }

  /** Creates the father of n and m in place of m at the root of the heap. */
  method NewFather(heap: array<nat>, len: nat, fc: array<nat>, dl: array<nat>, depth: array<nat>, node: nat, n: nat, m: nat)
    requires 1 <= len && InRange(heap[..], len, fc[..], depth[..]) && Ordered(heap[..], len, fc[..], depth[..], 1)
    requires fc.Length == dl.Length && node < fc.Length && node < depth.Length && node !in Nodes(heap[..], len)
    requires n < dl.Length && n < depth.Length && heap[1] == m
    requires fc != dl && fc != heap && fc != depth && dl != heap && dl != depth && heap != depth
    modifies heap, fc, dl, depth
    ensures InRange(heap[..], len, fc[..], depth[..]) && Ordered(heap[..], len, fc[..], depth[..], 1)
    ensures Nodes(heap[..], len) == old(Nodes(heap[..], len)) - multiset{m} + multiset{node}
    ensures fc[..] == old(fc[..])[node := old(fc[n]) + old(fc[m])]
    ensures dl[..] == old(dl[..])[n := node][m := node]
    ensures forall i :: len < i < heap.Length ==> heap[i] == old(heap[i])
  {
    hide Ordered, Nodes;
    ghost var h: seq<nat>, freq: seq<nat>, deep: seq<nat> := heap[..], fc[..], depth[..];
    fc[node] := fc[n] + fc[m];
    depth[node] := (if depth[n] >= depth[m] then depth[n] else depth[m]) + 1;
    dl[n] := node;
    dl[m] := node;
    NotInHeap(h, len, node);
    NewRoot(h, len, freq, deep, fc[..], depth[..], node);
    heap[1] := node;
    assert heap[..] == h[1 := node];
    PqDownHeap(heap, len, fc, depth, 1);
  }

  ghost predicate Below(nodes: multiset<nat>, bound: nat)
  {
    forall x :: x in nodes ==> x < bound
  }

  /** What greedy merging of the nodes in the heap still costs. */
  ghost function Potential(nodes: multiset<nat>, freq: seq<nat>): (c: nat)
  {
    if Below(nodes, |freq|) then Greedy(Weights(nodes, freq)) else 0
  }

  lemma PotentialFalls(nodes: multiset<nat>, freq: seq<nat>, n: nat, m: nat, father: nat)
    requires Lightest(n, nodes, freq) && Lightest(m, nodes - multiset{n}, freq) && father < |freq| && father !in nodes
    ensures n < |freq| && m < |freq|
    ensures Potential(nodes, freq)
         == freq[n] + freq[m] + Potential(Merged2(nodes, n, m, father), freq[father := freq[n] + freq[m]])
  {
    LightestTwo(nodes, n, m, freq);
    JoinIsGreedy(nodes, freq, n, m, father);
  }

  /** One round of the do-while loop: the two lightest nodes get a common father. */
  method JoinLightest(heap: array<nat>, len: nat, heapMax: nat, fc: array<nat>, dl: array<nat>, depth: array<nat>,
                      elems: nat, j: nat, ghost leaves: multiset<nat>)
    requires len >= 2 && len + 2 < heapMax <= heap.Length
    requires fc.Length == dl.Length <= depth.Length && elems + j < fc.Length
    requires fc != dl && fc != heap && fc != depth && dl != heap && dl != depth && heap != depth
    requires Growing(heap[..], len, heapMax, fc[..], dl[..], depth[..], leaves, elems, j)
    modifies heap, fc, dl, depth
    ensures Growing(heap[..], len - 1, heapMax - 2, fc[..], dl[..], depth[..], leaves, elems, j + 1)
    ensures forall x :: 0 <= x < fc.Length && x != elems + j ==> fc[x] == old(fc[x])
    ensures forall x :: 0 <= x < elems && x !in leaves ==> dl[x] == old(dl[x])
    ensures old(Potential(Nodes(heap[..], len), fc[..]))
         == fc[elems + j] + Potential(Nodes(heap[..], len - 1), fc[..])
  {
    hide InRange, Ordered, Nodes, Joined, Ranked, Potential, Lightest, Merged2;
    ghost var nodes := Nodes(heap[..], len);
    ghost var list: seq<nat>, freq: seq<nat>, dads: seq<nat> := heap[heapMax..], fc[..], dl[..];
    var n, m := TakeTwo(heap, len, heapMax, fc, depth);
    LightestTwo(nodes, n, m, freq);
    Join(nodes, list, leaves, elems, j, freq, dads, n, m);
    InnerIsNew(nodes, list, leaves, elems, j, freq, dads);
    PotentialFalls(nodes, freq, n, m, elems + j);
    JoinRanked(nodes, list, freq, n, m, elems + j);
    FromLeaves(nodes, list, leaves, elems, j, freq, dads, n);
    FromLeaves(nodes, list, leaves, elems, j, freq, dads, m);
    ghost var h2: seq<nat> := heap[..];
    NewFather(heap, len - 1, fc, dl, depth, elems + j, n, m);
    assert heap[heapMax - 2..] == h2[heapMax - 2..];
    assert Nodes(heap[..], len - 1) == Merged2(nodes, n, m, elems + j) by { MergedIs(nodes, n, m, elems + j); }
  }

  lemma MergedIs(nodes: multiset<nat>, n: nat, m: nat, father: nat)
    ensures Merged2(nodes, n, m, father) == nodes - multiset{n} - multiset{m} + multiset{father}
  {
  }

  lemma FromLeaves(nodes: multiset<nat>, list: seq<nat>, leaves: multiset<nat>, elems: nat, j: nat, freq: seq<nat>, dl: seq<nat>, n: nat)
    requires Joined(nodes, list, leaves, elems, j, freq, dl) && n in nodes
    ensures n < elems ==> n in leaves
  {
    InnerNodesHas(elems, j);
    assert (nodes + multiset(list))[n] == (leaves + InnerNodes(elems, j))[n];
  }

  lemma LightestTwo(nodes: multiset<nat>, n: nat, m: nat, freq: seq<nat>)
    requires Lightest(n, nodes, freq) && Lightest(m, nodes - multiset{n}, freq)
    ensures n in nodes && m in nodes - multiset{n} && forall x :: x in nodes ==> x < |freq| && freq[n] <= freq[x]
    ensures forall x :: x in nodes - multiset{n} ==> freq[m] <= freq[x]
    ensures m in nodes
  {
  }

  /** Nothing joined yet. */
  lemma GrowStart(h: seq<nat>, len: nat, freq: seq<nat>, dl: seq<nat>, depth: seq<nat>, elems: nat)
    requires len < |h| && InRange(h, len, freq, depth) && Ordered(h, len, freq, depth, 1)
    requires elems <= |freq| == |dl| && Nodes(h, len) == LeafSet(freq, elems)
    ensures Growing(h, len, |h|, freq, dl, depth, LeafSet(freq, elems), elems, 0)
  {
    LeafSetHas(freq, elems);
    assert h[|h|..] == [];
  }

  /** The leaves in the node list are the given ones. */
  ghost predicate OrdHasLeaves(t: Layout, leaves: multiset<nat>)
  {
    && (forall x :: x in leaves ==> x in t.ord)
    && (forall x :: x in t.ord && x < t.elems ==> x in leaves)
  }

  /** The leaves in the node list are the symbols of non-zero frequency. */
  ghost predicate OrdIsUsed(t: Layout, freq: seq<nat>, elems: nat)
  {
    elems <= |freq| && forall x :: 0 <= x < elems ==> (x in t.ord <==> freq[x] > 0)
  }

  /** One node left: it is the root. */
  lemma GrowEnd(h: seq<nat>, heapMax: nat, freq: seq<nat>, dl: seq<nat>, depth: seq<nat>, leaves: multiset<nat>, elems: nat, j: nat)
      returns (t: Layout)
    requires j >= 1 && heapMax >= 3 && Growing(h, 1, heapMax, freq, dl, depth, leaves, elems, j)
    requires |leaves| == j + 1
    ensures h[1] == elems + j - 1
    ensures t.ord == [h[1]] + h[heapMax..] && t.elems == elems && t.inner == j
    ensures t.Shape() && Dads(t, dl, 0) && Weighted(t, freq) && Sorted(t, freq)
    ensures OrdHasLeaves(t, leaves)
  {
    var list := h[heapMax..];
    assert h[1..2] == [h[1]];
    assert Nodes(h, 1) == multiset{h[1]};
    RootSorts(h[1], list, freq);
    hide Ranked, Sorted;
    RootIsLast(h[1], list, leaves, elems, j, freq, dl);
    t := Finish(list, leaves, elems, j, freq, dl);
  }

  lemma RootSorts(root: nat, list: seq<nat>, freq: seq<nat>)
    requires Ranked(multiset{root}, list, freq)
    ensures forall t: Layout :: t.ord == [root] + list ==> Sorted(t, freq)
  {
    assert root in multiset{root};
  }

  /** The newest internal node cannot be in the list, so it is the one left in the heap. */
  lemma RootIsLast(root: nat, list: seq<nat>, leaves: multiset<nat>, elems: nat, j: nat, freq: seq<nat>, dl: seq<nat>)
    requires j >= 1 && Joined(multiset{root}, list, leaves, elems, j, freq, dl)
    ensures root == elems + j - 1
  {
    var last := elems + j - 1;
    OnlyOnce(multiset{root}, list, leaves, elems, j, last);
    assert last !in list;
  }

  lemma {:induction false} LeafSetSize(freq: seq<nat>, n: nat, h: seq<nat>, len: nat)
    requires n <= |freq| && len < |h| && Nodes(h, len) == LeafSet(freq, n)
    ensures |LeafSet(freq, n)| == len
  {
    NodesCount(h, len);
  }

  lemma SumSlice(freq: seq<nat>, freq': seq<nat>, elems: nat, j: nat)
    requires elems + j < |freq| == |freq'|
    requires forall x :: 0 <= x < |freq| && x != elems + j ==> freq'[x] == freq[x]
    ensures Sum(freq'[elems..elems + j + 1]) == Sum(freq[elems..elems + j]) + freq'[elems + j]
  {
    var s := freq'[elems..elems + j + 1];
    assert s[..j] == freq[elems..elems + j];
  }

  /** The do-while loop of build_tree: joins until one node is left in the heap. */
  method JoinAll(heap: array<nat>, len0: nat, fc: array<nat>, dl: array<nat>, depth: array<nat>, elems: nat, ghost leaves: multiset<nat>)
      returns (heapMax: nat)
    requires heap.Length == HEAP_SIZE && 2 <= len0 <= elems && 2 * elems + 1 <= HEAP_SIZE
    requires fc.Length == dl.Length == 2 * elems + 1 <= depth.Length
    requires fc != dl && fc != heap && fc != depth && dl != heap && dl != depth && heap != depth
    requires Growing(heap[..], len0, HEAP_SIZE, fc[..], dl[..], depth[..], leaves, elems, 0)
    requires Nodes(heap[..], len0) == leaves
    modifies heap, fc, dl, depth
    ensures heapMax == HEAP_SIZE - 2 * (len0 - 1)
    ensures Growing(heap[..], 1, heapMax, fc[..], dl[..], depth[..], leaves, elems, len0 - 1)
    ensures fc[..elems] == old(fc[..elems])
    ensures forall x :: 0 <= x < elems && x !in leaves ==> dl[x] == old(dl[x])
    ensures Sum(fc[elems..elems + len0 - 1]) == old(Potential(leaves, fc[..]))
  {
    hide Nodes, Potential, Growing, Sum;
    ghost var total := Potential(leaves, fc[..]);
    heapMax := HEAP_SIZE;
    var len, j := len0, 0;
    SumNone(fc[..], elems);
    while len >= 2
      invariant 1 <= len && len + j == len0 && heapMax == HEAP_SIZE - 2 * j
      invariant Growing(heap[..], len, heapMax, fc[..], dl[..], depth[..], leaves, elems, j)
      invariant fc[..elems] == old(fc[..elems])
      invariant forall x :: 0 <= x < elems && x !in leaves ==> dl[x] == old(dl[x])
      invariant Sum(fc[elems..elems + j]) + Potential(Nodes(heap[..], len), fc[..]) == total
    {
      ghost var freq: seq<nat> := fc[..];
      JoinLightest(heap, len, heapMax, fc, dl, depth, elems, j, leaves);
      SumSlice(freq, fc[..], elems, j);
      assert fc[..elems] == freq[..elems];
      len, j, heapMax := len - 1, j + 1, heapMax - 2;
    }
    SinglePotential(heap[..], fc[..]);
  }

  lemma SumNone(freq: seq<nat>, elems: nat)
    requires elems <= |freq|
    ensures Sum(freq[elems..elems + 0]) == 0
  {
  }

  /** Joins all leaves of the heap into one tree and finishes the node list. */
  method Combine(heap: array<nat>, len0: nat, fc: array<nat>, dl: array<nat>, depth: array<nat>, elems: nat)
      returns (heapMax: nat, ghost t: Layout)
    requires heap.Length == HEAP_SIZE && 2 <= len0 <= elems && 2 * elems + 1 <= HEAP_SIZE
    requires fc.Length == dl.Length == 2 * elems + 1 <= depth.Length
    requires fc != dl && fc != heap && fc != depth && dl != heap && dl != depth && heap != depth
    requires InRange(heap[..], len0, fc[..], depth[..]) && Ordered(heap[..], len0, fc[..], depth[..], 1)
    requires Nodes(heap[..], len0) == LeafSet(fc[..], elems)
    modifies heap, fc, dl, depth
    ensures heapMax <= HEAP_SIZE && heap[heapMax..] == t.ord && t.elems == elems && t.inner == len0 - 1
    ensures t.Shape() && Dads(t, dl[..], 0) && Weighted(t, fc[..]) && Sorted(t, fc[..])
    ensures fc[..elems] == old(fc[..elems])
    ensures forall x :: 0 <= x < elems && fc[x] == 0 ==> dl[x] == old(dl[x])
    ensures OrdIsUsed(t, fc[..], elems)
    ensures Sum(fc[elems..elems + t.inner]) == old(Potential(LeafSet(fc[..], elems), fc[..]))
  {
    hide InRange, Ordered, Nodes, Potential, Growing, LeafSet, Sum, Layout.Shape, Dads, Weighted, Sorted, OrdIsUsed, OrdHasLeaves;
    ghost var freq0: seq<nat>, leaves := fc[..], LeafSet(fc[..], elems);
    GrowStart(heap[..], len0, fc[..], dl[..], depth[..], elems);
    LeafSetSize(freq0, elems, heap[..], len0);
    heapMax := JoinAll(heap, len0, fc, dl, depth, elems, leaves);
    t := GrowEnd(heap[..], heapMax, fc[..], dl[..], depth[..], leaves, elems, len0 - 1);
    LeafOrNot(t, leaves, fc[..], freq0, elems);
    ghost var h: seq<nat> := heap[..];
    heapMax := heapMax - 1;
    heap[heapMax] := heap[1];
    assert heap[heapMax..] == [h[1]] + h[heapMax + 1..];
  }

  lemma SinglePotential(h: seq<nat>, freq: seq<nat>)
    requires |h| > 1
    ensures Potential(Nodes(h, 1), freq) == 0
  {
    assert h[1..2] == [h[1]];
    var nodes := Nodes(h, 1);
    assert nodes == multiset{h[1]};
    if Below(nodes, |freq|) {
      WeightsTake(nodes, freq, h[1]);
      assert nodes - multiset{h[1]} == multiset{};
      assert |Weights(nodes, freq)| == 1;
    }
  }

  lemma LeafOrNot(t: Layout, leaves: multiset<nat>, freq: seq<nat>, freq0: seq<nat>, elems: nat)
    requires elems <= |freq| && elems <= |freq0| && freq[..elems] == freq0[..elems] && leaves == LeafSet(freq0, elems)
    requires t.elems == elems
    requires OrdHasLeaves(t, leaves)
    ensures OrdIsUsed(t, freq, elems)
    ensures forall x :: 0 <= x < elems ==> (x in leaves <==> freq[x] > 0)
  {
    LeafSetHas(freq0, elems);
    assert forall x :: 0 <= x < elems ==> freq[x] == freq[..elems][x] == freq0[x];
  }
}
