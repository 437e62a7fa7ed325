/** The growing forest while a Huffman tree is built: what is still in the heap, and the
    list of nodes already joined under a father. */
module Forest {
  import opened Inflate
  import opened Sums
  import opened BitLengths
  import opened TreeCost
  import opened Optimality

  /** Internal nodes elems .. elems + j - 1. */
  function InnerNodes(elems: nat, j: nat): (m: multiset<nat>)
  {
    if j == 0 then multiset{} else InnerNodes(elems, j - 1) + multiset{elems + j - 1}
  }

  lemma {:induction false} InnerNodesHas(elems: nat, j: nat)
    ensures forall x: nat :: InnerNodes(elems, j)[x] == if elems <= x < elems + j then 1 else 0
  {
    if j > 0 {
      InnerNodesHas(elems, j - 1);
    }
  }

  /** After j joins: heap and list together hold every leaf and every internal node once. */
  ghost predicate AllNodes(nodes: multiset<nat>, list: seq<nat>, leaves: multiset<nat>, elems: nat, j: nat)
  {
    && nodes + multiset(list) == leaves + InnerNodes(elems, j)
    && (forall x :: x in leaves ==> x < elems && leaves[x] == 1)
    && |list| == 2 * j
  }

  /** Every list entry has the father its position implies. */
  ghost predicate ListDads(list: seq<nat>, dl: seq<nat>, elems: nat, j: nat)
    requires |list| == 2 * j
  {
    forall x :: 0 <= x < 2 * j ==> list[x] < |dl| && dl[list[x]] == elems + j - (x + 2) / 2
  }

  /** An internal node in the list stands before its own sons. */
  ghost predicate FathersFirst(list: seq<nat>, elems: nat, j: nat)
    requires |list| == 2 * j
  {
    forall x :: 0 <= x < 2 * j && list[x] >= elems ==> 2 * j - x > 2 * (list[x] - elems) + 2
  }

  /** Internal node i weighs as much as its sons. */
  ghost predicate ListWeighs(list: seq<nat>, freq: seq<nat>, elems: nat, j: nat)
    requires |list| == 2 * j && elems + j <= |freq|
  {
    && (forall x :: 0 <= x < 2 * j ==> list[x] < elems + j)
    && forall i :: 0 <= i < j ==> WeighsAt(list, freq, elems, j, i)
  }

  ghost predicate WeighsAt(list: seq<nat>, freq: seq<nat>, elems: nat, j: nat, i: nat)
    requires |list| == 2 * j && elems + j <= |freq| && i < j && forall x :: 0 <= x < 2 * j ==> list[x] < elems + j
  {
    freq[elems + i] == freq[list[2 * (j - i) - 2]] + freq[list[2 * (j - i) - 1]]
  }

  ghost predicate Joined(nodes: multiset<nat>, list: seq<nat>, leaves: multiset<nat>, elems: nat, j: nat,
                         freq: seq<nat>, dl: seq<nat>)
  {
    && elems + j <= |freq| == |dl|
    && AllNodes(nodes, list, leaves, elems, j)
    && ListDads(list, dl, elems, j)
    && FathersFirst(list, elems, j)
    && ListWeighs(list, freq, elems, j)
  }

  /** A node is in the heap or in the list, never both, and there only once. */
  lemma OnlyOnce(nodes: multiset<nat>, list: seq<nat>, leaves: multiset<nat>, elems: nat, j: nat, x: nat)
    requires AllNodes(nodes, list, leaves, elems, j)
    ensures nodes[x] + multiset(list)[x] <= 1
    ensures x in nodes ==> x !in list && x < elems + j
    ensures x in list ==> x < elems + j
    ensures elems <= x < elems + j ==> x in nodes || x in list
  {
    InnerNodesHas(elems, j);
    assert (nodes + multiset(list))[x] == (leaves + InnerNodes(elems, j))[x];
    assert x in list ==> multiset(list)[x] > 0;
  }

  lemma JoinNodes(nodes: multiset<nat>, list: seq<nat>, leaves: multiset<nat>, elems: nat, j: nat, n: nat, m: nat)
    requires AllNodes(nodes, list, leaves, elems, j) && n in nodes && m in nodes - multiset{n}
    ensures AllNodes(Merged2(nodes, n, m, elems + j), [m, n] + list, leaves, elems, j + 1)
  {
    assert multiset([m, n] + list) == multiset{m, n} + multiset(list);
    assert nodes == (nodes - multiset{n} - multiset{m}) + multiset{m, n};
    assert InnerNodes(elems, j + 1) == InnerNodes(elems, j) + multiset{elems + j};
    var father: nat := elems + j;
    assert Merged2(nodes, n, m, father) + multiset([m, n] + list) == nodes + multiset(list) + multiset{father};
  }

  /** Two nodes replaced by their father. */
  function Merged2(nodes: multiset<nat>, n: nat, m: nat, father: nat): (r: multiset<nat>)
  {
    nodes - multiset{n} - multiset{m} + multiset{father}
  }

  lemma JoinDads(list: seq<nat>, dl: seq<nat>, elems: nat, j: nat, n: nat, m: nat)
    requires |list| == 2 * j && ListDads(list, dl, elems, j) && n !in list && m !in list && n < |dl| && m < |dl|
    ensures ListDads([m, n] + list, dl[n := elems + j][m := elems + j], elems, j + 1)
  {
    var list' := [m, n] + list;
    var dl' := dl[n := elems + j][m := elems + j];
    forall x | 0 <= x < |list'| ensures list'[x] < |dl'| && dl'[list'[x]] == elems + (j + 1) - (x + 2) / 2 {
      if x >= 2 {
        assert list'[x] == list[x - 2];
        assert list[x - 2] in list;
      }
    }
  }

  lemma JoinFathers(list: seq<nat>, elems: nat, j: nat, n: nat, m: nat)
    requires |list| == 2 * j && FathersFirst(list, elems, j) && n < elems + j && m < elems + j
    ensures FathersFirst([m, n] + list, elems, j + 1)
  {
    var list' := [m, n] + list;
    forall x | 0 <= x < 2 * (j + 1) && list'[x] >= elems
      ensures 2 * (j + 1) - x > 2 * (list'[x] - elems) + 2
    {
      if x >= 2 {
        assert list'[x] == list[x - 2];
      }
    }
  }

  lemma JoinWeighs(list: seq<nat>, freq: seq<nat>, elems: nat, j: nat, n: nat, m: nat)
    requires |list| == 2 * j && elems + j < |freq| && ListWeighs(list, freq, elems, j) && n < elems + j && m < elems + j
    ensures ListWeighs([m, n] + list, freq[elems + j := freq[n] + freq[m]], elems, j + 1)
  {
    var list' := [m, n] + list;
    var freq' := freq[elems + j := freq[n] + freq[m]];
    forall x | 0 <= x < 2 * (j + 1) ensures list'[x] < elems + j {
      if x >= 2 {
        assert list'[x] == list[x - 2];
      }
    }
    var j' := j + 1;
    forall i | 0 <= i < j' ensures WeighsAt(list', freq', elems, j', i) {
      if i < j {
        assert WeighsAt(list, freq, elems, j, i);
        assert list'[2 * (j' - i) - 2] == list[2 * (j - i) - 2];
        assert list'[2 * (j' - i) - 1] == list[2 * (j - i) - 1];
      }
    }
  }

  /** One round of the do-while loop of build_tree. */
  lemma Join(nodes: multiset<nat>, list: seq<nat>, leaves: multiset<nat>, elems: nat, j: nat,
             freq: seq<nat>, dl: seq<nat>, n: nat, m: nat)
    requires Joined(nodes, list, leaves, elems, j, freq, dl) && elems + j < |freq|
    requires n in nodes && m in nodes - multiset{n}
    ensures n < elems + j && m < elems + j && n != m
    ensures Joined(Merged2(nodes, n, m, elems + j), [m, n] + list, leaves, elems, j + 1,
                   freq[elems + j := freq[n] + freq[m]], dl[n := elems + j][m := elems + j])
  {
    hide AllNodes, ListDads, FathersFirst, ListWeighs;
    OnlyOnce(nodes, list, leaves, elems, j, n);
    OnlyOnce(nodes, list, leaves, elems, j, m);
    assert |list| == 2 * j by { ListSize(nodes, list, leaves, elems, j); }
    JoinNodes(nodes, list, leaves, elems, j, n, m);
    JoinDads(list, dl, elems, j, n, m);
    JoinFathers(list, elems, j, n, m);
    JoinWeighs(list, freq, elems, j, n, m);
  }

  /** The list is sorted, least frequency last, and no node outside it has less. */
  ghost predicate Ranked(nodes: multiset<nat>, list: seq<nat>, freq: seq<nat>)
  {
    && (forall x :: x in nodes ==> x < |freq|) && (forall k :: 0 <= k < |list| ==> list[k] < |freq|)
    && (forall a, b :: 0 <= a < b < |list| ==> freq[list[b]] <= freq[list[a]])
    && (forall x, k :: x in nodes && 0 <= k < |list| ==> freq[list[k]] <= freq[x])
  }

  lemma JoinRanked(nodes: multiset<nat>, list: seq<nat>, freq: seq<nat>, n: nat, m: nat, father: nat)
    requires Ranked(nodes, list, freq) && father < |freq| && father !in nodes && father !in list
    requires n in nodes && m in nodes - multiset{n}
    requires forall x :: x in nodes ==> freq[n] <= freq[x]
    requires forall x :: x in nodes - multiset{n} ==> freq[m] <= freq[x]
    ensures m < |freq| && n < |freq| && Ranked(Merged2(nodes, n, m, father), [m, n] + list, freq[father := freq[n] + freq[m]])
  {
    assert m in nodes;
    RankTwo(nodes, list, freq, n, m);
    var rest, list' := nodes - multiset{n} - multiset{m}, [m, n] + list;
    forall k | 0 <= k < |list'| ensures list'[k] != father {
      assert k >= 2 ==> list'[k] in list;
    }
    assert father !in rest;
    hide Ranked;
    RankFather(rest, list', freq, father, freq[n] + freq[m]);
  }

  lemma RankTwo(nodes: multiset<nat>, list: seq<nat>, freq: seq<nat>, n: nat, m: nat)
    requires Ranked(nodes, list, freq) && n in nodes && m in nodes && m in nodes - multiset{n}
    requires forall x :: x in nodes ==> freq[n] <= freq[x]
    requires forall x :: x in nodes - multiset{n} ==> freq[m] <= freq[x]
    ensures Ranked(nodes - multiset{n} - multiset{m}, [m, n] + list, freq)
  {
    var rest := nodes - multiset{n} - multiset{m};
    forall x | x in rest ensures x in nodes && x in nodes - multiset{n} {
    }
  }

  lemma RankFather(nodes: multiset<nat>, list: seq<nat>, freq: seq<nat>, father: nat, f: nat)
    requires Ranked(nodes, list, freq) && list != [] && father < |freq| && father !in nodes && f >= freq[list[0]]
    requires forall k :: 0 <= k < |list| ==> list[k] != father
    ensures Ranked(nodes + multiset{father}, list, freq[father := f])
  {
  }

  lemma ListSize(nodes: multiset<nat>, list: seq<nat>, leaves: multiset<nat>, elems: nat, j: nat)
    requires AllNodes(nodes, list, leaves, elems, j)
    ensures |list| == 2 * j
  {
  }

  // ---- the finished tree ----

  lemma DistinctList(s: seq<nat>)
    requires forall x: nat :: multiset(s)[x] <= 1
    ensures forall a, b :: 0 <= a < b < |s| ==> s[a] != s[b]
  {
    forall a, b | 0 <= a < b < |s| ensures s[a] != s[b] {
      assert s == s[..b] + [s[b]] + s[b + 1..];
      assert s[a] in s[..b];
      assert multiset(s) == multiset(s[..b]) + multiset{s[b]} + multiset(s[b + 1..]);
      assert multiset(s[..b])[s[a]] >= 1;
      assert multiset(s)[s[a]] >= 1 + multiset{s[b]}[s[a]];
    }
  }

  /** Where internal node i stands in the finished list. */
  lemma FindInner(nodes: multiset<nat>, list: seq<nat>, leaves: multiset<nat>, elems: nat, j: nat, i: nat) returns (p: nat)
    requires AllNodes(nodes, list, leaves, elems, j) && FathersFirst(list, elems, j) && i < j && j >= 1
    requires nodes == multiset{elems + j - 1}
    ensures p < 2 * (j - i) - 1 && p < |list| + 1 && ([elems + j - 1] + list)[p] == elems + i
    ensures i == j - 1 ==> p == 0
  {
    var ord := [elems + j - 1] + list;
    if i == j - 1 {
      p := 0;
    } else {
      OnlyOnce(nodes, list, leaves, elems, j, elems + i);
      var x :| 0 <= x < |list| && list[x] == elems + i;
      p := x + 1;
    }
  }

  lemma {:induction false} FindInners(nodes: multiset<nat>, list: seq<nat>, leaves: multiset<nat>, elems: nat, j: nat, k: nat)
      returns (pos: seq<nat>)
    requires AllNodes(nodes, list, leaves, elems, j) && FathersFirst(list, elems, j) && j >= 1 && k <= j
    requires nodes == multiset{elems + j - 1}
    ensures |pos| == k
    ensures forall i :: 0 <= i < k ==> pos[i] < 2 * (j - i) - 1 && ([elems + j - 1] + list)[pos[i]] == elems + i
    ensures k == j ==> pos[j - 1] == 0
  {
    if k == 0 {
      pos := [];
    } else {
      pos := FindInners(nodes, list, leaves, elems, j, k - 1);
      var p := FindInner(nodes, list, leaves, elems, j, k - 1);
      pos := pos + [p];
    }
  }

  /** When only the root is left in the heap, the list is a tree as gen_bitlen needs it. */
  lemma Finish(list: seq<nat>, leaves: multiset<nat>, elems: nat, j: nat, freq: seq<nat>, dl: seq<nat>) returns (t: Layout)
    requires j >= 1 && Joined(multiset{elems + j - 1}, list, leaves, elems, j, freq, dl)
    ensures t.ord == [elems + j - 1] + list && t.elems == elems && t.inner == j
    ensures t.Shape() && Dads(t, dl, 0) && Weighted(t, freq)
    ensures forall x :: x in leaves ==> x in t.ord
    ensures forall x :: x in t.ord && x < elems ==> x in leaves
  {
    var root := elems + j - 1;
    var pos := FindInners(multiset{root}, list, leaves, elems, j, j);
    t := Layout([root] + list, pos, elems, j);
    assert multiset(t.ord) == leaves + InnerNodes(elems, j) by {
      assert multiset([root] + list) == multiset{root} + multiset(list);
    }
    InnerNodesHas(elems, j);
    DistinctList(t.ord);
    FinishShape(t, leaves);
    FinishDads(t, list, dl);
    FinishWeighs(t, list, freq);
  }

  lemma FinishShape(t: Layout, leaves: multiset<nat>)
    requires t.inner >= 1 && |t.ord| == 2 * t.inner + 1 && |t.pos| == t.inner && t.pos[t.inner - 1] == 0
    requires forall j :: 0 <= j < t.inner ==> t.pos[j] < 2 * (t.inner - j) - 1 && t.ord[t.pos[j]] == t.elems + j
    requires forall a, b :: 0 <= a < b < |t.ord| ==> t.ord[a] != t.ord[b]
    requires multiset(t.ord) == leaves + InnerNodes(t.elems, t.inner)
    requires forall x :: x in leaves ==> x < t.elems
    ensures t.Shape()
    ensures forall x :: x in leaves ==> x in t.ord
    ensures forall x :: x in t.ord && x < t.elems ==> x in leaves
  {
    InnerNodesHas(t.elems, t.inner);
    forall x | x in leaves ensures x in t.ord {
      assert multiset(t.ord)[x] > 0;
    }
    forall x | x in t.ord ensures x < t.elems + t.inner && (x < t.elems ==> x in leaves) {
      assert multiset(t.ord)[x] > 0;
    }
    forall k | 0 <= k < |t.ord| ensures t.ord[k] < t.elems + t.inner {
      assert t.ord[k] in t.ord;
    }
  }

  lemma FinishDads(t: Layout, list: seq<nat>, dl: seq<nat>)
    requires t.Shape() && t.ord[1..] == list && t.elems + t.inner <= |dl| && ListDads(list, dl, t.elems, t.inner)
    ensures Dads(t, dl, 0)
  {
    forall k | 0 < k < |t.ord| ensures dl[t.ord[k]] == t.Father(k) {
      assert t.ord[k] == list[k - 1];
    }
  }

  lemma FinishWeighs(t: Layout, list: seq<nat>, freq: seq<nat>)
    requires t.Shape() && t.ord[1..] == list && t.elems + t.inner <= |freq| && ListWeighs(list, freq, t.elems, t.inner)
    ensures Weighted(t, freq)
  {
    forall i | 0 <= i < t.inner ensures SonsWeigh(t, freq, i) {
      assert WeighsAt(list, freq, t.elems, t.inner, i);
      var s := 2 * (t.inner - i) - 1;
      assert t.ord[s] == list[s - 1] && t.ord[s + 1] == list[s];
    }
  }

  // ---- weights in the heap ----

  /** The frequencies of a set of nodes. */
  ghost function Weights(nodes: multiset<nat>, freq: seq<nat>): (w: multiset<nat>)
    requires forall x :: x in nodes ==> x < |freq|
    decreases |nodes|
  {
    if |nodes| == 0 then multiset{}
    else
      var x :| x in nodes;
      multiset{freq[x]} + Weights(nodes - multiset{x}, freq)
  }

  /** Any node may be taken out first. */
  lemma {:induction false} WeightsTake(nodes: multiset<nat>, freq: seq<nat>, y: nat)
    requires (forall x :: x in nodes ==> x < |freq|) && y in nodes
    ensures Weights(nodes, freq) == multiset{freq[y]} + Weights(nodes - multiset{y}, freq)
    decreases |nodes|
  {
    var x :| x in nodes && Weights(nodes, freq) == multiset{freq[x]} + Weights(nodes - multiset{x}, freq);
    hide Weights;
    if x != y {
      var c := nodes - multiset{x} - multiset{y};
      assert c == nodes - multiset{y} - multiset{x};
      WeightsTake(nodes - multiset{x}, freq, y);
      WeightsTake(nodes - multiset{y}, freq, x);
      Commute(freq[x], freq[y], Weights(c, freq));
    }
  }

  lemma Commute(a: nat, b: nat, c: multiset<nat>)
    ensures multiset{a} + (multiset{b} + c) == multiset{b} + (multiset{a} + c)
  {
  }

  lemma {:induction false} WeightsSame(nodes: multiset<nat>, freq: seq<nat>, freq': seq<nat>)
    requires forall x :: x in nodes ==> x < |freq| && x < |freq'| && freq[x] == freq'[x]
    ensures Weights(nodes, freq) == Weights(nodes, freq')
    decreases |nodes|
  {
    if |nodes| > 0 {
      var x :| x in nodes;
      WeightsTake(nodes, freq, x);
      WeightsTake(nodes, freq', x);
      WeightsSame(nodes - multiset{x}, freq, freq');
    }
  }

  lemma {:induction false} WeightsMember(nodes: multiset<nat>, freq: seq<nat>, w: nat)
    requires (forall x :: x in nodes ==> x < |freq|) && w in Weights(nodes, freq)
    ensures exists x :: x in nodes && freq[x] == w
    decreases |nodes|
  {
    var x :| x in nodes && Weights(nodes, freq) == multiset{freq[x]} + Weights(nodes - multiset{x}, freq);
    if freq[x] != w {
      WeightsMember(nodes - multiset{x}, freq, w);
      var y :| y in nodes - multiset{x} && freq[y] == w;
      assert y in nodes;
    }
  }

  lemma WeightsLeast(nodes: multiset<nat>, freq: seq<nat>, n: nat)
    requires (forall x :: x in nodes ==> x < |freq|) && n in nodes && forall x :: x in nodes ==> freq[n] <= freq[x]
    ensures IsLeast(freq[n], Weights(nodes, freq))
  {
    WeightsTake(nodes, freq, n);
    forall w | w in Weights(nodes, freq) ensures freq[n] <= w {
      WeightsMember(nodes, freq, w);
    }
  }

  /** Weights taken out one by one, and the joined weight put back. */
  lemma JoinWeights(w: multiset<nat>, w1: multiset<nat>, w2: multiset<nat>, j: multiset<nat>, a: nat, b: nat)
    requires w == multiset{a} + w1 && w1 == multiset{b} + w2 && j == multiset{a + b} + w2
    ensures w - multiset{a} == w1 && MergeTwo(w, a, b) == j
  {
  }

  lemma JoinedNodes(nodes: multiset<nat>, n: nat, m: nat, father: nat, bound: nat)
    requires n in nodes && m in nodes - multiset{n} && father !in nodes && father < bound && forall x :: x in nodes ==> x < bound
    ensures var joined, rest2 := Merged2(nodes, n, m, father), nodes - multiset{n} - multiset{m};
            && father in joined && joined - multiset{father} == rest2
            && (forall x :: x in joined ==> x < bound) && (forall x :: x in rest2 ==> x != father && x < bound)
  {
  }

  /** Joining the two lightest nodes is a greedy step on their weights. */
  lemma JoinIsGreedy(nodes: multiset<nat>, freq: seq<nat>, n: nat, m: nat, father: nat)
    requires forall x :: x in nodes ==> x < |freq|
    requires n in nodes && forall x :: x in nodes ==> freq[n] <= freq[x]
    requires m in nodes - multiset{n} && forall x :: x in nodes - multiset{n} ==> freq[m] <= freq[x]
    requires father < |freq| && father !in nodes
    ensures var f := freq[father := freq[n] + freq[m]];
            && (forall x :: x in Merged2(nodes, n, m, father) ==> x < |f|)
            && Greedy(Weights(nodes, freq)) == freq[n] + freq[m] + Greedy(Weights(Merged2(nodes, n, m, father), f))
  {
    hide Greedy, Weights, MergeTwo, Merged2;
    var f := freq[father := freq[n] + freq[m]];
    var rest := nodes - multiset{n};
    var rest2 := rest - multiset{m};
    var joined := Merged2(nodes, n, m, father);
    JoinedNodes(nodes, n, m, father, |freq|);
    WeightsLeast(nodes, freq, n);
    WeightsTake(nodes, freq, n);
    WeightsLeast(rest, freq, m);
    WeightsTake(rest, freq, m);
    WeightsSame(rest2, freq, f);
    WeightsTake(joined, f, father);
    JoinWeights(Weights(nodes, freq), Weights(rest, freq), Weights(rest2, freq), Weights(joined, f), freq[n], freq[m]);
    GreedyStep(Weights(nodes, freq), freq[n], freq[m]);
  }
}
