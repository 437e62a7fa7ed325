/** The weighted path length of a Huffman tree is the sum of its internal weights. */
module TreeCost {
  import opened Inflate
  import opened Sums
  import opened BitLengths

  /** An internal node weighs as much as its two sons. */
  ghost predicate Weighted(t: Layout, freq: seq<nat>)
    requires t.Shape() && t.elems + t.inner <= |freq|
  {
    forall j :: 0 <= j < t.inner ==> SonsWeigh(t, freq, j)
  }

  /** The list is sorted, greatest frequency first. */
  ghost predicate Sorted(t: Layout, freq: seq<nat>)
  {
    && (forall k :: 0 <= k < |t.ord| ==> t.ord[k] < |freq|)
    && forall a, b :: 0 <= a < b < |t.ord| ==> freq[t.ord[b]] <= freq[t.ord[a]]
  }

  ghost predicate SonsWeigh(t: Layout, freq: seq<nat>, j: nat)
    requires t.Shape() && t.elems + t.inner <= |freq| && j < t.inner
  {
    var s := 2 * (t.inner - j) - 1;
    freq[t.elems + j] == freq[t.ord[s]] + freq[t.ord[s + 1]]
  }

  /** Weight times depth of node k while it is pending after i + 1 visits. */
  function Open(t: Layout, freq: seq<nat>, dl: seq<nat>, i: nat, k: nat): (p: nat)
    requires |t.ord| == 2 * t.inner + 1 && |t.pos| == t.inner && k < |t.ord|
    requires forall k :: 0 <= k < |t.ord| ==> t.ord[k] < |freq| && t.ord[k] < |dl|
  {
    if 0 < k && i < k && t.FatherSeen(k, i) then Bill(freq[t.ord[k]], dl[t.ord[k]]) else 0
  }

  function Opens(t: Layout, freq: seq<nat>, dl: seq<nat>, i: nat): (p: seq<int>)
    requires |t.ord| == 2 * t.inner + 1 && |t.pos| == t.inner
    requires forall k :: 0 <= k < |t.ord| ==> t.ord[k] < |freq| && t.ord[k] < |dl|
  {
    seq(|t.ord|, k requires 0 <= k < |t.ord| => Open(t, freq, dl, i, k))
  }

  /** Weights of the internal nodes among the first i + 1. */
  function Inners(t: Layout, freq: seq<nat>, i: nat): (p: seq<int>)
    requires |t.pos| == t.inner && t.elems + t.inner <= |freq|
  {
    seq(t.inner, j requires 0 <= j < t.inner => if t.pos[j] <= i then freq[t.elems + j] else 0)
  }

  /** Lengths of the leaves among the first i + 1 nodes. */
  function LensTo(t: Layout, dl: seq<nat>, i: nat): (lens: seq<nat>)
    requires i < |t.ord| && forall k :: 0 <= k < |t.ord| ==> t.ord[k] < |dl|
    ensures |lens| == t.elems
  {
    if i == 0 then Zeros(t.elems)
    else if t.ord[i] < t.elems then LensTo(t, dl, i - 1)[t.ord[i] := dl[t.ord[i]]]
    else LensTo(t, dl, i - 1)
  }

  lemma OpensLeaf(t: Layout, freq: seq<nat>, dl: seq<nat>, i: nat)
    requires t.Shape() && t.elems + t.inner <= |dl| && |dl| <= |freq|
    requires i + 1 < |t.ord| && t.ord[i + 1] < t.elems
    ensures Opens(t, freq, dl, i + 1) == Opens(t, freq, dl, i)[i + 1 := 0]
    ensures Inners(t, freq, i + 1) == Inners(t, freq, i)
  {
    forall k | i + 1 < k < |t.ord| ensures t.FatherSeen(k, i) == t.FatherSeen(k, i + 1) {
      var j := t.Father(k) - t.elems;
      assert t.ord[t.pos[j]] == t.elems + j;
    }
    forall j | 0 <= j < t.inner ensures t.pos[j] != i + 1 {
      assert t.ord[t.pos[j]] == t.elems + j;
    }
  }

  lemma OpensNode(t: Layout, freq: seq<nat>, dl: seq<nat>, i: nat, j: nat)
    requires t.Shape() && t.elems + t.inner <= |dl| && |dl| <= |freq|
    requires i + 1 < |t.ord| && t.ord[i + 1] == t.elems + j
    ensures var s := 2 * (t.inner - j) - 1;
            && j < t.inner && t.pos[j] == i + 1 && i + 1 < s && s + 1 < |t.ord|
            && Open(t, freq, dl, i, s) == 0 && Open(t, freq, dl, i, s + 1) == 0
            && t.Father(s) == t.ord[i + 1] && t.Father(s + 1) == t.ord[i + 1]
            && Opens(t, freq, dl, i + 1)
               == Opens(t, freq, dl, i)[i + 1 := 0][s := Bill(freq[t.ord[s]], dl[t.ord[s]])][s + 1 := Bill(freq[t.ord[s + 1]], dl[t.ord[s + 1]])]
  {
    hide Bill;
    assert t.ord[t.pos[j]] == t.elems + j;
    assert t.pos[j] == i + 1;
    var s := 2 * (t.inner - j) - 1;
    forall k | 0 < k < |t.ord| && t.Father(k) != t.elems + j
      ensures k != s && k != s + 1 && t.FatherSeen(k, i) == t.FatherSeen(k, i + 1)
    {
      var q := t.Father(k) - t.elems;
      assert t.ord[t.pos[q]] == t.elems + q;
    }
    forall k | 0 < k < |t.ord| && t.Father(k) == t.elems + j ensures k == s || k == s + 1 {
    }
  }

  lemma InnersNode(t: Layout, freq: seq<nat>, i: nat, j: nat)
    requires t.Shape() && t.elems + t.inner <= |freq| && i + 1 < |t.ord| && t.ord[i + 1] == t.elems + j && j < t.inner
    ensures Inners(t, freq, i + 1) == Inners(t, freq, i)[j := freq[t.elems + j]]
  {
    assert t.ord[t.pos[j]] == t.elems + j;
    forall q | 0 <= q < t.inner && q != j ensures t.pos[q] != i + 1 {
      assert t.ord[t.pos[q]] == t.elems + q;
    }
  }

  ghost predicate CostSoFar(t: Layout, freq: seq<nat>, dl: seq<nat>, i: nat)
    requires t.Shape() && t.elems + t.inner <= |dl| && |dl| <= |freq| && i < |t.ord|
  {
    Cost(freq, LensTo(t, dl, i), Zeros(t.elems)) + Sum(Opens(t, freq, dl, i)) == Sum(Inners(t, freq, i))
  }

  lemma CostLeaf(t: Layout, freq: seq<nat>, dl: seq<nat>, i: nat)
    requires t.Shape() && t.elems + t.inner <= |dl| && |dl| <= |freq| && i + 1 < |t.ord| && t.ord[i + 1] < t.elems
    requires CostSoFar(t, freq, dl, i) && dl[t.ord[i + 1]] > 0
    requires LensTo(t, dl, i)[t.ord[i + 1]] == 0
    ensures CostSoFar(t, freq, dl, i + 1)
  {
    hide Cost, Sum, Opens, Inners, LensTo, Bill;
    var n := t.ord[i + 1];
    var lens := LensTo(t, dl, i);
    LensToLeaf(t, dl, i);
    OpensLeaf(t, freq, dl, i);
    FatherBefore(t, i + 1, i);
    OpenAt(t, freq, dl, i, i + 1);
    SumUpdate(Opens(t, freq, dl, i), i + 1, 0);
    CostGrows(freq, lens, n, dl[n]);
  }

  lemma LensToLeaf(t: Layout, dl: seq<nat>, i: nat)
    requires t.Shape() && t.elems + t.inner <= |dl| && i + 1 < |t.ord| && t.ord[i + 1] < t.elems
    ensures LensTo(t, dl, i + 1) == LensTo(t, dl, i)[t.ord[i + 1] := dl[t.ord[i + 1]]]
  {
  }

  lemma CostGrows(freq: seq<nat>, lens: seq<nat>, n: nat, b: nat)
    requires |lens| <= |freq| && n < |lens| && b > 0 && lens[n] == 0
    ensures Cost(freq, lens[n := b], Zeros(|lens|)) == Cost(freq, lens, Zeros(|lens|)) + Bill(freq[n], b)
  {
    CostUpdate(freq, lens, Zeros(|lens|), n, b);
  }

  lemma OpenAt(t: Layout, freq: seq<nat>, dl: seq<nat>, i: nat, k: nat)
    requires t.Shape() && t.elems + t.inner <= |dl| && |dl| <= |freq| && k < |t.ord|
    ensures |Opens(t, freq, dl, i)| == |t.ord| && Opens(t, freq, dl, i)[k] == Open(t, freq, dl, i, k)
  {
  }

  lemma CostNode(t: Layout, freq: seq<nat>, dl: seq<nat>, i: nat)
    requires t.Shape() && t.elems + t.inner <= |dl| && |dl| <= |freq| && i + 1 < |t.ord| && t.ord[i + 1] >= t.elems
    requires CostSoFar(t, freq, dl, i) && Unclipped(t, dl, 2 * t.inner) && Weighted(t, freq)
    ensures CostSoFar(t, freq, dl, i + 1)
  {
    hide Cost, Sum, Opens, Inners, LensTo, Bill, Unclipped, Weighted, Layout.Shape;
    var n := t.ord[i + 1];
    var j := n - t.elems;
    var s := 2 * (t.inner - j) - 1;
    SonsBelow(t, freq, dl, i, j);
    OpensNode(t, freq, dl, i, j);
    InnersNode(t, freq, i, j);
    OpenAt(t, freq, dl, i, i + 1);
    OpenAt(t, freq, dl, i, s);
    OpenAt(t, freq, dl, i, s + 1);
    InnerAt(t, freq, i, j);
    NodeSums(Opens(t, freq, dl, i), i + 1, s, freq[t.ord[s]], freq[t.ord[s + 1]], dl[n]);
    SumUpdate(Inners(t, freq, i), j, freq[n]);
  }

  lemma SonsBelow(t: Layout, freq: seq<nat>, dl: seq<nat>, i: nat, j: nat)
    requires t.Shape() && t.elems + t.inner <= |dl| && |dl| <= |freq| && i + 1 < |t.ord| && t.ord[i + 1] == t.elems + j
    requires Unclipped(t, dl, 2 * t.inner) && Weighted(t, freq)
    ensures |t.ord| == 2 * t.inner + 1 && |t.pos| == t.inner && j < t.inner
    ensures forall k :: 0 <= k < |t.ord| ==> t.ord[k] < |dl|
    ensures var s := 2 * (t.inner - j) - 1;
            && i + 1 < s && s + 1 < |t.ord| && t.FatherSeen(i + 1, i) && t.pos[j] == i + 1
            && dl[t.ord[s]] == dl[t.ord[i + 1]] + 1 && dl[t.ord[s + 1]] == dl[t.ord[i + 1]] + 1
            && freq[t.ord[i + 1]] == freq[t.ord[s]] + freq[t.ord[s + 1]]
    ensures LensTo(t, dl, i + 1) == LensTo(t, dl, i)
  {
    var s := 2 * (t.inner - j) - 1;
    assert t.ord[t.pos[j]] == t.elems + j;
    assert SonsWeigh(t, freq, j);
    FatherBefore(t, i + 1, i);
    assert t.Father(s) == t.elems + j && t.Father(s + 1) == t.elems + j;
  }

  lemma InnerAt(t: Layout, freq: seq<nat>, i: nat, j: nat)
    requires |t.pos| == t.inner && t.elems + t.inner <= |freq| && j < t.inner
    ensures |Inners(t, freq, i)| == t.inner
    ensures Inners(t, freq, i)[j] == if t.pos[j] <= i then freq[t.elems + j] else 0
  {
  }

  /** Replacing a node of weight a + b at depth d by its sons one level down adds a + b. */
  lemma NodeSums(o: seq<int>, k: nat, s: nat, a: nat, b: nat, d: nat)
    requires k < s < s + 1 < |o| && o[k] == Bill(a + b, d) && o[s] == 0 && o[s + 1] == 0
    ensures Sum(o[k := 0][s := Bill(a, d + 1)][s + 1 := Bill(b, d + 1)]) == Sum(o) + a + b
  {
    hide Sum;
    var p, q := Bill(a, d + 1), Bill(b, d + 1);
    SumUpdate(o, k, 0);
    SumUpdate(o[k := 0], s, p);
    SumUpdate(o[k := 0][s := p], s + 1, q);
    assert p + q == Bill(a + b, d) + (a + b);
  }

  lemma OpensStart(t: Layout, freq: seq<nat>, dl: seq<nat>)
    requires t.Shape() && t.elems + t.inner <= |dl| && |dl| <= |freq|
    ensures Opens(t, freq, dl, 0) == Zeros(|t.ord|)[1 := Bill(freq[t.ord[1]], dl[t.ord[1]])][2 := Bill(freq[t.ord[2]], dl[t.ord[2]])]
    ensures t.Father(1) == t.ord[0] && t.Father(2) == t.ord[0]
  {
    RootFirst(t);
    forall k | 2 < k < |t.ord| ensures !t.FatherSeen(k, 0) {
      assert t.Father(k) - t.elems != t.inner - 1;
    }
  }

  lemma InnersStart(t: Layout, freq: seq<nat>)
    requires t.Shape() && t.elems + t.inner <= |freq|
    ensures Inners(t, freq, 0) == Zeros(t.inner)[t.inner - 1 := freq[t.ord[0]]]
  {
    RootFirst(t);
  }

  lemma CostStart(t: Layout, freq: seq<nat>, dl: seq<nat>)
    requires t.Shape() && t.elems + t.inner <= |dl| && |dl| <= |freq| && dl[t.ord[0]] == 0
    requires Unclipped(t, dl, 2 * t.inner) && Weighted(t, freq)
    ensures CostSoFar(t, freq, dl, 0)
  {
    hide Cost, Sum, Opens, Inners;
    FirstSons(t, freq, dl);
    RootFirst(t);
    hide Layout.Shape, Unclipped, Weighted;
    OpensStart(t, freq, dl);
    InnersStart(t, freq);
    CostZero(freq, Zeros(t.elems), Zeros(t.elems));
    SumTwo(|t.ord|, freq[t.ord[1]], freq[t.ord[2]]);
    SumOne(t.inner, t.inner - 1, freq[t.ord[0]]);
  }

  lemma FirstSons(t: Layout, freq: seq<nat>, dl: seq<nat>)
    requires t.Shape() && t.elems + t.inner <= |dl| && |dl| <= |freq| && dl[t.ord[0]] == 0
    requires Unclipped(t, dl, 2 * t.inner) && Weighted(t, freq)
    ensures dl[t.ord[1]] == 1 && dl[t.ord[2]] == 1 && SonsWeigh(t, freq, t.inner - 1)
  {
    hide Opens, Bill;
    OpensStart(t, freq, dl);
  }

  lemma SumTwo(n: nat, x: nat, y: nat)
    requires n >= 3
    ensures Sum(Zeros(n)[1 := Bill(x, 1)][2 := Bill(y, 1)]) == x + y
  {
    SumOne(n, 1, x);
    SumUpdate(Zeros(n)[1 := x], 2, y);
  }

  lemma SumOne(n: nat, k: nat, x: nat)
    requires k < n
    ensures Sum(Zeros(n)[k := x]) == x
  {
    SumZero(Zeros(n));
    SumUpdate(Zeros(n), k, x);
  }

  lemma {:induction false} LensToUnseen(t: Layout, dl: seq<nat>, i: nat, n: nat)
    requires t.Shape() && t.elems + t.inner <= |dl| && i < |t.ord| && n < t.elems
    requires forall k :: 0 < k <= i ==> t.ord[k] != n
    ensures LensTo(t, dl, i)[n] == 0
  {
    if i > 0 {
      LensToUnseen(t, dl, i - 1, n);
    }
  }

  lemma {:induction false} LensToSeen(t: Layout, dl: seq<nat>, i: nat, k: nat)
    requires t.Shape() && t.elems + t.inner <= |dl| && 0 < k <= i < |t.ord| && t.ord[k] < t.elems
    ensures LensTo(t, dl, i)[t.ord[k]] == dl[t.ord[k]]
  {
    if k < i {
      LensToSeen(t, dl, i - 1, k);
      OthersDiffer(t, i);
    }
  }

  lemma {:induction false} CostUpTo(t: Layout, freq: seq<nat>, dl: seq<nat>, i: nat)
    requires t.Shape() && t.elems + t.inner <= |dl| && |dl| <= |freq| && i < |t.ord| && dl[t.ord[0]] == 0
    requires Unclipped(t, dl, 2 * t.inner) && Weighted(t, freq)
    ensures CostSoFar(t, freq, dl, i)
  {
    hide CostSoFar, Weighted;
    if i == 0 {
      CostStart(t, freq, dl);
    } else {
      CostUpTo(t, freq, dl, i - 1);
      if t.ord[i] < t.elems {
        OthersDiffer(t, i);
        LensToUnseen(t, dl, i - 1, t.ord[i]);
        CostLeaf(t, freq, dl, i - 1);
      } else {
        CostNode(t, freq, dl, i - 1);
      }
    }
  }

  /** When no depth was clipped, the code costs as many bits as the internal nodes weigh. */
  lemma PathLengthIsInnerWeight(t: Layout, freq: seq<nat>, dl: seq<nat>, maxCode: nat)
    requires t.Shape() && t.elems + t.inner <= |dl| && |dl| <= |freq| && dl[t.ord[0]] == 0
    requires Unclipped(t, dl, 2 * t.inner) && Weighted(t, freq) && Leaves(t, freq, dl, maxCode)
    ensures Cost(freq, dl[..t.elems], Zeros(t.elems)) == Sum(freq[t.elems..t.elems + t.inner])
  {
    hide Cost, Sum, Bill, Weighted, Unclipped;
    var i := 2 * t.inner;
    CostUpTo(t, freq, dl, i);
    LensAtEnd(t, freq, dl, maxCode);
    SumZero(Opens(t, freq, dl, i));
    assert Inners(t, freq, i) == freq[t.elems..t.elems + t.inner];
  }

  lemma LensAtEnd(t: Layout, freq: seq<nat>, dl: seq<nat>, maxCode: nat)
    requires t.Shape() && t.elems + t.inner <= |dl| && |dl| <= |freq| && Leaves(t, freq, dl, maxCode)
    ensures LensTo(t, dl, 2 * t.inner) == dl[..t.elems]
  {
    var i := 2 * t.inner;
    var lens := LensTo(t, dl, i);
    RootFirst(t);
    forall n | 0 <= n < t.elems ensures lens[n] == dl[n] {
      if freq[n] > 0 {
        var k :| 0 <= k < |t.ord| && t.ord[k] == n;
        LensToSeen(t, dl, i, k);
      } else {
        LensToUnseen(t, dl, i, n);
      }
    }
  }
}
