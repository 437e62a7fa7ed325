/** Double hashing over a prime number of slots: every probe visits every slot. */
module Probing {
  import opened Factor

  // ---- every probe visits every slot ----

  datatype Probe = Probe(start: nat, dec: nat)

  /** What make_hash promises for a table of p slots. */
  predicate Good(h: Probe, p: nat)
  {
    h.start < p && 1 <= h.dec < p
  }

  /** The k-th slot a probe looks at. */
  function Slot(h: Probe, p: nat, k: nat): (a: nat)
    requires Good(h, p)
    ensures a < p
  {
    if k == 0 then h.start
    else
      var a := Slot(h, p, k - 1);
      if a >= h.dec then a - h.dec else a - h.dec + p
  }

  /** If p divides k * d, it divides r * d for the remainder r of p by k. */
  lemma RemainderToo(p: nat, d: nat, k: nat, q: nat, r: nat, m: nat)
    requires p == k * q + r && k * d == p * m
    ensures q * m <= d || p == 0
    ensures r * d == p * (d - q * m)
  {
    Expand(k * q, r, d);
    assert (k * q) * d == q * (k * d) by { Assoc(q, k, d); assert k * q == q * k; }
    assert q * (p * m) == p * (q * m) by { Assoc(q, p, m); Assoc(p, q, m); assert q * p == p * q; }
    Difference(p, d, q * m);
    NotNegative(p, d - q * m);
  }

  /** A prime does not divide the product of two smaller numbers. */
  lemma {:induction false} NoZero(p: nat, d: nat, k: nat)
    requires Prime(p) && 0 < d < p && 0 < k < p
    ensures !Div(p, k * d)
    decreases k
  {
    var q, r := p / k, p % k;
    hide Prime;
    if k == 1 {
      OneTimes(p, d);
    } else if r == 0 {
      NotPrime(p, k);
    } else {
      NoZero(p, d, r);
      if Div(p, k * d) {
        DivParts(p, k * d);
        var m := k * d / p;
        RemainderToo(p, d, k, q, r, m);
        MulMod(p, d - q * m);
      }
    }
  }

  lemma OneTimes(p: nat, d: nat)
    requires 0 < d < p
    ensures !Div(p, 1 * d)
  {
  }

  /** A prime has no divisor but itself and one. */
  lemma NotPrime(p: nat, k: nat)
    requires Prime(p) && 2 <= k < p
    ensures p % k != 0
  {
    assert !Div(k, p);
  }

  lemma Expand(a: nat, b: nat, c: nat)
    ensures (a + b) * c == a * c + b * c
  {
  }

  lemma Difference(a: nat, b: int, c: int)
    ensures a * (b - c) == a * b - a * c
  {
  }

  lemma NotNegative(p: nat, x: int)
    ensures p > 0 && p * x >= 0 ==> x >= 0
  {
    if p > 0 && x < 0 {
      LessMul(p, 0, -x);
      assert p * x == -(p * -x);
    }
  }

  /** The k-th slot is the start less k decrements, but for whole tables. */
  lemma {:induction false} SlotIs(h: Probe, p: nat, k: nat) returns (m: nat)
    requires Good(h, p)
    ensures Slot(h, p, k) + k * h.dec == h.start + m * p
  {
    if k == 0 {
      m := 0;
    } else {
      m := SlotIs(h, p, k - 1);
      assert k * h.dec == (k - 1) * h.dec + h.dec;
      if Slot(h, p, k - 1) < h.dec {
        assert (m + 1) * p == m * p + p;
        m := m + 1;
      }
    }
  }

  lemma SlotsDistinct(h: Probe, p: nat, i: nat, k: nat)
    requires Good(h, p) && Prime(p) && i < k < p
    ensures Slot(h, p, i) != Slot(h, p, k)
  {
    if Slot(h, p, i) == Slot(h, p, k) {
      var m := SlotIs(h, p, i);
      var n := SlotIs(h, p, k);
      var d := k - i;
      assert d * h.dec == k * h.dec - i * h.dec by { Expand(d, i, h.dec); }
      assert d * h.dec == n * p - m * p == p * (n - m) by { Difference(p, n, m); assert n * p == p * n && m * p == p * m; }
      NotNegative(p, n - m);
      MulMod(p, n - m);
      NoZero(p, h.dec, d);
    }
  }

  function Visited(h: Probe, p: nat, n: nat): (s: set<nat>)
    requires Good(h, p)
  {
    if n == 0 then {} else Visited(h, p, n - 1) + {Slot(h, p, n - 1)}
  }

  /** A visited slot is one of the first n. */
  lemma {:induction false} VisitedFrom(h: Probe, p: nat, n: nat, x: nat) returns (k: nat)
    requires Good(h, p) && x in Visited(h, p, n)
    ensures k < n && Slot(h, p, k) == x
  {
    if x == Slot(h, p, n - 1) {
      k := n - 1;
    } else {
      k := VisitedFrom(h, p, n - 1, x);
    }
  }

  lemma {:induction false} VisitedSize(h: Probe, p: nat, n: nat)
    requires Good(h, p) && Prime(p) && n <= p
    ensures |Visited(h, p, n)| == n && forall x :: x in Visited(h, p, n) ==> x < p
  {
    hide Prime;
    if n > 0 {
      VisitedSize(h, p, n - 1);
      if Slot(h, p, n - 1) in Visited(h, p, n - 1) {
        var k := VisitedFrom(h, p, n - 1, Slot(h, p, n - 1));
        SlotsDistinct(h, p, k, n - 1);
      }
    }
  }

  function Below(p: nat): (s: set<nat>)
    ensures forall x :: x in s <==> 0 <= x < p
    ensures |s| == p
  {
    if p == 0 then {} else Below(p - 1) + {p - 1}
  }

  lemma SubsetOfSize(a: set<nat>, b: set<nat>)
    requires a <= b && |a| == |b|
    ensures a == b
  {
    if a != b {
      var x :| x in b && x !in a;
      assert a <= b - {x};
      SizeGrows(a, b - {x});
    }
  }

  lemma {:induction false} SizeGrows(a: set<nat>, b: set<nat>)
    requires a <= b
    ensures |a| <= |b|
    decreases |a|
  {
    if a != {} {
      var x :| x in a;
      SizeGrows(a - {x}, b - {x});
    }
  }

  /** With a prime number of slots, every slot is looked at within that many steps. */
  lemma ProbeHits(h: Probe, p: nat, x: nat) returns (k: nat)
    requires Good(h, p) && Prime(p) && x < p
    ensures k < p && Slot(h, p, k) == x
  {
    VisitedSize(h, p, p);
    SubsetOfSize(Visited(h, p, p), Below(p));
    k := VisitedFrom(h, p, p, x);
  }

  // ---- the sizes are prime ----

  /** None of the k numbers from lo on divides n. */
  predicate NoneDivides(n: nat, lo: nat, k: nat)
    requires lo > 0
    decreases k
  {
    k == 0 || (n % lo != 0 && NoneDivides(n, lo + 1, k - 1))
  }

  lemma {:induction false} NoneDividesFree(n: nat, lo: nat, k: nat)
    requires lo >= 2 && Free(n, lo) && NoneDivides(n, lo, k)
    ensures Free(n, lo + k)
    decreases k
  {
    if k > 0 {
      assert !Div(lo, n);
      NoneDividesFree(n, lo + 1, k - 1);
    }
  }

  lemma NameLow()
    ensures NoneDivides(16381, 2, 6)
    ensures NoneDivides(16381, 8, 6)
    ensures NoneDivides(16381, 14, 6)
    ensures NoneDivides(16381, 20, 6)
    ensures NoneDivides(16381, 26, 6)
    ensures NoneDivides(16381, 32, 6)
    ensures NoneDivides(16381, 38, 6)
    ensures NoneDivides(16381, 44, 6)
    ensures NoneDivides(16381, 50, 6)
    ensures NoneDivides(16381, 56, 6)
  {
  }

  lemma NameHigh()
    ensures NoneDivides(16381, 62, 6)
    ensures NoneDivides(16381, 68, 6)
    ensures NoneDivides(16381, 74, 6)
    ensures NoneDivides(16381, 80, 6)
    ensures NoneDivides(16381, 86, 6)
    ensures NoneDivides(16381, 92, 6)
    ensures NoneDivides(16381, 98, 6)
    ensures NoneDivides(16381, 104, 6)
    ensures NoneDivides(16381, 110, 6)
    ensures NoneDivides(16381, 116, 6)
    ensures NoneDivides(16381, 122, 6)
  {
  }

  lemma NamePrime()
    ensures Prime(16381)
  {
    hide NoneDivides, Prime;
    NameLow();
    NameHigh();
    NothingBelowTwo(16381);
    hide Free;
    NoneDividesFree(16381, 2, 6);
    NoneDividesFree(16381, 8, 6);
    NoneDividesFree(16381, 14, 6);
    NoneDividesFree(16381, 20, 6);
    NoneDividesFree(16381, 26, 6);
    NoneDividesFree(16381, 32, 6);
    NoneDividesFree(16381, 38, 6);
    NoneDividesFree(16381, 44, 6);
    NoneDividesFree(16381, 50, 6);
    NoneDividesFree(16381, 56, 6);
    NoneDividesFree(16381, 62, 6);
    NoneDividesFree(16381, 68, 6);
    NoneDividesFree(16381, 74, 6);
    NoneDividesFree(16381, 80, 6);
    NoneDividesFree(16381, 86, 6);
    NoneDividesFree(16381, 92, 6);
    NoneDividesFree(16381, 98, 6);
    NoneDividesFree(16381, 104, 6);
    NoneDividesFree(16381, 110, 6);
    NoneDividesFree(16381, 116, 6);
    NoneDividesFree(16381, 122, 6);
    FreeIsPrime(16381, 127);
  }

  lemma PackageLow()
    ensures NoneDivides(10007, 2, 6)
    ensures NoneDivides(10007, 8, 6)
    ensures NoneDivides(10007, 14, 6)
    ensures NoneDivides(10007, 20, 6)
    ensures NoneDivides(10007, 26, 6)
    ensures NoneDivides(10007, 32, 6)
    ensures NoneDivides(10007, 38, 6)
    ensures NoneDivides(10007, 44, 6)
  {
  }

  lemma PackageHigh()
    ensures NoneDivides(10007, 50, 6)
    ensures NoneDivides(10007, 56, 6)
    ensures NoneDivides(10007, 62, 6)
    ensures NoneDivides(10007, 68, 6)
    ensures NoneDivides(10007, 74, 6)
    ensures NoneDivides(10007, 80, 6)
    ensures NoneDivides(10007, 86, 6)
    ensures NoneDivides(10007, 92, 6)
    ensures NoneDivides(10007, 98, 3)
  {
  }

  lemma PackagePrime()
    ensures Prime(10007)
  {
    hide NoneDivides, Prime;
    PackageLow();
    PackageHigh();
    NothingBelowTwo(10007);
    hide Free;
    NoneDividesFree(10007, 2, 6);
    NoneDividesFree(10007, 8, 6);
    NoneDividesFree(10007, 14, 6);
    NoneDividesFree(10007, 20, 6);
    NoneDividesFree(10007, 26, 6);
    NoneDividesFree(10007, 32, 6);
    NoneDividesFree(10007, 38, 6);
    NoneDividesFree(10007, 44, 6);
    NoneDividesFree(10007, 50, 6);
    NoneDividesFree(10007, 56, 6);
    NoneDividesFree(10007, 62, 6);
    NoneDividesFree(10007, 68, 6);
    NoneDividesFree(10007, 74, 6);
    NoneDividesFree(10007, 80, 6);
    NoneDividesFree(10007, 86, 6);
    NoneDividesFree(10007, 92, 6);
    NoneDividesFree(10007, 98, 3);
    FreeIsPrime(10007, 100);
  }

  lemma StatusLow()
    ensures NoneDivides(8191, 2, 6)
    ensures NoneDivides(8191, 8, 6)
    ensures NoneDivides(8191, 14, 6)
    ensures NoneDivides(8191, 20, 6)
    ensures NoneDivides(8191, 26, 6)
    ensures NoneDivides(8191, 32, 6)
    ensures NoneDivides(8191, 38, 6)
  {
  }

  lemma StatusHigh()
    ensures NoneDivides(8191, 44, 6)
    ensures NoneDivides(8191, 50, 6)
    ensures NoneDivides(8191, 56, 6)
    ensures NoneDivides(8191, 62, 6)
    ensures NoneDivides(8191, 68, 6)
    ensures NoneDivides(8191, 74, 6)
    ensures NoneDivides(8191, 80, 6)
    ensures NoneDivides(8191, 86, 5)
  {
  }

  lemma StatusPrime()
    ensures Prime(8191)
  {
    hide NoneDivides, Prime;
    StatusLow();
    StatusHigh();
    NothingBelowTwo(8191);
    hide Free;
    NoneDividesFree(8191, 2, 6);
    NoneDividesFree(8191, 8, 6);
    NoneDividesFree(8191, 14, 6);
    NoneDividesFree(8191, 20, 6);
    NoneDividesFree(8191, 26, 6);
    NoneDividesFree(8191, 32, 6);
    NoneDividesFree(8191, 38, 6);
    NoneDividesFree(8191, 44, 6);
    NoneDividesFree(8191, 50, 6);
    NoneDividesFree(8191, 56, 6);
    NoneDividesFree(8191, 62, 6);
    NoneDividesFree(8191, 68, 6);
    NoneDividesFree(8191, 74, 6);
    NoneDividesFree(8191, 80, 6);
    NoneDividesFree(8191, 86, 5);
    FreeIsPrime(8191, 90);
  }

  lemma NothingBelowTwo(n: nat)
    ensures Free(n, 2)
  {
  }

  const NAME_HASH_PRIME := 16381
  const PACKAGE_HASH_PRIME := 10007
  const STATUS_HASH_PRIME := 8191

  lemma SizesArePrime()
    ensures Prime(NAME_HASH_PRIME) && Prime(PACKAGE_HASH_PRIME) && Prime(STATUS_HASH_PRIME)
  {
    NamePrime();
    PackagePrime();
    StatusPrime();
  }
}
