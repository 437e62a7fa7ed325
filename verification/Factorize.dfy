/** factorize, isqrt_odd and print_w. */
module Factorize {
  import opened Wheel
  import opened Factor

  const HALF := 0x1_0000_0000
  const WIDE := 0x1_0000_0000_0000_0000

  // ---- powers and products ----

  function Pow(n: nat, k: nat): (p: nat)
  {
    if k == 0 then 1 else n * Pow(n, k - 1)
  }

  lemma {:induction false} PowMul(a: nat, b: nat, k: nat)
    ensures Pow(a * b, k) == Pow(a, k) * Pow(b, k)
  {
    if k > 0 {
      PowMul(a, b, k - 1);
      Swap4(a, b, Pow(a, k - 1), Pow(b, k - 1));
    }
  }

  lemma Swap4(a: nat, b: nat, c: nat, d: nat)
    ensures (a * b) * (c * d) == (a * c) * (b * d)
  {
    Assoc(a, b, c * d);
    Assoc(b, c, d);
    Assoc(c, b, d);
    Assoc(a, c, b * d);
    assert b * c == c * b;
  }

  lemma {:induction false} PowAdd(n: nat, i: nat, k: nat)
    ensures Pow(n, i + k) == Pow(n, i) * Pow(n, k)
  {
    if i > 0 {
      PowAdd(n, i - 1, k);
      Assoc(n, Pow(n, i - 1), Pow(n, k));
    }
  }

  /** A square to a power is its root to twice that power. */
  lemma PowSquare(s: nat, k: nat)
    ensures Pow(s * s, k) == Pow(s, 2 * k)
  {
    PowMul(s, s, k);
    PowAdd(s, k, k);
  }

  lemma {:induction false} PowGrows(a: nat, b: nat, k: nat)
    requires a <= b
    ensures Pow(a, k) <= Pow(b, k)
  {
    if k > 0 {
      PowGrows(a, b, k - 1);
      MulGrows(a, b, Pow(a, k - 1), Pow(b, k - 1));
    }
  }

  lemma {:induction false} PowUp(n: nat, i: nat, k: nat)
    requires n >= 1 && i <= k
    ensures 1 <= Pow(n, i) <= Pow(n, k)
  {
    if k > 0 {
      if i == k {
        PowUp(n, i - 1, k - 1);
        MulGrows(1, n, 1, Pow(n, i - 1));
      } else {
        PowUp(n, i, k - 1);
        MulGrows(1, n, Pow(n, k - 1), Pow(n, k - 1));
      }
    }
  }

  lemma PowOne(k: nat)
    ensures Pow(1, k) == 1
  {
  }

  lemma Wide64()
    ensures Pow(2, 64) == WIDE
  {
    assert Pow(2, 4) == 16;
    PowAdd(2, 4, 4);
    PowAdd(2, 8, 8);
    PowAdd(2, 16, 16);
    PowAdd(2, 32, 32);
  }

  /** A number of two or more whose power fits in 64 bits was raised to less than 64. */
  lemma CountBound(n: nat, k: nat)
    requires n >= 2 && Pow(n, k) < WIDE
    ensures k < 64
  {
    hide Pow;
    Wide64();
    PowGrows(2, n, k);
    if k >= 64 {
      PowUp(2, 64, k);
    }
  }

  function Product(s: seq<nat>): (p: nat)
  {
    if s == [] then 1 else Product(s[..|s| - 1]) * s[|s| - 1]
  }

  lemma {:induction false} ProductAppend(a: seq<nat>, b: seq<nat>)
    ensures Product(a + b) == Product(a) * Product(b)
  {
    if b == [] {
      assert a + b == a;
    } else {
      assert (a + b)[..|a + b| - 1] == a + b[..|b| - 1];
      ProductAppend(a, b[..|b| - 1]);
      Assoc(Product(a), Product(b[..|b| - 1]), b[|b| - 1]);
    }
  }

  function Times(n: nat, k: nat): (s: seq<nat>)
    ensures |s| == k && forall i :: 0 <= i < k ==> s[i] == n
  {
    seq(k, i => n)
  }

  lemma {:induction false} ProductTimes(n: nat, k: nat)
    ensures Product(Times(n, k)) == Pow(n, k)
    decreases k
  {
    if k > 0 {
      assert Times(n, k)[..k - 1] == Times(n, k - 1);
      ProductTimes(n, k - 1);
    }
  }

  ghost predicate AllPrime(s: seq<nat>)
  {
    forall i :: 0 <= i < |s| ==> Prime(s[i])
  }

  // ---- the order of what is printed ----

  ghost predicate Rising(s: seq<nat>)
  {
    forall i, j :: 0 <= i < j < |s| ==> s[i] <= s[j]
  }

  ghost predicate UpTo(s: seq<nat>, f: nat)
  {
    forall i :: 0 <= i < |s| ==> s[i] <= f
  }

  /** Divisors of n. */
  ghost predicate Parts(s: seq<nat>, n: nat)
  {
    forall i :: 0 <= i < |s| ==> s[i] > 0 && Div(s[i], n)
  }

  lemma RisingTimes(s: seq<nat>, f: nat, g: nat, k: nat)
    requires Rising(s) && UpTo(s, f) && f <= g
    ensures Rising(s + Times(g, k)) && UpTo(s + Times(g, k), g)
  {
  }

  /** What is left when no number below f divides it has no smaller prime factors than f. */
  lemma RisingJoin(s: seq<nat>, f: nat, u: seq<nat>, n: nat)
    requires Rising(s) && UpTo(s, f) && Rising(u) && Parts(u, n) && AllPrime(u) && Free(n, f)
    ensures Rising(s + u)
  {
    forall i | 0 <= i < |u| ensures u[i] >= f {
      assert Prime(u[i]) && Div(u[i], n);
    }
  }

  lemma PartsJoin(s: seq<nat>, u: seq<nat>, m: nat, n: nat)
    requires Parts(s, n) && Parts(u, m) && m > 0 && Div(m, n)
    ensures Parts(s + u, n) && Parts(u, n)
  {
    hide Div;
    forall i | 0 <= i < |u| ensures Div(u[i], n) {
      DivTrans(u[i], m, n);
    }
  }

  lemma PartsTimes(s: seq<nat>, f: nat, k: nat, n: nat)
    requires Parts(s, n) && f > 0 && Div(f, n)
    ensures Parts(s + Times(f, k), n)
  {
  }

  lemma FactorsPrime(s: seq<nat>, n: nat, k: nat)
    requires Factors(s, n, k)
    ensures AllPrime(s)
  {
  }

  lemma TakenOut(n: nat, f: nat, n0: nat)
    requires n > 0 && f > 0 && n % f == 0 && Div(n, n0)
    ensures n / f > 0 && n == f * (n / f) && Div(f, n0) && Div(n / f, n0)
  {
    DivParts(f, n);
    BothDivide(f, n / f, n);
    DivTrans(f, n, n0);
    DivTrans(n / f, n, n0);
  }

  lemma BothDivide(f: nat, m: nat, n: nat)
    requires f > 0 && m > 0 && n == f * m
    ensures Div(f, n) && Div(m, n)
  {
    MulMod(f, m);
    MulMod(m, f);
    assert f * m == m * f;
  }

  lemma LastIsLargest(n: nat, f: nat)
    requires Prime(n) && Free(n, f)
    ensures n >= f
  {
    if n < f {
      assert Div(n, n);
    }
  }

  lemma OneRising(n: nat, k: nat)
    requires n > 0
    ensures Rising(Times(n, k)) && Parts(Times(n, k), n)
  {
  }

  lemma SelfDivides(n: nat)
    requires n > 0
    ensures Div(n, n)
  {
  }

  lemma UpToMore(s: seq<nat>, f: nat, g: nat)
    requires UpTo(s, f) && f <= g
    ensures UpTo(s, g)
  {
  }

  lemma NoneRising()
    ensures Rising([]) && forall n :: Parts([], n) && UpTo([], n)
  {
  }

  // ---- the program ----

  ghost predicate IsRoot(isqrt: nat -> nat)
  {
    forall n: nat :: isqrt(n) * isqrt(n) <= n < (isqrt(n) + 1) * (isqrt(n) + 1)
  }

  /** A number is printed, or the line is ended. */
  datatype Item = Number(n: nat) | Newline

  function Numbers(s: seq<nat>): (r: seq<Item>)
    ensures |r| == |s| && forall i :: 0 <= i < |s| ==> r[i] == Number(s[i])
  {
    seq(|s|, i requires 0 <= i < |s| => Number(s[i]))
  }

  /** What is left to print for n, each factor k times: primes only, and their product is the k-th power of n. */
  ghost predicate Factors(s: seq<nat>, n: nat, k: nat)
  {
    AllPrime(s) && Product(s) == Pow(n, k)
  }

  /** s has been printed on the way from n0 to n. */
  ghost predicate Done(s: seq<nat>, n0: nat, n: nat, k: nat)
  {
    AllPrime(s) && Product(s) * Pow(n, k) == Pow(n0, k)
  }

  lemma DoneMore(s: seq<nat>, n0: nat, n: nat, k: nat, f: nat, m: nat)
    requires Done(s, n0, n, k) && Prime(f) && n == f * m
    ensures Done(s + Times(f, k), n0, m, k)
  {
    hide Pow, Product, Prime;
    PowMul(f, m, k);
    ProductAppend(s, Times(f, k));
    ProductTimes(f, k);
    Assoc(Product(s), Pow(f, k), Pow(m, k));
  }

  lemma DoneAll(s: seq<nat>, n0: nat, n: nat, k: nat, t: seq<nat>)
    requires Done(s, n0, n, k) && Factors(t, n, k)
    ensures Factors(s + t, n0, k)
  {
    hide Pow, Product, Prime;
    ProductAppend(s, t);
  }

  /** s is the root of a number that is not a square, made odd. */
  ghost predicate OddRoot(isqrt: nat -> nat, n: nat, s: nat)
  {
    var r := isqrt(n);
    n >= 2 && r * r < n < (r + 1) * (r + 1) && s <= r <= s + 1 && (r == s + 1 ==> r % 2 == 0) && 0 < s && r < HALF
  }

  lemma RootBound(r: nat, n: nat)
    requires r * r <= n < WIDE
    ensures r < HALF
  {
    if r >= HALF {
      MulGrows(HALF, r, HALF, r);
    }
  }

  lemma RootPositive(r: nat, n: nat)
    requires r * r <= n < (r + 1) * (r + 1) && n >= 1
    ensures r >= 1 && (n >= 4 ==> r < n)
  {
    if r >= n {
      MulGrows(n, r, n, r);
      assert n >= 4 ==> n * n >= 4 * n;
    }
  }

  /** No divisor up to the odd root, and not 2: the number is prime. */
  lemma LastIsPrime(isqrt: nat -> nat, n: nat, s: nat, f: nat)
    requires OddRoot(isqrt, n, s) && f >= 2 && f >= s && Free(n, f + 1)
    ensures Prime(n)
  {
    var r := isqrt(n);
    forall d | 2 <= d < r + 1 ensures !Div(d, n) {
      if d > f && Div(d, n) {
        assert d == r && r % 2 == 0 && Div(2, r);
        DivTrans(2, r, n);
      }
    }
    FreeIsPrime(n, r);
  }

  /** Beyond the last divisor of 32 bits there is nothing left to try. */
  lemma LastIsPrime32(isqrt: nat -> nat, n: nat, s: nat, f: nat)
    requires OddRoot(isqrt, n, s) && f >= HALF && Free(n, f)
    ensures Prime(n)
  {
    FreeIsPrime(n, isqrt(n));
  }

  /** What the wheel passes over divides nothing that is left. */
  lemma PassFree(tab: seq<nat>, w: nat, f: nat, turns: nat, n: nat)
    requires WheelOk(tab) && OnWheel(tab, w, f, turns) && Free(n, f + 1)
    ensures Free(n, f + tab[w])
  {
    hide WheelOk, OnWheel, Div;
    assert w < |tab| by { OnWheelInside(tab, w, f, turns); }
    forall x | 2 <= x < f + tab[w] ensures !Div(x, n) {
      if x > f && Div(x, n) {
        var p := PassedHasDivisor(tab, w, f, turns, x);
        DivTrans(p, x, n);
      }
    }
  }

  lemma OnWheelInside(tab: seq<nat>, w: nat, f: nat, turns: nat)
    requires OnWheel(tab, w, f, turns)
    ensures w < |tab|
  {
  }

  /** The wheel moves on by one increment, and round after the last. */
  lemma WheelNext(tab: seq<nat>, w: nat, f: nat, turns: nat)
    requires WheelOk(tab) && OnWheel(tab, w, f, turns)
    ensures tab[w] >= 1
    ensures if w + 1 < WHEEL_SIZE then OnWheel(tab, w + 1, f + tab[w], if w + 1 == WHEEL_START then 0 else turns)
            else OnWheel(tab, WHEEL_START, f + tab[w], turns + 1)
  {
    assert w >= 2 ==> SpokeAt(tab, w);
    hide Gap, SpokeAt;
    assert Pos(tab, w + 1) == Pos(tab, w) + tab[w];
  }

  class Factorizer {
    const tab: array<nat>
    const isqrt: nat -> nat
    var squareCount: nat        // a byte
    var out: seq<Item>

    ghost predicate WheelReady()
      reads tab
    {
      WheelOk(tab[..]) && IsRoot(isqrt)
    }

    constructor (tab: array<nat>, isqrt: nat -> nat)
      ensures this.tab == tab && this.isqrt == isqrt && squareCount == 1 && out == []
    {
      this.tab, this.isqrt, squareCount, out := tab, isqrt, 1, [];
    }

    /** print_w: as many times as there are nested squares. */
    method PrintW(n: nat)
      requires 1 <= squareCount <= 255
      modifies this`out
      ensures out == old(out) + Numbers(Times(n, squareCount))
    {
      var rep := squareCount;
      out := out + [Number(n)];
      rep := rep - 1;
      while rep != 0
        invariant 0 <= rep < squareCount
        invariant out == old(out) + Numbers(Times(n, squareCount - rep))
      {
        out := out + [Number(n)];
        rep := rep - 1;
      }
    }

    /** isqrt_odd: 0 if n was a square, whose factors have then all been printed. */
    method IsqrtOdd(n: nat, ghost top: nat) returns (s: nat, ghost t: seq<nat>)
      requires WheelReady() && 1 <= n <= top && 4 <= top < WIDE && 1 <= squareCount < 64 && (n >= 2 ==> Pow(n, squareCount) < WIDE)
      modifies this
      ensures s == 0 ==> out == old(out) + Numbers(t) + [Newline] && Factors(t, n, old(squareCount)) && Rising(t) && Parts(t, n)
      ensures s > 0 ==> out == old(out) && squareCount == old(squareCount) && OddRoot(isqrt, n, s) && s < HALF
      decreases top, 0, 0
    {
      hide Pow, WheelOk, Factors, Parts, Rising;
      s := isqrt(n);
      RootBound(s, n);
      RootPositive(s, n);
      if s * s == n {
        PowSquare(s, squareCount);
        squareCount := squareCount * 2 % 256;
        SquareSmaller(s, n, top);
        t := Run(s);
        assert Factors(t, n, old(squareCount)) by { SameFactors(t, s, n, old(squareCount)); }
        BothDivide(s, s, n);
        NoneRising();
        PartsJoin([], t, s, n);
        s := 0;
      } else {
        t := [];
        s := if s % 2 == 0 then s - 1 else s;
      }
    }

    /** Takes factor out of n as often as it goes. `over` says that a square turned up and has been printed. */
    method DivideOut(n0: nat, factor: nat, max0: nat, ghost top: nat, ghost t0: seq<nat>)
        returns (n: nat, maxFactor: nat, over: bool, ghost t: seq<nat>)
      requires WheelReady() && 4 <= top < WIDE && n0 <= top && 2 <= factor < HALF && 1 <= squareCount < 64
      requires Free(n0, factor) && OddRoot(isqrt, n0, max0) && max0 < HALF && Done(t0, top, n0, squareCount) && Pow(n0, squareCount) < WIDE
      requires Rising(t0) && UpTo(t0, factor)
      modifies this
      ensures Rising(t0 + t) && Parts(t, n0) && (!over ==> UpTo(t0 + t, factor) && n > 0 && Div(n, n0))
      ensures over ==> out == old(out) + Numbers(t) + [Newline] && Factors(t0 + t, top, old(squareCount))
      ensures !over ==> out == old(out) + Numbers(t) && squareCount == old(squareCount) && n <= n0
      ensures !over ==> Free(n, factor + 1) && OddRoot(isqrt, n, maxFactor) && maxFactor < HALF
      ensures !over ==> Done(t0 + t, top, n, squareCount) && Pow(n, squareCount) < WIDE
      decreases top, 0, 1
    {
      hide Pow, WheelOk, Factors, Done, OddRoot, Prime, Numbers, Rising, UpTo, Parts, Free, Div;
      NoneRising();
      n, maxFactor, over, t := n0, max0, false, [];
      NoNumbers(out);
      RootBig(isqrt, n0, max0);
      SelfDivides(n0);
      assert t0 + t == t0;
      while n % factor == 0
        invariant WheelReady() && 1 <= n <= n0 && squareCount == old(squareCount)
        invariant Free(n, factor) && OddRoot(isqrt, n, maxFactor) && maxFactor < HALF
        invariant Done(t0 + t, top, n, squareCount) && Pow(n, squareCount) < WIDE && out == old(out) + Numbers(t)
        invariant Rising(t0 + t) && UpTo(t0 + t, factor) && Parts(t, n0) && Div(n, n0)
        decreases n
      {
        SmallestIsPrime(n, factor);
        FreeQuotient(n, factor);
        DoneMore(t0 + t, top, n, squareCount, factor, n / factor);
        ghost var f := Times(factor, squareCount);
        TakenOut(n, factor, n0);
        RisingTimes(t0 + t, factor, factor, squareCount);
        PartsTimes(t, factor, squareCount, n0);
        PowGrows(n / factor, n, squareCount);
        n := n / factor;
        PrintW(factor);
        NumbersJoin(old(out), t, f);
        assert t0 + t + f == t0 + (t + f);
        t := t + f;
        ghost var before := out;
        ghost var u;
        maxFactor, u := IsqrtOdd(n, top);
        if maxFactor == 0 {
          over := true;
          DoneAll(t0 + t, top, n, old(squareCount), u);
          FactorsPrime(u, n, old(squareCount));
          RisingJoin(t0 + t, factor, u, n);
          PartsJoin(t, u, n, n0);
          assert t0 + t + u == t0 + (t + u);
          NumbersJoin(old(out), t, u);
          t := t + u;
          return;
        }
      }
      FreeMore(n, factor);
    }

    /** factorize: one line with the prime factors of n, each squareCount times. */
    method Run(n0: nat) returns (ghost t: seq<nat>)
      requires WheelReady() && n0 < WIDE && 1 <= squareCount <= 255 && (n0 >= 2 ==> Pow(n0, squareCount) < WIDE)
      modifies this
      ensures out == old(out) + Numbers(t) + [Newline]
      ensures if n0 == 0 then t == [] else Factors(t, n0, old(squareCount)) && Rising(t) && Parts(t, n0)
      decreases n0, 1, 0
    {
      hide Pow, WheelOk, Factors, Done, OddRoot, Numbers, Prime, Rising, Parts;
      NoneRising();
      t := [];
      NoNumbers(out);
      if n0 < 4 {
        if n0 > 1 {
          SmallPrime(n0, squareCount);
          OneRising(n0, squareCount);
          t := Times(n0, squareCount);
          PrintW(n0);
        } else {
          NothingToPrint(squareCount);
        }
        out := out + [Newline];
        return;
      }
      CountBound(n0, squareCount);
      var maxFactor;
      maxFactor, t := IsqrtOdd(n0, n0);
      if maxFactor == 0 {
        return;
      }
      t := TrialDivision(n0, maxFactor);
    }

    /** The loop of factorize and what follows it. */
    method TrialDivision(n0: nat, max0: nat) returns (ghost t: seq<nat>)
      requires WheelReady() && 4 <= n0 < WIDE && 1 <= squareCount < 64 && Pow(n0, squareCount) < WIDE
      requires OddRoot(isqrt, n0, max0) && max0 < HALF
      modifies this
      ensures out == old(out) + Numbers(t) + [Newline] && Factors(t, n0, old(squareCount)) && Rising(t) && Parts(t, n0)
      decreases n0, 0, 2
    {
      hide Pow, WheelOk, Factors, Done, OddRoot, Prime, Numbers, OnWheel, Free, Rising, UpTo, Parts, Div;
      NoneRising();
      SelfDivides(n0);
      var n, maxFactor, factor, w := n0, max0, 2, 0;
      ghost var turns := 0;
      t := [];
      NoNumbers(out);
      AtStart(tab[..], n0, squareCount);
      while true
        invariant WheelReady() && n <= n0 && 2 <= factor < HALF && squareCount == old(squareCount) && 0 <= w && 0 <= turns && 0 <= maxFactor && 0 <= n
        invariant OnWheel(tab[..], w, factor, turns) && Free(n, factor) && OddRoot(isqrt, n, maxFactor) && maxFactor < HALF
        invariant Done(t, n0, n, squareCount) && Pow(n, squareCount) < WIDE && out == old(out) + Numbers(t)
        invariant Rising(t) && UpTo(t, factor) && Parts(t, n0) && n > 0 && Div(n, n0)
        decreases HALF - factor
      {
        ghost var u, m := [], n;
        var over;
        n, maxFactor, over, u := DivideOut(n, factor, maxFactor, n0, t);
        NumbersJoin(old(out), t, u);
        PartsJoin(t, u, m, n0);
        t := t + u;
        if over {
          return;
        }
        DivTrans(n, m, n0);
        if factor >= maxFactor {
          LastIsPrime(isqrt, n, maxFactor, factor);
          FreeLess(n, factor + 1, factor);
          break;
        }
        OnWheelInside(tab[..], w, factor, turns);
        PassFree(tab[..], w, factor, turns, n);
        WheelNext(tab[..], w, factor, turns);
        assert tab[..][w] == tab[w] && |tab[..]| == tab.Length;
        var fw := (factor + tab[w]) % HALF;
        if fw < factor {
          Wrapped(factor, tab[w]);
          FreeLess(n, factor + tab[w], HALF);
          LastIsPrime32(isqrt, n, maxFactor, HALF);
          FreeLess(n, HALF, factor);
          break;
        }
        TabSmall(tab[..], w);
        NotWrapped(factor, tab[w]);
        UpToMore(t, factor, fw);
        factor := fw;
        w := w + 1;
        if w == WHEEL_START {
          turns := 0;
        }
        if w >= WHEEL_SIZE {
          w := WHEEL_START;
          turns := turns + 1;
        }
      }
      Finish(n0, n, t);
      ghost var last := Times(n, squareCount);
      assert n > 1 by { PrimeBig(n); }
      LastIsLargest(n, factor);
      RisingTimes(t, factor, n, squareCount);
      PartsTimes(t, n, squareCount, n0);
      PrintW(n);
      NumbersJoin(old(out), t, last);
      t := t + last;
      out := out + [Newline];
    }

    lemma Finish(n0: nat, n: nat, t: seq<nat>)
      requires Done(t, n0, n, squareCount) && Prime(n)
      ensures Factors(t + Times(n, squareCount), n0, squareCount)
    {
      hide Pow, Product, Prime;
      ProductTimes(n, squareCount);
      DoneAll(t, n0, n, squareCount, Times(n, squareCount));
    }
  }

  lemma PrimeBig(n: nat)
    requires Prime(n)
    ensures n > 1
  {
  }

  lemma NoNumbers(out: seq<Item>)
    ensures out == out + Numbers([])
  {
  }

  lemma NumbersJoin(out: seq<Item>, a: seq<nat>, b: seq<nat>)
    ensures out + Numbers(a) + Numbers(b) == out + Numbers(a + b)
    ensures out + Numbers(a) + (Numbers(b) + [Newline]) == out + Numbers(a + b) + [Newline]
    ensures out + Numbers(a) + Numbers(b) + [Newline] == out + Numbers(a + b) + [Newline]
  {
    assert Numbers(a) + Numbers(b) == Numbers(a + b);
  }

  lemma SmallPrime(n: nat, k: nat)
    requires 2 <= n < 4
    ensures Factors(Times(n, k), n, k)
  {
    assert Prime(n);
    ProductTimes(n, k);
  }

  lemma NothingToPrint(k: nat)
    ensures Factors([], 1, k)
  {
    PowOne(k);
  }

  lemma FreeMore(n: nat, f: nat)
    requires f >= 2 && Free(n, f) && n % f != 0
    ensures Free(n, f + 1)
  {
  }

  lemma FreeLess(n: nat, f: nat, g: nat)
    requires Free(n, f) && g <= f
    ensures Free(n, g)
  {
  }

  /** A sum that comes out smaller has wrapped around. */
  lemma Wrapped(f: nat, inc: nat)
    requires f < HALF && (f + inc) % HALF < f
    ensures f + inc >= HALF
  {
  }

  lemma TabSmall(tab: seq<nat>, w: nat)
    requires WheelOk(tab) && w < |tab|
    ensures tab[w] <= 13 + TURN
  {
    PosGrows(tab, w + 1, |tab|);
  }

  /** A sum that does not come out smaller has not wrapped around. */
  lemma NotWrapped(f: nat, inc: nat)
    requires f < HALF && inc < HALF && (f + inc) % HALF >= f
    ensures (f + inc) % HALF == f + inc
  {
  }

  lemma RootBig(isqrt: nat -> nat, n: nat, s: nat)
    requires OddRoot(isqrt, n, s)
    ensures n >= 2
  {
  }

  lemma AtStart(tab: seq<nat>, n: nat, k: nat)
    requires WheelOk(tab)
    ensures OnWheel(tab, 0, 2, 0) && Free(n, 2) && Done([], n, n, k)
  {
  }

  lemma SquareSmaller(s: nat, n: nat, top: nat)
    requires s * s == n && 1 <= n <= top && top >= 4 && s >= 1
    ensures s < top
  {
    if s >= 4 {
      MulGrows(4, s, s, s);
    }
  }

  lemma SameFactors(t: seq<nat>, s: nat, n: nat, k: nat)
    requires n == s * s && Factors(t, s, 2 * k)
    ensures Factors(t, n, k)
  {
    PowSquare(s, k);
  }

  /** A line of primes, with multiplicity and in rising order, whose product is n. */
  ghost predicate IsFactorLine(out: seq<Item>, n: nat)
  {
    exists primes :: out == Numbers(primes) + [Newline] && AllPrime(primes) && Rising(primes) && Product(primes) == n
  }

  /** factorize_numstr, once the number is read: for every number from 1 on, primes whose product it is, and a newline. */
  method FactorNumber(n: nat, isqrt: nat -> nat) returns (out: seq<Item>)
    requires 1 <= n < WIDE && IsRoot(isqrt)
    ensures IsFactorLine(out, n)
  {
    hide WheelOk, Numbers;
    var tab := UnpackWheel();
    var f := new Factorizer(tab, isqrt);
    assert Pow(n, 0) == 1 && Pow(n, 1) == n;
    ghost var primes := f.Run(n);
    out := f.out;
    assert [] + Numbers(primes) == Numbers(primes);
  }
}
