/** factorize: trial division along the wheel, with perfect squares taken apart by recursion. */
module Factor {
  import opened Wheel

  // ---- divisibility ----

  predicate Div(d: nat, n: nat)
    requires d > 0
  {
    n % d == 0
  }

  lemma MulMod(d: nat, k: nat)
    requires d > 0
    ensures (d * k) % d == 0 && (d * k) / d == k
    decreases k
  {
    assert d * k == d * k + 0;
    QuotRem(d * k, d, k, 0);
  }

  lemma {:induction false} LessMul(d: nat, a: nat, b: nat)
    ensures a < b ==> d * a + d <= d * b
    decreases b
  {
    if a < b {
      LessMul(d, a, b - 1);
      assert d * b == d * (b - 1) + d;
    }
  }

  /** Quotient and remainder are unique. */
  lemma QuotRem(n: nat, d: nat, q: nat, r: nat)
    requires d > 0 && r < d && n == d * q + r
    ensures n / d == q && n % d == r
  {
    var q', r' := n / d, n % d;
    assert n == d * q' + r' && 0 <= r' < d;
    LessMul(d, q, q');
    LessMul(d, q', q);
  }

  lemma DivParts(d: nat, n: nat)
    requires d > 0 && Div(d, n)
    ensures n == d * (n / d)
  {
  }

  lemma DivTrans(p: nat, x: nat, n: nat)
    requires p > 0 && x > 0 && Div(p, x) && Div(x, n)
    ensures Div(p, n)
  {
    DivParts(p, x);
    DivParts(x, n);
    var a, b := x / p, n / x;
    assert n == (p * a) * b == p * (a * b) by { Assoc(p, a, b); }
    MulMod(p, a * b);
  }

  lemma Assoc(a: nat, b: nat, c: nat)
    ensures (a * b) * c == a * (b * c)
  {
  }

  /** n has no divisor from 2 up to below f. */
  ghost predicate Free(n: nat, f: nat)
  {
    forall d :: 2 <= d < f ==> !Div(d, n)
  }

  ghost predicate Prime(p: nat)
  {
    p >= 2 && Free(p, p)
  }

  /** The smallest divisor is prime. */
  lemma SmallestIsPrime(n: nat, f: nat)
    requires f >= 2 && Free(n, f) && Div(f, n)
    ensures Prime(f)
  {
    forall d | 2 <= d < f ensures !Div(d, f) {
      if Div(d, f) {
        DivTrans(d, f, n);
      }
    }
  }

  /** Dividing leaves no new divisors. */
  lemma FreeQuotient(n: nat, f: nat)
    requires f >= 2 && n > 0 && Free(n, f) && Div(f, n)
    ensures n == f * (n / f) && 0 < n / f < n && Free(n / f, f)
  {
    DivParts(f, n);
    var m := n / f;
    assert Div(m, n) by {
      assert f * m == m * f;
      MulMod(m, f);
    }
    forall d | 2 <= d < f ensures !Div(d, m) {
      if Div(d, m) {
        DivTrans(d, m, n);
      }
    }
  }

  /** Without a divisor up to its square root, a number is prime. */
  lemma FreeIsPrime(n: nat, r: nat)
    requires n >= 2 && n < (r + 1) * (r + 1) && Free(n, r + 1)
    ensures Prime(n)
  {
    forall d | 2 <= d < n ensures !Div(d, n) {
      if Div(d, n) {
        DivParts(d, n);
        var e := n / d;
        assert e >= 2;
        assert Div(e, n) by {
          assert d * e == e * d;
          MulMod(e, d);
        }
        if d > r && e > r {
          MulGrows(r + 1, d, r + 1, e);
        }
      }
    }
  }

  lemma MulGrows(a: nat, b: nat, c: nat, d: nat)
    requires a <= b && c <= d
    ensures a * c <= b * d
  {
    assert a * c <= b * c;
    assert b * c <= b * d;
  }

  // ---- the wheel ----

  /** Where the wheel stands at index w in its first turn. */
  function Pos(tab: seq<nat>, w: nat): (p: nat)
    requires w <= |tab|
  {
    if w == 0 then 2 else Pos(tab, w - 1) + tab[w - 1]
  }

  /** The unpacked table: the way from 2 to 13, then one turn. */
  ghost predicate WheelOk(tab: seq<nat>)
  {
    && |tab| == WHEEL_SIZE && tab[0] == 1 && tab[1] == 2 && tab[2] == 2 && tab[3] == 4
    && Pos(tab, WHEEL_START) == 13 && Pos(tab, WHEEL_SIZE) == 13 + TURN
    && forall w :: 2 <= w < WHEEL_SIZE ==> SpokeAt(tab, w)
  }

  ghost predicate SpokeAt(tab: seq<nat>, w: nat)
  {
    w < |tab| && Pos(tab, w) % 2 == 1 && Pos(tab, w) >= 5 && Spoke(Pos(tab, w), tab[w])
  }

  /** All the increments, word after word. */
  function Flat(n: nat): (s: seq<nat>)
    requires n <= ROWS
  {
    if n == 0 then [] else Flat(n - 1) + Increments(n - 1)
  }

  lemma {:induction false} FlatRolls(n: nat)
    requires n <= ROWS
    ensures Rolls(5, Flat(n), Start(n)) && |Flat(n)| == 21 * n
    ensures n > 0 ==> Increments(0) <= Flat(n)
  {
    hide Increments, Start;
    if n == 0 {
      FirstStart();
    } else {
      FlatRolls(n - 1);
      RowRolls(n - 1);
      RollsJoin(5, Flat(n - 1), Start(n - 1), Increments(n - 1), Start(n));
    }
  }

  lemma FirstStart()
    ensures Start(0) == 5 && Start(ROWS) == 13 + TURN && Increments(0)[..3] == [2, 4, 2]
  {
  }

  lemma {:induction false} SpokesAt(tab: seq<nat>, w: nat, e: nat)
    requires w <= |tab| && Rolls(Pos(tab, w), tab[w..], e) && Pos(tab, w) % 2 == 1 && Pos(tab, w) >= 5
    ensures Pos(tab, |tab|) == e && forall k :: w <= k < |tab| ==> SpokeAt(tab, k)
    decreases |tab| - w
  {
    hide Gap;
    if w < |tab| {
      assert tab[w..][1..] == tab[w + 1..];
      SpokesAt(tab, w + 1, e);
      assert SpokeAt(tab, w);
    }
  }

  lemma UnpackedOk(tab: seq<nat>)
    requires tab == [1, 2] + Flat(ROWS)
    ensures WheelOk(tab)
  {
    hide Flat, Increments, Start, Rolls, Spoke, SpokeAt;
    FlatRolls(ROWS);
    FirstStart();
    assert tab[2..] == Flat(ROWS);
    RowRolls(0);
    assert tab[2..5] == Flat(ROWS)[..3] == Increments(0)[..3];
    assert tab[2] == tab[2..5][0] && tab[3] == tab[2..5][1] && tab[4] == tab[2..5][2];
    assert Pos(tab, 1) == 3;
    assert Pos(tab, 2) == 5;
    assert Pos(tab, 3) == 7;
    assert Pos(tab, 4) == 11;
    assert Pos(tab, 5) == 13;
    SpokesAt(tab, 2, 13 + TURN);
  }

  /** One word of unpack_wheel: its fields are stored from p on until a field is empty. */
  method UnpackWord(tab: array<nat>, p0: nat, i: nat) returns (p: nat)
    requires i < ROWS && p0 + 21 <= tab.Length
    modifies tab
    ensures p == p0 + 21 && tab[..p] == old(tab[..p0]) + Increments(i)
  {
    hide Increments, Packed, LowField, Holds, Rolls;
    ghost var all := Increments(i);
    RowFields(i);
    var v := Packed(i);
    WordHolds(i);
    p := p0;
    FieldTaken(v, all);
    assert all[0..] == all && all[..0] == [];
    while LowField(v) != 0
      invariant p0 <= p <= p0 + 21 && Holds(v, all[p - p0..]) && AllFields(all[p - p0..])
      invariant LowField(v) == if p == p0 + 21 then 0 else all[p - p0]
      invariant tab[..p] == old(tab[..p0]) + all[..p - p0]
      decreases p0 + 21 - p
    {
      ghost var rest := all[p - p0..];
      FieldTaken(v, rest);
      tab[p] := LowField(v);
      SlotStored(old(tab[..p0]), all, p - p0, tab[..p], tab[..p + 1]);
      p := p + 1;
      v := v / 8;
      assert rest[1..] == all[p - p0..];
      FieldTaken(v, all[p - p0..]);
    }
    assert all[..21] == all;
  }

  lemma SlotStored(before: seq<nat>, all: seq<nat>, k: nat, s: seq<nat>, t: seq<nat>)
    requires k < |all| && s == before + all[..k] && t == s + [all[k]]
    ensures t == before + all[..k + 1]
  {
  }

  lemma RowFields(i: nat)
    requires i < ROWS
    ensures |Increments(i)| == 21 && AllFields(Increments(i))
  {
    hide Rolls, Increments;
    RowRolls(i);
    RollsFields(Start(i), Increments(i), Start(i + 1));
  }

  lemma WordHolds(i: nat)
    requires i < ROWS
    ensures Holds(Packed(i), Increments(i))
  {
    hide Increments;
  }

  /** unpack_wheel */
  method UnpackWheel() returns (tab: array<nat>)
    ensures fresh(tab) && WheelOk(tab[..])
  {
    hide Increments, WheelOk, Rolls;
    tab := new nat[WHEEL_SIZE](i => 0);
    tab[0] := 1;
    tab[1] := 2;
    var p, i := 2, 0;
    FlatRolls(0);
    assert tab[..2] == [1, 2] + Flat(0);
    while i < ROWS
      invariant 0 <= i <= ROWS && p == 2 + 21 * i && tab[..p] == [1, 2] + Flat(i)
    {
      p := UnpackWord(tab, p, i);
      assert [1, 2] + Flat(i) + Increments(i) == [1, 2] + Flat(i + 1);
      i := i + 1;
    }
    assert tab[..] == tab[..p];
    UnpackedOk(tab[..]);
  }

  // ---- from one trial divisor to the next ----

  /** The wheel stands at index w for divisor f: some number of whole turns past its place. */
  ghost predicate OnWheel(tab: seq<nat>, w: nat, f: nat, turns: nat)
  {
    w < |tab| && f == Pos(tab, w) + TURN * turns && (w < WHEEL_START ==> turns == 0)
  }

  lemma AddMultiple(x: nat, m: nat, k: nat)
    requires m > 0
    ensures (x + m * k) % m == x % m
  {
    assert x + m * k == m * (x / m + k) + x % m;
    QuotRem(x + m * k, m, x / m + k, x % m);
  }

  lemma OneTurn(x: nat)
    ensures Multiple(x + TURN) == Multiple(x) && (x + TURN) % 2 == x % 2
  {
    AddMultiple(x, 2, 1155);
    AddMultiple(x, 3, 770);
    AddMultiple(x, 5, 462);
    AddMultiple(x, 7, 330);
    AddMultiple(x, 11, 210);
  }

  /** Whole turns change no remainder that matters. */
  lemma {:induction false} TurnFree(x: nat, turns: nat)
    ensures Multiple(x + TURN * turns) == Multiple(x) && (x + TURN * turns) % 2 == x % 2
    decreases turns
  {
    hide Multiple;
    if turns > 0 {
      TurnFree(x, turns - 1);
      OneTurn(x + TURN * (turns - 1));
      assert x + TURN * (turns - 1) + TURN == x + TURN * turns;
    }
  }

  /** What a gap passes over. */
  lemma {:induction false} GapHas(d: nat, n: nat, x: nat)
    requires Gap(d, n) && d % 2 == 1 && d < x < d + 2 * n + 2
    ensures x % 2 == 0 || Multiple(x)
    decreases n
  {
    hide Multiple;
    if n > 0 && x > d + 2 {
      GapHas(d + 2, n - 1, x);
    }
  }

  /** Everything between two trial divisors is even or a multiple of 3, 5, 7 or 11. */
  lemma Passed(tab: seq<nat>, w: nat, f: nat, turns: nat, x: nat)
    requires WheelOk(tab) && OnWheel(tab, w, f, turns) && f < x < f + tab[w] && w >= 2
    ensures x % 2 == 0 || Multiple(x)
  {
    assert SpokeAt(tab, w);
    hide Multiple, Gap;
    var d, y := Pos(tab, w), x - TURN * turns;
    GapHas(d, tab[w] / 2 - 1, y);
    TurnFree(y, turns);
  }

  /** Whatever is passed over has a divisor among the numbers already tried. */
  lemma PassedHasDivisor(tab: seq<nat>, w: nat, f: nat, turns: nat, x: nat) returns (p: nat)
    requires WheelOk(tab) && OnWheel(tab, w, f, turns) && f < x < f + tab[w]
    ensures 2 <= p <= f && Div(p, x)
  {
    if x % 2 == 0 {
      Early(tab);
      PosAtLeast(tab, w);
      return 2;
    }
    hide Multiple, WheelOk;
    SmallW(tab, w, f, turns, x);
    if f < 11 {
      return 3;
    }
    Passed(tab, w, f, turns, x);
    p := FirstDivisor(x);
  }

  lemma FirstDivisor(x: nat) returns (p: nat)
    requires Multiple(x)
    ensures 2 <= p <= 11 && Div(p, x)
  {
    p := if x % 3 == 0 then 3 else if x % 5 == 0 then 5 else if x % 7 == 0 then 7 else 11;
  }

  lemma {:induction false} PosAtLeast(tab: seq<nat>, w: nat)
    requires w <= |tab|
    ensures Pos(tab, w) >= 2
  {
    if w > 0 {
      PosAtLeast(tab, w - 1);
    }
  }

  lemma Early(tab: seq<nat>)
    requires WheelOk(tab)
    ensures Pos(tab, 0) == 2 && Pos(tab, 1) == 3 && Pos(tab, 2) == 5 && Pos(tab, 3) == 7 && Pos(tab, 4) == 11
  {
    assert Pos(tab, 1) == 3;
    assert Pos(tab, 2) == 5;
    assert Pos(tab, 3) == 7;
    assert Pos(tab, 4) == 11;
  }

  /** On the way to 11 the only odd number passed over is 9. */
  lemma SmallW(tab: seq<nat>, w: nat, f: nat, turns: nat, x: nat)
    requires WheelOk(tab) && OnWheel(tab, w, f, turns) && f < x < f + tab[w] && x % 2 == 1
    ensures f < 11 ==> x == 9 && f >= 3
    ensures f >= 11 ==> w >= 2
  {
    Early(tab);
    if 5 <= w {
      PosGrows(tab, 5, w);
    }
  }

  lemma {:induction false} PosGrows(tab: seq<nat>, v: nat, w: nat)
    requires v <= w <= |tab|
    ensures Pos(tab, v) <= Pos(tab, w)
  {
    if v < w {
      PosGrows(tab, v, w - 1);
    }
  }
}
