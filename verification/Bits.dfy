/** Powers of two and bit strings, least significant bit first. */
module Bits {

  type Byte = x: int | 0 <= x < 256

  const TWO32 := 0x1_0000_0000

  /** v << m, without truncation. */
  function Shl(v: nat, m: nat): (r: nat)
    decreases m
  {
    if m == 0 then v else 2 * Shl(v, m - 1)
  }

  function Pow2(n: nat): (r: nat)
    ensures r >= 1
  {
    if n == 0 then 1 else 2 * Pow2(n - 1)
  }

  lemma {:induction false} Pow2Monotone(m: nat, n: nat)
    requires m <= n
    ensures Pow2(m) <= Pow2(n)
  {
    if m < n {
      Pow2Monotone(m, n - 1);
    }
  }

  lemma {:induction false} Pow2IsShl(n: nat)
    ensures Pow2(n) == Shl(1, n)
  {
    if n > 0 {
      Pow2IsShl(n - 1);
    }
  }

  lemma {:induction false} ShlSum(v: nat, w: nat, m: nat)
    ensures Shl(v + w, m) == Shl(v, m) + Shl(w, m)
  {
    if m > 0 {
      ShlSum(v, w, m - 1);
    }
  }

  lemma {:induction false} ShlShl(v: nat, a: nat, b: nat)
    ensures Shl(Shl(v, a), b) == Shl(v, a + b)
  {
    if b > 0 {
      ShlShl(v, a, b - 1);
      assert a + b - 1 == a + (b - 1);
    }
  }

  lemma {:induction false} ShlZero(m: nat)
    ensures Shl(0, m) == 0
  {
    if m > 0 {
      ShlZero(m - 1);
    }
  }

  /** Numbers of n bits shifted by m stay within n + m bits, with room below. */
  lemma {:induction false} ShlBelow(v: nat, n: nat, m: nat)
    requires v < Pow2(n)
    ensures Shl(v, m) + Pow2(m) <= Pow2(n + m)
  {
    if m > 0 {
      ShlBelow(v, n, m - 1);
    }
  }

  lemma {:induction false} ShlMonotone(v: nat, w: nat, m: nat)
    requires v <= w
    ensures Shl(v, m) <= Shl(w, m)
    ensures v < w ==> Shl(v, m) + Pow2(m) <= Shl(w, m)
  {
    if m > 0 {
      ShlMonotone(v, w, m - 1);
    }
  }

  /** v >> m */
  function Shr(v: nat, m: nat): (r: nat)
    decreases m
  {
    if m == 0 then v else Shr(v / 2, m - 1)
  }

  lemma {:induction false} ShrAdd(v: nat, a: nat, b: nat)
    ensures Shr(v, a + b) == Shr(Shr(v, a), b)
  {
    if a > 0 {
      ShrAdd(v / 2, a - 1, b);
    }
  }

  /** Shifting right splits a number into its high part and m low bits. */
  lemma {:induction false} ShrSplit(v: nat, m: nat)
    ensures 0 <= v - Shl(Shr(v, m), m) < Pow2(m)
  {
    if m > 0 {
      ShrSplit(v / 2, m - 1);
    }
  }

  lemma {:induction false} ShrFits(v: nat, n: nat, k: nat)
    requires v < Pow2(n) && k <= n
    ensures Shr(v, k) < Pow2(n - k)
  {
    if k > 0 {
      ShrFits(v / 2, n - 1, k - 1);
    }
  }

  /** Bit i of v. */
  predicate Bit(v: nat, i: nat)
  {
    Shr(v, i) % 2 == 1
  }

  /** The low n bits of v, least significant first. */
  function ToBits(v: nat, n: nat): (b: seq<bool>)
  {
    seq(n, i requires 0 <= i < n => Bit(v, i))
  }

  /** The number whose bits these are, least significant first. */
  function FromBits(b: seq<bool>): (v: nat)
    ensures v < Pow2(|b|)
  {
    if b == [] then 0 else (if b[0] then 1 else 0) + 2 * FromBits(b[1..])
  }

  lemma {:induction false} FromToBits(v: nat, n: nat)
    requires v < Pow2(n)
    ensures FromBits(ToBits(v, n)) == v
  {
    if n > 0 {
      FromToBits(v / 2, n - 1);
      assert ToBits(v, n)[1..] == ToBits(v / 2, n - 1) by {
        forall i | 0 <= i < n - 1 ensures Bit(v, i + 1) == Bit(v / 2, i) {
          assert Shr(v, i + 1) == Shr(v / 2, i);
        }
      }
    }
  }

  lemma ToBitsSplit(v: nat, m: nat, n: nat)
    ensures ToBits(v, m + n) == ToBits(v, m) + ToBits(Shr(v, m), n)
  {
    forall i | 0 <= i < n ensures Bit(v, m + i) == Bit(Shr(v, m), i) {
      ShrAdd(v, m, i);
    }
  }

  /** Bits added above position m leave bit i < m alone. */
  lemma {:induction false} BitBelow(v: nat, w: nat, m: nat, i: nat)
    requires i < m
    ensures Bit(v + Shl(w, m), i) == Bit(v, i)
  {
    if i > 0 {
      BitBelow(v / 2, w, m - 1, i - 1);
    }
  }

  lemma ToBitsMod(v: nat, w: nat, n: nat)
    ensures ToBits(v + Shl(w, n), n) == ToBits(v, n)
  {
    forall i | 0 <= i < n ensures Bit(v + Shl(w, n), i) == Bit(v, i) {
      BitBelow(v, w, n, i);
    }
  }

  lemma {:induction false} ShrJoin(v: nat, w: nat, m: nat)
    requires v < Pow2(m)
    ensures Shr(v + Shl(w, m), m) == w
  {
    if m > 0 {
      ShrJoin(v / 2, w, m - 1);
    }
  }

  /** Two numbers side by side: v below, w above. */
  lemma ToBitsJoin(v: nat, w: nat, m: nat, n: nat)
    requires v < Pow2(m)
    ensures ToBits(v + Shl(w, m), m + n) == ToBits(v, m) + ToBits(w, n)
  {
    ToBitsSplit(v + Shl(w, m), m, n);
    ToBitsMod(v, w, m);
    ShrJoin(v, w, m);
  }

  lemma {:induction false} ShrZero(i: nat)
    ensures Shr(0, i) == 0
  {
    if i > 0 {
      ShrZero(i - 1);
    }
  }

  lemma {:induction false} BitAbove(a: nat, m: nat, i: nat)
    requires a < Pow2(m) && m <= i
    ensures !Bit(a, i)
  {
    if m == 0 {
      ShrZero(i);
    } else {
      BitAbove(a / 2, m - 1, i - 1);
    }
  }

  /** Bitwise or of two n-bit words. */
  function Or(a: nat, b: nat, n: nat): (r: nat)
    ensures r < Pow2(n)
  {
    FromBits(seq(n, i requires 0 <= i < n => Bit(a, i) || Bit(b, i)))
  }

  /** Or-ing in bits above a number's own bits adds them. */
  lemma OrDisjoint(a: nat, w: nat, m: nat, n: nat)
    requires a < Pow2(m) && m <= n && w < Pow2(n - m)
    ensures Or(a, Shl(w, m), n) == a + Shl(w, m) < Pow2(n)
  {
    var x := a + Shl(w, m);
    ToBitsJoin(a, w, m, n - m);
    ToBitsJoin(0, w, m, n - m);
    ShlBelow(w, n - m, m);
    FromToBits(x, n);
    var ors := seq(n, i requires 0 <= i < n => Bit(a, i) || Bit(Shl(w, m), i));
    forall i | 0 <= i < n ensures ors[i] == ToBits(x, n)[i] {
      assert Bit(Shl(w, m), i) == ToBits(Shl(w, m), n)[i];
      if i < m {
        ShrZero(i);
        assert !ToBits(0, m)[i];
      } else {
        BitAbove(a, m, i);
      }
    }
    assert ors == ToBits(x, n);
  }

  /** A byte string as bits, each byte least significant bit first. */
  function BytesBits(s: seq<Byte>): (b: seq<bool>)
  {
    seq(8 * |s|, i requires 0 <= i < 8 * |s| => Bit(s[i / 8], i % 8))
  }

  lemma BytesBitsAppend(s: seq<Byte>, t: seq<Byte>)
    ensures BytesBits(s + t) == BytesBits(s) + BytesBits(t)
  {
    forall i | 0 <= i < 8 * |t|
      ensures BytesBits(s + t)[8 * |s| + i] == BytesBits(t)[i]
    {
      assert (8 * |s| + i) / 8 == |s| + i / 8;
      assert (8 * |s| + i) % 8 == i % 8;
    }
  }

  /** Each byte can be read back from its eight bits. */
  lemma BytesBitsAt(s: seq<Byte>, k: nat)
    requires k < |s|
    ensures BytesBits(s)[8 * k..8 * k + 8] == ToBits(s[k], 8)
  {
    forall i | 0 <= i < 8
      ensures BytesBits(s)[8 * k + i] == Bit(s[k], i)
    {
      assert (8 * k + i) / 8 == k;
      assert (8 * k + i) % 8 == i;
    }
  }

  /** The n-bit code c, most significant bit first. */
  function MsbBits(c: nat, n: nat): (b: seq<bool>)
  {
    seq(n, i requires 0 <= i < n => Bit(c, n - 1 - i))
  }

  lemma MsbPrefix(c: nat, n: nat, k: nat)
    requires k <= n
    ensures MsbBits(c, n)[..k] == MsbBits(Shr(c, n - k), k)
  {
    var d := Shr(c, n - k);
    forall i | 0 <= i < k ensures MsbBits(c, n)[i] == MsbBits(d, k)[i] {
      ShrAdd(c, n - k, k - 1 - i);
      assert MsbBits(d, k)[i] == Bit(d, k - 1 - i);
      assert MsbBits(c, n)[i] == Bit(c, n - 1 - i);
      assert n - 1 - i == (n - k) + (k - 1 - i);
    }
  }

  lemma {:induction false} MsbInjective(c: nat, d: nat, n: nat)
    requires c < Pow2(n) && d < Pow2(n)
    requires MsbBits(c, n) == MsbBits(d, n)
    ensures c == d
  {
    if n > 0 {
      MsbPrefix(c, n, n - 1);
      MsbPrefix(d, n, n - 1);
      assert MsbBits(c, n)[n - 1] == Bit(c, 0) && MsbBits(d, n)[n - 1] == Bit(d, 0);
      assert Shr(c, 1) == c / 2 && Shr(d, 1) == d / 2;
      MsbInjective(c / 2, d / 2, n - 1);
    }
  }
}
