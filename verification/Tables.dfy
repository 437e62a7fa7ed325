/** ct_init: the length and distance code tables and the static trees. */
module Tables {
  import opened Bits
  import opened Inflate
  import opened Sums
  import opened Codes
  import opened CodeLengths

  const LENGTH_CODES := 29
  const D_CODES := 30

  /** extra_lbits, extra_dbits and bl_order. */
  const EXTRA_LBITS: seq<nat> := [0, 0, 0, 0, 0, 0, 0, 0, 1, 1, 1, 1, 2, 2, 2, 2, 3, 3, 3, 3, 4, 4, 4, 4, 5, 5, 5, 5, 0]
  const EXTRA_DBITS: seq<nat> :=
    [0, 0, 0, 0, 1, 1, 2, 2, 3, 3, 4, 4, 5, 5, 6, 6, 7, 7, 8, 8, 9, 9, 10, 10, 11, 11, 12, 12, 13, 13]
  const BL_ORDER: seq<nat> := [16, 17, 18, 0, 8, 7, 9, 6, 10, 5, 11, 4, 12, 3, 13, 2, 14, 1, 15]

  /** They are those of sections 3.2.5 and 3.2.7 of RFC 1951. */
  lemma StandardTables()
    ensures EXTRA_LBITS == LENGTH_EXTRA && EXTRA_DBITS == DIST_EXTRA && BL_ORDER == CODE_LENGTH_ORDER
  {
  }

  /** length_code, base_length, dist_code and base_dist once initialised. */
  datatype CodeTables = CodeTables(lengthCode: seq<nat>, baseLength: seq<nat>, distCode: seq<nat>, baseDist: seq<nat>) {

    /** D_CODE: the code of a distance minus one. */
    function DCode(d: nat): (c: nat)
      requires |distCode| == 512 && d < 32768
    {
      if d < 256 then distCode[d] else distCode[256 + d / 128]
    }

    /** A length minus 3 is its code's base plus an offset that fits the extra bits. */
    predicate LengthOk(l: nat)
    {
      && l < |lengthCode| && lengthCode[l] < LENGTH_CODES && |baseLength| == LENGTH_CODES
      && var c := lengthCode[l];
         if LENGTH_EXTRA[c] == 0 then LENGTH_BASE[c] == l + 3
         else baseLength[c] + 3 == LENGTH_BASE[c] && baseLength[c] <= l < baseLength[c] + Pow2(LENGTH_EXTRA[c])
    }

    predicate DistOk(d: nat)
      requires |distCode| == 512 && d < 32768
    {
      var c := DCode(d);
      && c < D_CODES && |baseDist| == D_CODES
      && baseDist[c] + 1 == DIST_BASE[c] && baseDist[c] <= d < baseDist[c] + Pow2(DIST_EXTRA[c])
    }

    /** Every length and every distance is coded as section 3.2.5 of RFC 1951 says. */
    ghost predicate Ok()
    {
      && |distCode| == 512
      && (forall l :: 0 <= l < 256 ==> LengthOk(l))
      && (forall d :: 0 <= d < 32768 ==> DistOk(d))
    }
  }

  lemma LengthStep(c: nat)
    requires c < 28
    ensures c < 27 ==> LENGTH_BASE[c + 1] == LENGTH_BASE[c] + Pow2(LENGTH_EXTRA[c])
    ensures c == 27 ==> LENGTH_BASE[c] + Pow2(LENGTH_EXTRA[c]) == 259
    ensures LENGTH_BASE[0] == 3
  {
  }

  lemma DistStep(c: nat)
    requires c < 30
    ensures c < 29 ==> DIST_BASE[c + 1] == DIST_BASE[c] + Pow2(DIST_EXTRA[c])
    ensures c == 29 ==> DIST_BASE[c] + Pow2(DIST_EXTRA[c]) == 32769
    ensures DIST_BASE[0] == 1 && DIST_BASE[16] == 257
  {
    SmallPowers();
    hide Pow2;
  }

  lemma SmallPowers()
    ensures Pow2(0) == 1 && Pow2(1) == 2 && Pow2(2) == 4 && Pow2(3) == 8 && Pow2(4) == 16 && Pow2(5) == 32 && Pow2(6) == 64
    ensures Pow2(7) == 128 && Pow2(8) == 256 && Pow2(9) == 512 && Pow2(10) == 1024 && Pow2(11) == 2048
    ensures Pow2(12) == 4096 && Pow2(13) == 8192
  {
    assert Pow2(5) == 32 && Pow2(8) == 256 && Pow2(11) == 2048;
  }

  lemma FarStep(c: nat)
    requires 16 <= c < 30
    ensures DIST_EXTRA[c] >= 7 && Pow2(DIST_EXTRA[c]) == 128 * Pow2(DIST_EXTRA[c] - 7)
  {
    assert DIST_EXTRA[c] >= 7;
    Shift7(DIST_EXTRA[c] - 7);
  }

  lemma {:induction false} Shift7(n: nat)
    ensures Pow2(n + 7) == 128 * Pow2(n)
  {
    if n > 0 {
      Shift7(n - 1);
    } else {
      assert Pow2(7) == 128;
    }
  }

  /** The entry for length l - 3 belongs to code c. */
  predicate LengthAt(baseLength: seq<nat>, c: nat, l: nat)
  {
    && c < LENGTH_CODES && |baseLength| == LENGTH_CODES
    && baseLength[c] + 3 == LENGTH_BASE[c] && baseLength[c] <= l < baseLength[c] + Pow2(LENGTH_EXTRA[c])
  }

  /** Lengths minus 3 to length codes. */
  method InitLengths(lengthCode: array<nat>, baseLength: array<nat>)
    requires lengthCode.Length == 256 && baseLength.Length == LENGTH_CODES && lengthCode != baseLength
    modifies lengthCode, baseLength
    ensures forall l :: 0 <= l < 255 ==> lengthCode[l] < 28 && LengthAt(baseLength[..], lengthCode[l], l)
    ensures lengthCode[255] == 28
  {
    var length, code := 0, 0;
    while code < LENGTH_CODES - 1
      invariant 0 <= code <= 28
      invariant length + 3 == (if code < 28 then LENGTH_BASE[code] else 259)
      invariant length <= 256
      invariant forall l :: 0 <= l < length ==> lengthCode[l] < code && LengthAt(baseLength[..], lengthCode[l], l)
    {
      LengthStep(code);
      ghost var before: seq<nat> := baseLength[..];
      baseLength[code] := length;
      assert baseLength[..] == before[code := length];
      var n := 0;
      ghost var start := length;
      StandardTables();
      var size := Pow2(EXTRA_LBITS[code]);
      assert start + size <= 256 by { LengthEnd(code); }
      while n < size
        invariant 0 <= n <= size && length == start + n && baseLength[..] == before[code := start]
        invariant forall l :: 0 <= l < length ==> lengthCode[l] <= code && LengthAt(baseLength[..], lengthCode[l], l)
      {
        lengthCode[length] := code;
        length := length + 1;
        n := n + 1;
      }
      code := code + 1;
    }
    lengthCode[length - 1] := code;
  }

  lemma {:induction false} LengthEnd(c: nat)
    requires c < 28
    ensures LENGTH_BASE[c] + Pow2(LENGTH_EXTRA[c]) <= 259
    decreases 28 - c
  {
    LengthStep(c);
    if c < 27 {
      LengthEnd(c + 1);
    }
  }

  predicate DistAt(baseDist: seq<nat>, c: nat, lo: nat, hi: nat)
  {
    && c < D_CODES && |baseDist| == D_CODES
    && baseDist[c] + 1 == DIST_BASE[c] && baseDist[c] <= lo && hi < baseDist[c] + Pow2(DIST_EXTRA[c])
  }

  lemma {:induction false} DistEnd(c: nat)
    requires c < 30
    ensures DIST_BASE[c] + Pow2(DIST_EXTRA[c]) <= (if c < 16 then 257 else 32769)
    decreases 30 - c
  {
    DistStep(c);
    if c != 15 && c < 29 {
      DistEnd(c + 1);
    }
  }

  /** Distances below 257 to distance codes. */
  method InitNearDistances(distCode: array<nat>, baseDist: array<nat>)
    requires distCode.Length == 512 && baseDist.Length == D_CODES && distCode != baseDist
    modifies distCode, baseDist
    ensures forall d :: 0 <= d < 256 ==> distCode[d] < 16 && DistAt(baseDist[..], distCode[d], d, d)
  {
    var dist, code := 0, 0;
    while code < 16
      invariant 0 <= code <= 16 && dist + 1 == DIST_BASE[code] && dist <= 256
      invariant forall d :: 0 <= d < dist ==> distCode[d] < code && DistAt(baseDist[..], distCode[d], d, d)
    {
      DistStep(code);
      DistEnd(code);
      ghost var before: seq<nat> := baseDist[..];
      baseDist[code] := dist;
      assert baseDist[..] == before[code := dist];
      var n := 0;
      ghost var start := dist;
      StandardTables();
      var size := Pow2(EXTRA_DBITS[code]);
      while n < size
        invariant 0 <= n <= size && dist == start + n && baseDist[..] == before[code := start]
        invariant forall d :: 0 <= d < dist ==> distCode[d] <= code && DistAt(baseDist[..], distCode[d], d, d)
      {
        distCode[dist] := code;
        dist := dist + 1;
        n := n + 1;
      }
      code := code + 1;
    }
    DistStep(16);
  }

  /** Larger distances, by their upper bits: entry 256 + x serves 128x .. 128x + 127. */
  method InitFarDistances(distCode: array<nat>, baseDist: array<nat>)
    requires distCode.Length == 512 && baseDist.Length == D_CODES && distCode != baseDist
    modifies distCode, baseDist
    ensures forall c :: 0 <= c < 16 ==> baseDist[c] == old(baseDist[c])
    ensures forall d :: 0 <= d < 256 ==> distCode[d] == old(distCode[d])
    ensures forall x :: 2 <= x < 256 ==> DistAt(baseDist[..], distCode[256 + x], 128 * x, 128 * x + 127)
  {
    hide Pow2;
    var dist, code := 2, 16;
    DistStep(16);
    while code < D_CODES
      invariant 16 <= code <= D_CODES && 2 <= dist <= 256
      invariant 128 * dist + 1 == (if code < 30 then DIST_BASE[code] else 32769)
      invariant forall c :: 0 <= c < 16 ==> baseDist[c] == old(baseDist[c])
      invariant forall d :: 0 <= d < 256 ==> distCode[d] == old(distCode[d])
      invariant forall x :: 256 + 2 <= x < 256 + dist ==> distCode[x] < code && DistAt(baseDist[..], distCode[x], 128 * (x - 256), 128 * (x - 256) + 127)
    {
      DistStep(code);
      FarStep(code);
      DistEnd(code);
      ghost var before: seq<nat> := baseDist[..];
      baseDist[code] := 128 * dist;
      assert baseDist[..] == before[code := 128 * dist];
      var n := 0;
      ghost var start := dist;
      StandardTables();
      var size := Pow2(EXTRA_DBITS[code] - 7);
      while n < size
        invariant 0 <= n <= size && dist == start + n && baseDist[..] == before[code := 128 * start]
        invariant forall d :: 0 <= d < 256 ==> distCode[d] == old(distCode[d])
        invariant forall x :: 256 + 2 <= x < 256 + dist ==> distCode[x] <= code && DistAt(baseDist[..], distCode[x], 128 * (x - 256), 128 * (x - 256) + 127)
      {
        distCode[256 + dist] := code;
        dist := dist + 1;
        n := n + 1;
      }
      code := code + 1;
    }
    forall x | 2 <= x < 256 ensures DistAt(baseDist[..], distCode[256 + x], 128 * x, 128 * x + 127) {
      assert 128 * (256 + x - 256) == 128 * x;
    }
  }

  lemma NearKept(before: seq<nat>, after: seq<nat>, c: nat, d: nat)
    requires DistAt(before, c, d, d) && c < 16 && |after| == D_CODES && after[c] == before[c]
    ensures DistAt(after, c, d, d)
  {
  }

  /** The table part of ct_init. */
  method InitTables() returns (t: CodeTables)
    ensures t.Ok()
  {
    hide Pow2, DistAt, LengthAt, CodeTables.DistOk, CodeTables.LengthOk;
    var lengthCode, baseLength := new nat[256](i => 0), new nat[LENGTH_CODES](i => 0);
    var distCode, baseDist := new nat[512](i => 0), new nat[D_CODES](i => 0);
    InitLengths(lengthCode, baseLength);
    InitNearDistances(distCode, baseDist);
    ghost var near: seq<nat> := baseDist[..];
    InitFarDistances(distCode, baseDist);
    t := CodeTables(lengthCode[..], baseLength[..], distCode[..], baseDist[..]);
    forall l | 0 <= l < 256 ensures t.LengthOk(l) {
      assert l < 255 ==> LengthAt(t.baseLength, t.lengthCode[l], l);
      LengthMeans(t, l);
    }
    forall d | 0 <= d < 32768 ensures t.DistOk(d) {
      if d < 256 {
        NearKept(near, t.baseDist, t.distCode[d], d);
      } else {
        assert DistAt(t.baseDist, distCode[256 + d / 128], 128 * (d / 128), 128 * (d / 128) + 127);
      }
      DistMeans(t, d);
    }
  }

  lemma DistMeans(t: CodeTables, d: nat)
    requires |t.distCode| == 512 && d < 32768
    requires d < 256 ==> DistAt(t.baseDist, t.distCode[d], d, d)
    requires d >= 256 ==> DistAt(t.baseDist, t.distCode[256 + d / 128], 128 * (d / 128), 128 * (d / 128) + 127)
    ensures t.DistOk(d)
  {
  }

  lemma LengthMeans(t: CodeTables, l: nat)
    requires l < |t.lengthCode| == 256 && |t.baseLength| == LENGTH_CODES
    requires if l < 255 then LengthAt(t.baseLength, t.lengthCode[l], l) else t.lengthCode[l] == 28
    ensures t.LengthOk(l)
  {
    assert Pow2(0) == 1;
  }

  // ---- static trees ----

  const L_CODES := 286

  lemma {:induction false} CountConst(n: nat, v: nat, b: nat)
    ensures CountLen(Repeat(v, n), b) == (if v == b then n else 0)
    decreases n
  {
    if n > 0 {
      assert Repeat(v, n)[..n - 1] == Repeat(v, n - 1);
      CountConst(n - 1, v, b);
    }
  }

  lemma {:induction false} CountAppend(a: seq<nat>, c: seq<nat>, b: nat)
    ensures CountLen(a + c, b) == CountLen(a, b) + CountLen(c, b)
  {
    if c == [] {
      assert a + c == a;
    } else {
      assert (a + c)[..|a + c| - 1] == a + c[..|c| - 1];
      CountAppend(a, c[..|c| - 1], b);
    }
  }

  lemma {:induction false} KraftConst(n: nat, v: nat)
    ensures Kraft(Repeat(v, n)) == n * KraftTerm(v)
    decreases n
  {
    if n > 0 {
      assert Repeat(v, n)[..n - 1] == Repeat(v, n - 1);
      KraftConst(n - 1, v);
    }
  }

  lemma {:induction false} KraftAppend(a: seq<nat>, c: seq<nat>)
    ensures Kraft(a + c) == Kraft(a) + Kraft(c)
  {
    if c == [] {
      assert a + c == a;
    } else {
      assert (a + c)[..|a + c| - 1] == a + c[..|c| - 1];
      KraftAppend(a, c[..|c| - 1]);
    }
  }

  lemma FixedLitIs()
    ensures FixedLitLens() == Repeat(8, 144) + Repeat(9, 112) + Repeat(7, 24) + Repeat(8, 8)
    ensures |FixedLitLens()| == 288 && Bounded(FixedLitLens())
  {
  }

  lemma FixedLitCounts(b: nat)
    ensures CountLen(FixedLitLens(), b) == if b == 7 then 24 else if b == 8 then 152 else if b == 9 then 112 else 0
  {
    FixedLitIs();
    var a, c, d, e := Repeat(8, 144), Repeat(9, 112), Repeat(7, 24), Repeat(8, 8);
    CountConst(144, 8, b);
    CountConst(112, 9, b);
    CountConst(24, 7, b);
    CountConst(8, 8, b);
    hide CountLen, Repeat, FixedLitLens;
    CountAppend(a, c, b);
    CountAppend(a + c, d, b);
    CountAppend(a + c + d, e, b);
  }

  /** The fixed codes of section 3.2.6 of RFC 1951 are complete. */
  lemma FixedComplete()
    ensures Complete(FixedLitLens()) && Complete(FixedDistLens())
  {
    FixedLitIs();
    var a, c, d, e := Repeat(8, 144), Repeat(9, 112), Repeat(7, 24), Repeat(8, 8);
    FixedTerms();
    assert FixedDistLens() == Repeat(5, 32);
    KraftConst(144, 8);
    KraftConst(112, 9);
    KraftConst(24, 7);
    KraftConst(8, 8);
    KraftConst(32, 5);
    assert Bounded(FixedDistLens());
    hide Kraft, KraftTerm, Repeat, FixedLitLens, FixedDistLens;
    KraftAppend(a, c);
    KraftAppend(a + c, d);
    KraftAppend(a + c + d, e);
  }

  lemma FixedTerms()
    ensures KraftTerm(8) == 128 && KraftTerm(9) == 64 && KraftTerm(7) == 256 && KraftTerm(5) == 1024 && Pow2(MAX_BITS) == 32768
  {
    assert Pow2(10) == 1024;
  }

  /** Distance code n of the fixed tree is n itself, in five bits. */
  lemma FixedDistCode(n: nat)
    requires n < 32
    ensures FixedDistLens()[n] == 5 && Codeword(FixedDistLens(), n) == MsbBits(n, 5)
  {
    var lens := FixedDistLens();
    assert lens == Repeat(5, 32) && lens[..n] == Repeat(5, n);
    CountConst(n, 5, 5);
    CountConst(32, 5, 1);
    CountConst(32, 5, 2);
    CountConst(32, 5, 3);
    CountConst(32, 5, 4);
    hide CountLen, Repeat;
    assert FirstCode(lens, 1) == 0;
    assert FirstCode(lens, 2) == 0;
    assert FirstCode(lens, 3) == 0;
    assert FirstCode(lens, 4) == 0;
    assert FirstCode(lens, 5) == 0;
  }

  /** The static literal tree of ct_init. */
  method InitStaticLit() returns (fc: array<nat>, dl: array<nat>)
    ensures fresh(fc) && fresh(dl) && fc != dl
    ensures fc.Length == dl.Length == L_CODES + 2 && Table(fc, dl, FixedLitLens())
  {
    fc, dl := new nat[L_CODES + 2](i => 0), new nat[L_CODES + 2](i => 0);
    var n := 0;
    while n <= 287
      invariant 0 <= n <= 288
      invariant forall i :: 0 <= i < n ==> dl[i] == FixedLitLens()[i]
    {
      dl[n] := if n <= 143 then 8 else if n <= 255 then 9 else if n <= 279 then 7 else 8;
      n := n + 1;
    }
    var blCount := new nat[MAX_BITS + 1](i => 0);
    blCount[7], blCount[8], blCount[9] := 279 - 255, (143 + 1) + (287 - 279), 255 - 143;
    ghost var lens := FixedLitLens();
    assert dl[..287 + 1] == lens;
    FixedLitIs();
    forall b | 1 <= b <= MAX_BITS ensures blCount[b] == CountLen(lens, b) {
      FixedLitCounts(b);
    }
    hide CountLen, FixedLitLens, Repeat;
    GenCodes(fc, dl, L_CODES + 1, blCount);
    TableSet(fc, dl, lens);
  }

  lemma TableSet(fc: array<nat>, dl: array<nat>, cl: seq<nat>)
    requires fc.Length == dl.Length && |cl| <= dl.Length && dl[..|cl|] == cl && Bounded(cl) && CodesSet(fc[..], cl)
    ensures Table(fc, dl, cl)
  {
    hide Codeword, ToBits;
    forall c | 0 <= c < dl.Length && c < |cl| ensures Entry(fc[c], dl[c], cl, c) {
      assert dl[..|cl|][c] == dl[c];
    }
  }

  /** The static distance tree of ct_init. */
  method InitStaticDist() returns (fc: array<nat>, dl: array<nat>)
    ensures fresh(fc) && fresh(dl) && fc != dl
    ensures fc.Length == dl.Length == D_CODES && Table(fc, dl, FixedDistLens())
  {
    hide Codeword, ToBits, MsbBits;
    fc, dl := new nat[D_CODES](i => 0), new nat[D_CODES](i => 0);
    assert Bounded(FixedDistLens());
    var n := 0;
    while n < D_CODES
      invariant 0 <= n <= D_CODES
      invariant forall c :: 0 <= c < n ==> Entry(fc[c], dl[c], FixedDistLens(), c)
    {
      var code := BiReverse(n, 5);
      FixedDistCode(n);
      dl[n] := 5;
      fc[n] := code;
      n := n + 1;
    }
  }
}
