/** Canonical code assignment: gen_codes and bi_reverse, and why the result decodes. */
module Codes {
  import opened Bits
  import opened Inflate

  // ---- the Kraft sum by length ----

  /** Kraft sum of the symbols whose length is between 1 and len. */
  function KraftUpTo(lens: seq<nat>, len: nat): (k: nat)
    requires len <= MAX_BITS
    decreases len
  {
    if len == 0 then 0 else KraftUpTo(lens, len - 1) + Shl(CountLen(lens, len), MAX_BITS - len)
  }

  lemma {:induction false} KraftUpToSnoc(lens: seq<nat>, last: nat, len: nat)
    requires len <= MAX_BITS
    ensures KraftUpTo(lens + [last], len) == KraftUpTo(lens, len) + (if 0 < last <= len then Pow2(MAX_BITS - last) else 0)
    decreases len
  {
    if len > 0 {
      var c := CountLen(lens, len);
      KraftUpToSnoc(lens, last, len - 1);
      assert (lens + [last])[..|lens + [last]| - 1] == lens;
      ShlSum(c, 1, MAX_BITS - len);
      Pow2IsShl(MAX_BITS - len);
    }
  }

  lemma {:induction false} KraftUpToEmpty(len: nat)
    requires len <= MAX_BITS
    ensures KraftUpTo([], len) == 0
    decreases len
  {
    if len > 0 {
      KraftUpToEmpty(len - 1);
      ShlZero(MAX_BITS - len);
    }
  }

  lemma {:induction false} KraftByLength(lens: seq<nat>)
    ensures KraftUpTo(lens, MAX_BITS) == Kraft(lens)
  {
    if lens == [] {
      KraftUpToEmpty(MAX_BITS);
    } else {
      var front, last := lens[..|lens| - 1], lens[|lens| - 1];
      assert Kraft(lens) == Kraft(front) + KraftTerm(last);
      hide Kraft, KraftUpTo;
      KraftByLength(front);
      assert lens == front + [last];
      KraftUpToSnoc(front, last, MAX_BITS);
    }
  }

  lemma {:induction false} KraftUpToMonotone(lens: seq<nat>, a: nat, b: nat)
    requires a <= b <= MAX_BITS
    ensures KraftUpTo(lens, a) <= KraftUpTo(lens, b)
    decreases b
  {
    if a < b {
      KraftUpToMonotone(lens, a, b - 1);
    }
  }

  // ---- codes fit and are prefix free ----

  /** One past the last code of a length. */
  function CodeEnd(lens: seq<nat>, len: nat): (c: nat)
  {
    FirstCode(lens, len) + CountLen(lens, len)
  }

  /** The codes up to a length fill exactly their Kraft share of the code space. */
  lemma {:induction false} CodeEndIsKraft(lens: seq<nat>, len: nat)
    requires 0 < len <= MAX_BITS
    ensures Shl(CodeEnd(lens, len), MAX_BITS - len) == KraftUpTo(lens, len)
    decreases len
  {
    var rest := MAX_BITS - len;
    ShlSum(FirstCode(lens, len), CountLen(lens, len), rest);
    if len == 1 {
      ShlZero(rest);
    } else {
      CodeEndIsKraft(lens, len - 1);
      var e := CodeEnd(lens, len - 1);
      assert FirstCode(lens, len) == e + e;
      ShlSum(e, e, rest);
      assert Shl(e, rest + 1) == 2 * Shl(e, rest);
    }
  }

  lemma CodeEndFits(lens: seq<nat>, len: nat)
    requires 0 < len <= MAX_BITS && Kraft(lens) <= Pow2(MAX_BITS)
    ensures CodeEnd(lens, len) <= Pow2(len)
  {
    hide KraftUpTo, Kraft, CodeEnd, Shl;
    var rest := MAX_BITS - len;
    CodeEndIsKraft(lens, len);
    KraftUpToMonotone(lens, len, MAX_BITS);
    KraftByLength(lens);
    Pow2IsShl(len);
    Pow2IsShl(MAX_BITS);
    ShlShl(1, len, rest);
    assert Shl(CodeEnd(lens, len), rest) <= Shl(Pow2(len), rest);
    if CodeEnd(lens, len) > Pow2(len) {
      ShlMonotone(Pow2(len), CodeEnd(lens, len), rest);
    }
  }

  lemma {:induction false} CountPrefix(lens: seq<nat>, s: nat, t: nat, len: nat)
    requires s <= t <= |lens|
    ensures CountLen(lens[..s], len) <= CountLen(lens[..t], len)
    ensures s < t && lens[s] == len ==> CountLen(lens[..s], len) < CountLen(lens[..t], len)
    decreases t
  {
    if s < t {
      CountPrefix(lens, s, t - 1, len);
      assert lens[..t][..t - 1] == lens[..t - 1];
    }
  }

  /** Every code lies in its length's range. */
  lemma CodeInRange(lens: seq<nat>, s: nat)
    requires s < |lens|
    ensures FirstCode(lens, lens[s]) <= Code(lens, s) < CodeEnd(lens, lens[s])
  {
    CountPrefix(lens, s, |lens|, lens[s]);
    assert lens[..|lens|] == lens;
  }

  /** The codes of a longer length lie above every shorter code, extended. */
  lemma {:induction false} LongerAbove(lens: seq<nat>, l: nat, m: nat)
    requires 0 < l < m
    ensures Shl(CodeEnd(lens, l), m - l) <= FirstCode(lens, m)
    decreases m
  {
    if l + 1 < m {
      LongerAbove(lens, l, m - 1);
    }
  }

  lemma CodeFits(lens: seq<nat>, s: nat)
    requires s < |lens| && 0 < lens[s] <= MAX_BITS && Kraft(lens) <= Pow2(MAX_BITS)
    ensures Code(lens, s) < Pow2(lens[s])
  {
    CodeInRange(lens, s);
    CodeEndFits(lens, lens[s]);
  }

  /** A shorter codeword cannot begin a longer one. */
  lemma ShorterNotPrefix(lens: seq<nat>, s: nat, t: nat)
    requires s < |lens| && t < |lens| && 0 < lens[s] < lens[t] <= MAX_BITS
    requires Kraft(lens) <= Pow2(MAX_BITS)
    ensures Codeword(lens, t)[..lens[s]] != Codeword(lens, s)
  {
    hide Kraft, FirstCode, CountLen, CodeEnd, MsbBits, Shr, Shl, Pow2;
    var l, m := lens[s], lens[t];
    var cs, ct := Code(lens, s), Code(lens, t);
    CodeInRange(lens, s);
    CodeInRange(lens, t);
    LongerAbove(lens, l, m);
    ShlMonotone(cs + 1, CodeEnd(lens, l), m - l);
    var high := Shr(ct, m - l);
    assert high > cs by {
      ShrSplit(ct, m - l);
      if high <= cs {
        ShlMonotone(high, cs + 1, m - l);
      }
    }
    MsbPrefix(ct, m, l);
    CodeFits(lens, s);
    CodeFits(lens, t);
    ShrFits(ct, m, m - l);
    if MsbBits(high, l) == MsbBits(cs, l) {
      MsbInjective(high, cs, l);
    }
  }

  /** No codeword is a prefix of another symbol's codeword. */
  lemma PrefixFree(lens: seq<nat>, s: nat, t: nat)
    requires s < |lens| && t < |lens| && s != t
    requires 0 < lens[s] <= lens[t] <= MAX_BITS && Kraft(lens) <= Pow2(MAX_BITS)
    ensures Codeword(lens, t)[..lens[s]] != Codeword(lens, s)
  {
    if lens[s] < lens[t] {
      ShorterNotPrefix(lens, s, t);
    } else {
      CodeFits(lens, s);
      CodeFits(lens, t);
      CountPrefix(lens, if s < t then s else t, if s < t then t else s, lens[s]);
      if MsbBits(Code(lens, s), lens[s]) == MsbBits(Code(lens, t), lens[s]) {
        MsbInjective(Code(lens, s), Code(lens, t), lens[s]);
      }
    }
  }

  predicate Bounded(lens: seq<nat>)
  {
    forall i :: 0 <= i < |lens| ==> lens[i] <= MAX_BITS
  }

  lemma PrefixSlice(bits: seq<bool>, pos: nat, m: nat, n: nat)
    requires m <= n && pos + n <= |bits|
    ensures bits[pos..pos + n][..m] == bits[pos..pos + m]
  {
  }

  /** The symbol read at a position is the one whose codeword stands there. */
  lemma SymbolDecodes(lens: seq<nat>, s: nat, bits: seq<bool>, pos: nat)
    requires Bounded(lens) && Kraft(lens) <= Pow2(MAX_BITS)
    requires CodedAt(lens, s, bits, pos)
    ensures ReadSymbol(lens, bits, pos) == Got(s, pos + lens[s])
  {
    hide Kraft, Codeword, Pow2;
    var r := ReadSymbol(lens, bits, pos);
    var t: nat :| CodedAt(lens, t, bits, pos) && r == Got(t, pos + lens[t]);
    if t != s {
      var a, b := if lens[s] <= lens[t] then s else t, if lens[s] <= lens[t] then t else s;
      PrefixSlice(bits, pos, lens[a], lens[b]);
      PrefixFree(lens, a, b);
    }
  }

  // ---- bi_reverse and gen_codes ----

  /** Reverses the low len bits of a code. */
  method BiReverse(code: nat, len: nat) returns (res: nat)
    requires 1 <= len <= MAX_BITS
    ensures res < Pow2(len)
    ensures ToBits(res, len) == MsbBits(code, len)
  {
    res := 0;
    var c, n := code, len;
    ghost var done := 0;
    while true
      invariant done + n == len && n >= 1
      invariant c == Shr(code, done)
      invariant res % 2 == 0 && res < Pow2(done + 1)
      invariant ToBits(res / 2, done) == MsbBits(code, done)
      decreases n
    {
      ReverseStep(code, done, res / 2);
      res := res + c % 2;
      n := n - 1;
      if n <= 0 {
        return;
      }
      assert Shr(code, done + 1) == c / 2 by { ShrAdd(code, done, 1); }
      c := c / 2;
      res := 2 * res;
      done := done + 1;
    }
  }

  lemma ReverseStep(code: nat, done: nat, half: nat)
    requires half < Pow2(done) && ToBits(half, done) == MsbBits(code, done)
    ensures var res := 2 * half + Shr(code, done) % 2;
            res < Pow2(done + 1) && ToBits(res, done + 1) == MsbBits(code, done + 1)
  {
    var b := Shr(code, done) % 2;
    var res := 2 * half + b;
    var n := done + 1;
    forall i | 0 <= i < n
      ensures ToBits(res, n)[i] == MsbBits(code, n)[i]
    {
      assert MsbBits(code, n)[i] == Bit(code, n - 1 - i);
      if i == 0 {
        assert Shr(res, 0) == res;
      } else {
        assert res / 2 == half && Shr(res, i) == Shr(half, i - 1);
        assert ToBits(half, done)[i - 1] == MsbBits(code, done)[i - 1] == Bit(code, done - 1 - (i - 1));
      }
    }
  }

  /** The next_code table: the first code of every length. */
  method FirstCodes(blCount: array<nat>, ghost lens: seq<nat>) returns (nextCode: array<nat>)
    requires CountsMatch(blCount[..], lens)
    ensures fresh(nextCode) && nextCode.Length == MAX_BITS + 1
    ensures forall b :: 1 <= b <= MAX_BITS ==> nextCode[b] == FirstCode(lens, b)
  {
    nextCode := new nat[MAX_BITS + 1];
    var code := 0;
    var bits := 1;
    while bits <= MAX_BITS
      invariant 1 <= bits <= MAX_BITS + 1
      invariant code == FirstCode(lens, bits - 1)
      invariant forall b :: 1 <= b < bits ==> nextCode[b] == FirstCode(lens, b)
    {
      assert bits > 1 ==> blCount[bits - 1] == CountLen(lens, bits - 1);
      code := 2 * (code + blCount[bits - 1]);
      nextCode[bits] := code;
      bits := bits + 1;
    }
  }

  /** bl_count is the histogram of the code lengths. */
  ghost predicate CountsMatch(blCount: seq<nat>, lens: seq<nat>)
  {
    && |blCount| == MAX_BITS + 1 && blCount[0] == 0
    && forall b :: 1 <= b <= MAX_BITS ==> blCount[b] == CountLen(lens, b)
  }

  lemma CountNone(lens: seq<nat>)
    ensures forall b: nat :: CountLen(lens[..0], b) == 0
  {
  }

  lemma CountNext(lens: seq<nat>, n: nat)
    requires n < |lens|
    ensures forall b: nat :: CountLen(lens[..n + 1], b) == CountLen(lens[..n], b) + (if lens[n] == b then 1 else 0)
  {
    assert lens[..n + 1][..n] == lens[..n];
  }

  /** Assigns every used symbol of tree[0..maxCode] its canonical code, bit-reversed.
      fc holds Freq on entry and Code on return, dl holds Len, the two members of each union. */
  method GenCodes(fc: array<nat>, dl: array<nat>, maxCode: int, blCount: array<nat>)
    requires -1 <= maxCode < dl.Length == fc.Length
    requires fc != blCount && fc != dl
    requires Bounded(dl[..maxCode + 1])
    requires CountsMatch(blCount[..], dl[..maxCode + 1])
    modifies fc
    ensures CodesSet(fc[..], dl[..maxCode + 1])
    ensures forall n :: 0 <= n < fc.Length && (n > maxCode || dl[n] == 0) ==> fc[n] == old(fc[n])
  {
    hide FirstCode, MsbBits, ToBits, CountLen;
    ghost var lens := dl[..maxCode + 1];
    var nextCode := FirstCodes(blCount, lens);
    var n := 0;
    CountNone(lens);
    while n <= maxCode
      invariant 0 <= n <= maxCode + 1
      invariant forall b :: 1 <= b <= MAX_BITS ==> nextCode[b] == FirstCode(lens, b) + CountLen(lens[..n], b)
      invariant CodesSetTo(fc[..], lens, n)
      invariant forall k :: 0 <= k < fc.Length && (k >= n || dl[k] == 0) ==> fc[k] == old(fc[k])
    {
      var len := dl[n];
      CountNext(lens, n);
      if len != 0 {
        var rev := BiReverse(nextCode[len], len);
        fc[n] := rev;
        nextCode[len] := nextCode[len] + 1;
      }
      n := n + 1;
    }
  }

  /** The first n used symbols carry their codeword, ready to be sent lowest bit first. */
  ghost predicate CodesSetTo(codes: seq<nat>, lens: seq<nat>, n: nat)
  {
    && n <= |lens| <= |codes|
    && forall i :: 0 <= i < n && lens[i] > 0 ==>
         codes[i] < Pow2(lens[i]) && ToBits(codes[i], lens[i]) == Codeword(lens, i)
  }

  ghost predicate CodesSet(codes: seq<nat>, lens: seq<nat>)
  {
    CodesSetTo(codes, lens, |lens|)
  }
}
