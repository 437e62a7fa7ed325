/** Blocks are read back as the bytes they stand for. */
module BlockRead {
  import opened Bits
  import opened Inflate
  import opened Sums
  import opened Codes
  import opened BitSinks
  import opened CodeLengths
  import opened Reading
  import opened Tables
  import opened Tokens
  import opened BlockTrees
  import opened BlockHeader

  // ---- the code-length code ----

  /** What the decoder holds after k code-length code lengths. */
  function Partial(cl: seq<nat>, k: nat): (p: seq<nat>)
    requires |cl| == BL_CODES && k <= BL_CODES
    ensures |p| == BL_CODES
  {
    if k == 0 then Zeros(BL_CODES) else Partial(cl, k - 1)[CODE_LENGTH_ORDER[k - 1] := cl[CODE_LENGTH_ORDER[k - 1]]]
  }

  /** Where a symbol stands in the order of sending. */
  function Rank(s: nat): (k: nat)
    requires s < BL_CODES
    ensures k < BL_CODES && CODE_LENGTH_ORDER[k] == s
  {
    if s == 16 then 0 else if s == 17 then 1 else if s == 18 then 2 else if s == 0 then 3
    else if s <= 7 then 19 - 2 * s else 2 * s - 12
  }

  lemma RankInverse(k: nat)
    requires k < BL_CODES
    ensures Rank(CODE_LENGTH_ORDER[k]) == k
  {
  }

  lemma {:induction false} PartialAt(cl: seq<nat>, k: nat, s: nat)
    requires |cl| == BL_CODES && k <= BL_CODES && s < BL_CODES
    ensures Partial(cl, k)[s] == if Rank(s) < k then cl[s] else 0
  {
    hide Rank;
    if k > 0 {
      RankInverse(k - 1);
      PartialAt(cl, k - 1, s);
    }
  }

  lemma PartialDone(cl: seq<nat>, maxBl: nat)
    requires |cl| == BL_CODES && maxBl < BL_CODES && UnsentZero(cl, maxBl)
    ensures Partial(cl, maxBl + 1) == cl
  {
    hide Rank;
    forall s | 0 <= s < BL_CODES ensures Partial(cl, maxBl + 1)[s] == cl[s] {
      PartialAt(cl, maxBl + 1, s);
      if Rank(s) > maxBl {
        assert cl[CODE_LENGTH_ORDER[Rank(s)]] == 0;
      }
    }
  }

  lemma {:induction false} ClAt(cl: seq<nat>, n: nat, k: nat, bits: seq<bool>, pos: nat)
    requires |cl| == BL_CODES && k < n <= BL_CODES && At(bits, pos, ClBits(cl, n))
    ensures At(bits, pos + 3 * k, ToBits(cl[CODE_LENGTH_ORDER[k]], 3))
  {
    hide ToBits;
    AtSplit(bits, pos, ClBits(cl, n - 1), ToBits(cl[CODE_LENGTH_ORDER[n - 1]], 3));
    if k < n - 1 {
      ClAt(cl, n - 1, k, bits, pos);
    }
  }

  lemma PartialNext(cl: seq<nat>, k: nat)
    requires |cl| == BL_CODES && k < BL_CODES
    ensures Partial(cl, k + 1) == Partial(cl, k)[CODE_LENGTH_ORDER[k] := cl[CODE_LENGTH_ORDER[k]]]
  {
  }

  lemma {:induction false} ClLensRead(cl: seq<nat>, n: nat, k: nat, bits: seq<bool>, pos: nat)
    requires |cl| == BL_CODES && k <= n <= BL_CODES && At(bits, pos, ClBits(cl, n))
    requires forall i :: 0 <= i < BL_CODES ==> cl[i] <= MAX_BL_BITS
    ensures ReadCodeLengthLens(bits, pos + 3 * k, n, k, Partial(cl, k)) == Got(Partial(cl, n), pos + 3 * n)
    decreases n - k
  {
    hide ClBits, At, ReadBits, Pow2, ToBits, Partial;
    if k < n {
      ClAt(cl, n, k, bits, pos);
      SmallPowers();
      var v := cl[CODE_LENGTH_ORDER[k]];
      NumberRead(bits, pos + 3 * k, v, 3);
      PartialNext(cl, k);
      ClLensRead(cl, n, k + 1, bits, pos);
    }
  }

  // ---- both alphabets ----

  lemma LensRead(cl: seq<nat>, l: seq<nat>, d: seq<nat>, bits: seq<bool>, pos: nat)
    requires Decodable(cl) && Small(l) && Small(d) && Covered(cl, Rle(l)) && Covered(cl, Rle(d))
    requires At(bits, pos, SymBits(cl, Rle(l)) + SymBits(cl, Rle(d)))
    ensures ReadLens(cl, bits, pos, [], |l| + |d|) == Got(l + d, pos + |SymBits(cl, Rle(l))| + |SymBits(cl, Rle(d))|)
  {
    hide Decodable, Covered, SymBits, Rle, Expand, Grounded, At, ReadLens;
    var total := |l| + |d|;
    RleRoundTrip(l, []);
    assert [] + l == l;
    RleRoundTrip(d, l);
    AtSplit(bits, pos, SymBits(cl, Rle(l)), SymBits(cl, Rle(d)));
    hide AllWellFormed, Small;
    SymsRead(cl, bits, pos, [], total, Rle(l));
    SymsRead(cl, bits, pos + |SymBits(cl, Rle(l))|, l, total, Rle(d));
    AllLensRead(cl, bits, pos + |SymBits(cl, Rle(l))| + |SymBits(cl, Rle(d))|, l + d);
  }

  lemma AllLensRead(cl: seq<nat>, bits: seq<bool>, pos: nat, lens: seq<nat>)
    ensures ReadLens(cl, bits, pos, lens, |lens|) == Got(lens, pos)
  {
  }

  lemma CompleteDecodable(lens: seq<nat>)
    requires Complete(lens)
    ensures Decodable(lens)
  {
  }

  lemma CountsRead(lcodes: nat, dcodes: nat, blcodes: nat, bits: seq<bool>, pos: nat)
    requires 257 <= lcodes <= L_CODES && 1 <= dcodes <= D_CODES && 4 <= blcodes <= BL_CODES
    requires At(bits, pos, CountBits(lcodes, dcodes, blcodes))
    ensures pos + 14 <= |bits|
    ensures 257 + FromBits(bits[pos..pos + 5]) == lcodes
    ensures 1 + FromBits(bits[pos + 5..pos + 10]) == dcodes
    ensures 4 + FromBits(bits[pos + 10..pos + 14]) == blcodes
  {
    SmallPowers();
    FromToBits(lcodes - 257, 5);
    FromToBits(dcodes - 1, 5);
    FromToBits(blcodes - 4, 4);
    hide Pow2, FromBits;
    AtSplit(bits, pos, ToBits(lcodes - 257, 5), ToBits(dcodes - 1, 5) + ToBits(blcodes - 4, 4));
    AtSplit(bits, pos + 5, ToBits(dcodes - 1, 5), ToBits(blcodes - 4, 4));
  }

  /** Decoding a header that is known to be well formed. */
  lemma HeaderRead(l: seq<nat>, d: seq<nat>, cl: seq<nat>, maxBl: nat, bits: seq<bool>, pos: nat, out: seq<Byte>)
    requires 257 <= |l| <= L_CODES && 1 <= |d| <= D_CODES && Small(l) && Small(d) && Complete(l) && Complete(d)
    requires |cl| == BL_CODES && Complete(cl) && 3 <= maxBl < BL_CODES && UnsentZero(cl, maxBl)
    requires forall i :: 0 <= i < BL_CODES ==> cl[i] <= MAX_BL_BITS
    requires Covered(cl, Rle(l)) && Covered(cl, Rle(d)) && At(bits, pos, HeaderBits(l, d, cl, maxBl))
    ensures ReadDynamic(bits, pos, out) == ReadSymbols(l, d, bits, pos + |HeaderBits(l, d, cl, maxBl)|, out)
  {
    hide Covered, Rle, SymBits, ClBits, CountBits, Small, UnsentZero, Complete, ReadLens, ReadSymbols, ReadCodeLengthLens, FromBits, At, Partial;
    var n := maxBl + 1;
    var syms := SymBits(cl, Rle(l)) + SymBits(cl, Rle(d));
    AtSplit(bits, pos, CountBits(|l|, |d|, n), ClBits(cl, n) + syms);
    AtSplit(bits, pos + 14, ClBits(cl, n), syms);
    CountsRead(|l|, |d|, n, bits, pos);
    ClLensRead(cl, n, 0, bits, pos + 14);
    PartialDone(cl, maxBl);
    PartialNone(cl);
    CompleteDecodable(cl);
    LensRead(cl, l, d, bits, pos + 14 + 3 * n);
    assert (l + d)[..|l|] == l && (l + d)[|l|..] == d;
  }

  lemma PartialNone(cl: seq<nat>)
    requires |cl| == BL_CODES
    ensures Partial(cl, 0) == seq(19, i => 0)
  {
  }

  /** A dynamic block is read as what its tokens stand for. */
  lemma DynamicRead(l: seq<nat>, d: seq<nat>, cl: seq<nat>, codes: seq<nat>, maxBl: nat, tb: CodeTables, toks: seq<Token>,
                    bits: seq<bool>, pos: nat, out: seq<Byte>, result: seq<Byte>)
    requires 257 <= |l| <= L_CODES && 1 <= |d| <= D_CODES && Small(l) && Small(d) && Complete(l) && Complete(d)
    requires BlCode(cl, codes, l, d, maxBl) && Covered(cl, Rle(l)) && Covered(cl, Rle(d))
    requires tb.Ok() && AllCoded(tb, l, d, toks) && l[END_BLOCK] > 0 && Plays(out, toks, result)
    requires At(bits, pos, HeaderBits(l, d, cl, maxBl) + DataBits(tb, l, d, toks))
    ensures ReadDynamic(bits, pos, out)
         == Got(result, pos + |HeaderBits(l, d, cl, maxBl)| + |DataBits(tb, l, d, toks)|)
  {
    hide Covered, Rle, Small, UnsentZero, Complete, ReadDynamic, ReadSymbols, At, CodesSet, CodeTables.Ok, AllCoded, Plays, HeaderBits, DataBits;
    AtSplit(bits, pos, HeaderBits(l, d, cl, maxBl), DataBits(tb, l, d, toks));
    HeaderRead(l, d, cl, maxBl, bits, pos, out);
    CompleteDecodable(l);
    CompleteDecodable(d);
    DataRead(tb, l, d, toks, bits, pos + |HeaderBits(l, d, cl, maxBl)|, out, result);
  }

  /** A static block is read as what its tokens stand for. */
  lemma StaticRead(tb: CodeTables, toks: seq<Token>, bits: seq<bool>, pos: nat, out: seq<Byte>, result: seq<Byte>)
    requires tb.Ok() && AllCoded(tb, FixedLitLens(), FixedDistLens(), toks) && Plays(out, toks, result)
    requires |FixedLitLens()| == 288 && FixedLitLens()[END_BLOCK] > 0
    requires At(bits, pos, DataBits(tb, FixedLitLens(), FixedDistLens(), toks))
    ensures ReadSymbols(FixedLitLens(), FixedDistLens(), bits, pos, out)
         == Got(result, pos + |DataBits(tb, FixedLitLens(), FixedDistLens(), toks)|)
  {
    hide Complete, ReadSymbols, At, CodeTables.Ok, AllCoded, Plays, DataBits, FixedLitLens, FixedDistLens;
    FixedComplete();
    CompleteDecodable(FixedLitLens());
    CompleteDecodable(FixedDistLens());
    DataRead(tb, FixedLitLens(), FixedDistLens(), toks, bits, pos, out, result);
  }

  lemma ByteRead(buf: seq<Byte>, bits: seq<bool>, pos: nat, i: nat)
    requires At(bits, pos, BytesBits(buf)) && i < |buf|
    ensures pos + 8 * i + 8 <= |bits| && ByteAt(bits, pos + 8 * i) == buf[i]
  {
    BytesBitsAt(buf, i);
    var all := bits[pos..pos + 8 * |buf|];
    assert all[8 * i..8 * i + 8] == bits[pos + 8 * i..pos + 8 * i + 8];
    SmallPowers();
    FromToBits(buf[i], 8);
  }

  lemma BytesRead(buf: seq<Byte>, bits: seq<bool>, pos: nat)
    requires At(bits, pos, BytesBits(buf))
    ensures pos + 8 * |buf| <= |bits| && ReadBytes(bits, pos, |buf|) == Got(buf, pos + 8 * |buf|)
  {
    hide ByteAt;
    forall i | 0 <= i < |buf| ensures pos + 8 * i + 8 <= |bits| && ByteAt(bits, pos + 8 * i) == buf[i] {
      ByteRead(buf, bits, pos, i);
    }
    assert ReadBytes(bits, pos, |buf|).value == buf;
  }

  lemma LenBits(n: nat)
    requires n < 65536
    ensures n < Pow2(16) && 65535 - n < Pow2(16)
  {
    assert Pow2(8) == 256;
    assert Pow2(16) == 65536;
  }

  lemma RoundUp(pos: nat)
    ensures (pos + 7) / 8 * 8 == pos + |Padding(pos)|
  {
  }

  /** A stored block is read as its bytes; its length must fit in 16 bits. */
  lemma StoredRead(buf: seq<Byte>, bits: seq<bool>, pos: nat, out: seq<Byte>)
    requires |buf| < 65536 && At(bits, pos, Padding(pos) + StoredBody(buf))
    ensures ReadStored(bits, pos, out) == Got(out + buf, pos + |Padding(pos)| + |StoredBody(buf)|)
  {
    hide Padding, ToBits, BytesBits, At, ReadBytes, ReadBits, Pow2;
    var n := |buf|;
    LenBits(n);
    RoundUp(pos);
    AtSplit(bits, pos, Padding(pos), StoredBody(buf));
    var p := pos + |Padding(pos)|;
    StoredSize(buf);
    AtSplit(bits, p, ToBits(n, 16) + ToBits(65535 - n, 16), BytesBits(buf));
    AtSplit(bits, p, ToBits(n, 16), ToBits(65535 - n, 16));
    NumberRead(bits, p, n, 16);
    NumberRead(bits, p + 16, 65535 - n, 16);
    BytesRead(buf, bits, p + 32);
  }

  lemma StoredSize(buf: seq<Byte>)
    requires |buf| < 65536
    ensures |ToBits(|buf|, 16)| == 16 && |ToBits(65535 - |buf|, 16)| == 16 && |BytesBits(buf)| == 8 * |buf|
    ensures |StoredBody(buf)| == 32 + 8 * |buf| && |buf| % 65536 == |buf|
  {
  }

  // ---- a block among others ----

  /** Once mid has been sent after sent0, any decoder that had produced `out` by then goes on
      to `result`, whatever follows. */
  ghost predicate BlockAdds(sent0: seq<bool>, mid: seq<bool>, final: bool, out: seq<Byte>, result: seq<Byte>)
  {
    && |sent0| < |mid| && sent0 <= mid
    && forall full :: mid <= full ==>
         ReadBlocks(full, |sent0|, out) == if final then Got(result, |mid|) else ReadBlocks(full, |mid|, result)
  }

  lemma TypeRead(kind: nat, final: bool, bits: seq<bool>, pos: nat)
    requires kind < 3 && At(bits, pos, ToBits(2 * kind + (if final then 1 else 0), 3))
    ensures pos + 3 <= |bits| && bits[pos] == final && FromBits(bits[pos + 1..pos + 3]) == kind
  {
    var v := 2 * kind + (if final then 1 else 0);
    var b := ToBits(v, 3);
    assert b[0] == final;
    assert b[1] == (kind == 1);
    assert b[2] == (kind == 2);
    assert bits[pos..pos + 3] == b;
    assert bits[pos + 1..pos + 3] == [kind == 1, kind == 2];
    var c := [kind == 1, kind == 2];
    assert c[1..] == [kind == 2] && c[1..][1..] == [];
  }

  lemma AtTail(full: seq<bool>, a: seq<bool>, b: seq<bool>)
    requires a + b <= full
    ensures At(full, |a|, b)
  {
    var ab := a + b;
    assert full[..|ab|] == ab;
    assert full[|a|..|a| + |b|] == ab[|a|..];
  }

  /** A block body is read as what it stands for, wherever it stands at pos. */
  ghost predicate BodyReads(kind: nat, pos: nat, body: seq<bool>, out: seq<Byte>, result: seq<Byte>)
  {
    forall full :: At(full, pos, body) ==> ReadBlock(kind, full, pos, out) == Got(result, pos + |body|)
  }

  lemma StoredBodyReads(pos: nat, buf: seq<Byte>, out: seq<Byte>)
    requires |buf| < 65536
    ensures BodyReads(0, pos, Padding(pos) + StoredBody(buf), out, out + buf)
  {
    hide At, ReadStored, Padding, StoredBody;
    forall full | At(full, pos, Padding(pos) + StoredBody(buf))
      ensures ReadBlock(0, full, pos, out) == Got(out + buf, pos + |Padding(pos) + StoredBody(buf)|)
    {
      StoredRead(buf, full, pos, out);
    }
  }

  lemma StaticBodyReads(pos: nat, tb: CodeTables, toks: seq<Token>, out: seq<Byte>, result: seq<Byte>)
    requires tb.Ok() && AllCoded(tb, FixedLitLens(), FixedDistLens(), toks) && Plays(out, toks, result)
    requires |FixedLitLens()| == 288 && FixedLitLens()[END_BLOCK] > 0
    ensures BodyReads(1, pos, DataBits(tb, FixedLitLens(), FixedDistLens(), toks), out, result)
  {
    hide At, ReadSymbols, DataBits, FixedLitLens, FixedDistLens, CodeTables.Ok, AllCoded, Plays;
    var body := DataBits(tb, FixedLitLens(), FixedDistLens(), toks);
    forall full | At(full, pos, body) ensures ReadBlock(1, full, pos, out) == Got(result, pos + |body|) {
      StaticRead(tb, toks, full, pos, out, result);
    }
  }

  lemma DynamicBodyReads(pos: nat, l: seq<nat>, d: seq<nat>, cl: seq<nat>, codes: seq<nat>, maxBl: nat, tb: CodeTables, toks: seq<Token>,
                         out: seq<Byte>, result: seq<Byte>)
    requires 257 <= |l| <= L_CODES && 1 <= |d| <= D_CODES && Small(l) && Small(d) && Complete(l) && Complete(d)
    requires BlCode(cl, codes, l, d, maxBl) && Covered(cl, Rle(l)) && Covered(cl, Rle(d))
    requires tb.Ok() && AllCoded(tb, l, d, toks) && l[END_BLOCK] > 0 && Plays(out, toks, result)
    ensures BodyReads(2, pos, HeaderBits(l, d, cl, maxBl) + DataBits(tb, l, d, toks), out, result)
  {
    hide At, ReadDynamic, DataBits, HeaderBits, CodeTables.Ok, AllCoded, Plays, Small, Complete, Covered, Rle, CodesSet, UnsentZero;
    var body := HeaderBits(l, d, cl, maxBl) + DataBits(tb, l, d, toks);
    forall full | At(full, pos, body) ensures ReadBlock(2, full, pos, out) == Got(result, pos + |body|) {
      DynamicRead(l, d, cl, codes, maxBl, tb, toks, full, pos, out, result);
    }
  }

  /** The block type followed by a body that decodes makes a block. */
  lemma BlockStep(sent0: seq<bool>, body: seq<bool>, kind: nat, final: bool, out: seq<Byte>, result: seq<Byte>)
    requires kind < 3
    requires BodyReads(kind, |sent0| + 3, body, out, result)
    ensures BlockAdds(sent0, sent0 + (ToBits(2 * kind + (if final then 1 else 0), 3) + body), final, out, result)
  {
    hide At, ReadBlock, FromBits;
    var t := ToBits(2 * kind + (if final then 1 else 0), 3);
    assert |t| == 3;
    hide ToBits;
    var mid := sent0 + (t + body);
    forall full | mid <= full
      ensures ReadBlocks(full, |sent0|, out) == if final then Got(result, |mid|) else ReadBlocks(full, |mid|, result)
    {
      AtTail(full, sent0, t + body);
      AtSplit(full, |sent0|, t, body);
      TypeRead(kind, final, full, |sent0|);
      assert ReadBlock(kind, full, |sent0| + 3, out) == Got(result, |sent0| + 3 + |body|);
    }
  }
}
