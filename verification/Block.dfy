/** flush_block: the encoding of one block, and the whole state behind it. */
module Block {
  import opened Bits
  import opened Inflate
  import opened Sums
  import opened Codes
  import opened BitSinks
  import opened BitLengths
  import opened CodeLengths
  import opened Reading
  import opened Tables
  import opened Tokens
  import opened Tally
  import opened Compress
  import opened BlockCost
  import opened BlockTrees
  import opened BlockHeader
  import opened BlockRead
  import opened BlockSize

  /** The trees built for a block code all its tokens; opt and stat are the exact sizes, in
      bits, of the dynamic and the static form after the block type. */
  ghost predicate Trees(tb: CodeTables, toks: seq<Token>, l: seq<nat>, lcodes: seq<nat>, d: seq<nat>, dcodes: seq<nat>,
                        cl: seq<nat>, clcodes: seq<nat>, maxBl: nat, opt: int, stat: int)
  {
    && tb.Ok() && 257 <= |l| <= L_CODES && 1 <= |d| <= D_CODES && Small(l) && Small(d)
    && Complete(l) && Complete(d) && CodesSet(lcodes, l) && CodesSet(dcodes, d)
    && BlCode(cl, clcodes, l, d, maxBl) && Covered(cl, Rle(l)) && Covered(cl, Rle(d))
    && AllCoded(tb, l, d, toks) && l[END_BLOCK] > 0
    && opt == |HeaderBits(l, d, cl, maxBl)| + |DataBits(tb, l, d, toks)|
    && AllCoded(tb, FixedLitLens(), FixedDistLens(), toks)
    && stat == |DataBits(tb, FixedLitLens(), FixedDistLens(), toks)|
  }

  /** opt and stat are the exact sizes of the dynamic and the static form of a block of these tokens. */
  ghost predicate Accounted(tb: CodeTables, toks: seq<Token>, opt: int, stat: int)
  {
    exists l, lcodes, d, dcodes, cl, clcodes, maxBl: nat :: Trees(tb, toks, l, lcodes, d, dcodes, cl, clcodes, maxBl, opt, stat)
  }

  lemma AccountedBy(tb: CodeTables, toks: seq<Token>, l: seq<nat>, lcodes: seq<nat>, d: seq<nat>, dcodes: seq<nat>,
                    cl: seq<nat>, clcodes: seq<nat>, maxBl: nat, opt: int, stat: int)
    requires Trees(tb, toks, l, lcodes, d, dcodes, cl, clcodes, maxBl, opt, stat)
    ensures Accounted(tb, toks, opt, stat)
  {
    hide Trees;
  }

  lemma CostSame(f: seq<nat>, g: seq<nat>, lens: seq<nat>, codes: seq<nat>, opt: int, stat: int, desc: Desc)
    requires Built(f, lens, codes, opt, stat, desc) && |g| == desc.elems <= |f| && f[..desc.elems] == g
    ensures opt == Dot(g, Widths(lens, Extras(desc))) && stat == Dot(g, ImposedWidths(lens, Imposed(desc)))
    ensures Covers(g, lens)
  {
    hide Dot, Complete, CodesSet, Extras, Imposed;
    forall i | 0 <= i < desc.elems ensures f[i] == g[i] {
      assert f[..desc.elems][i] == f[i];
    }
    DotSame(f, g, Widths(lens, Extras(desc)));
    DotSame(f, g, ImposedWidths(lens, Imposed(desc)));
  }

  lemma TreesFrom(tb: CodeTables, toks: seq<Token>, lf: seq<nat>, df: seq<nat>,
                  l: seq<nat>, lcodes: seq<nat>, lo: int, ls: int, d: seq<nat>, dcodes: seq<nat>, do: int, ds: int,
                  cl: seq<nat>, clcodes: seq<nat>, bo: int, maxBl: nat)
    requires tb.Ok() && AllValid(toks) && |lf| >= L_CODES && |df| >= D_CODES
    requires lf[..L_CODES] == LFreq(tb, toks) && df[..D_CODES] == DFreq(tb, toks)
    requires Built(lf, l, lcodes, lo, ls, LDesc()) && Built(df, d, dcodes, do, ds, DDesc()) && Small(l) && Small(d)
    requires BlCode(cl, clcodes, l, d, maxBl) && bo == |SymBits(cl, Rle(l) + Rle(d))|
    ensures Trees(tb, toks, l, lcodes, d, dcodes, cl, clcodes, maxBl, lo + do + bo + 3 * (maxBl + 1) + 5 + 5 + 4, ls + ds)
  {
    hide CodeTables.Ok, LFreq, DFreq, Dot, Extras, Imposed, DataBits, AllCoded, SymBits, Rle, HeaderBits, Covered, Complete, CodesSet,
         UnsentZero, AllValid, FixedLitLens, FixedDistLens;
    CostSame(lf, LFreq(tb, toks), l, lcodes, lo, ls, LDesc());
    CostSame(df, DFreq(tb, toks), d, dcodes, do, ds, DDesc());
    TokensCoded(tb, toks, l, d);
    HeaderSize(l, d, cl, maxBl);
    DynamicSize(tb, toks, l, d);
    StaticSize(tb, toks, l, d);
  }

  method NewArray(n: nat) returns (a: array<nat>)
    ensures fresh(a) && a.Length == n
  {
    a := new nat[n](i => 0);
  }

  method NewTrees() returns (ldl: array<nat>, ddl: array<nat>, bfc: array<nat>, bdl: array<nat>, heap: array<nat>, depth: array<nat>, blCount: array<nat>)
    ensures BlArrays(ldl, ddl, bfc, bdl, heap, depth, blCount)
    ensures fresh(ldl) && fresh(ddl) && fresh(bfc) && fresh(bdl) && fresh(heap) && fresh(depth) && fresh(blCount)
  {
    ldl := NewArray(2 * L_CODES + 1);
    ddl := NewArray(2 * D_CODES + 1);
    bfc := NewArray(2 * BL_CODES + 1);
    bdl := NewArray(2 * BL_CODES + 1);
    heap := NewArray(HEAP_SIZE);
    depth := NewArray(2 * L_CODES + 1);
    blCount := NewArray(MAX_BITS + 1);
  }

  /** The bytes a block of so many bits takes, its type included. */
  function BlockBytes(bits: nat): (n: nat)
  {
    (bits + 3 + 7) / 8
  }

  /** The kind of block chosen is one that takes the fewest bytes: stored if the data is at hand and it
      saves nothing to compress it, dynamic only if that is shorter than static. */
  predicate Chosen(kind: nat, haveData: bool, storedLen: nat, opt: nat, stat: nat)
  {
    && (kind == 0 <==> haveData && storedLen + 4 <= BlockBytes(opt) && storedLen + 4 <= BlockBytes(stat))
    && (kind == 1 ==> BlockBytes(stat) <= BlockBytes(opt))
    && (kind == 2 ==> BlockBytes(opt) < BlockBytes(stat))
  }

  /** The block-coding half of the compressor's globals. */
  class BlockCoder {
    const buf: TokenBuffer
    const ldl: array<nat>       // dyn_ltree[].Len
    const ddl: array<nat>       // dyn_dtree[].Len
    const bfc: array<nat>       // bl_tree[].Freq
    const bdl: array<nat>       // bl_tree[].Len
    const heap: array<nat>
    const depth: array<nat>
    const blCount: array<nat>
    const slfc: array<nat>      // static_ltree
    const sldl: array<nat>
    const sdfc: array<nat>      // static_dtree
    const sddl: array<nat>

    ghost function Repr(): (s: set<object>)
    {
      {buf, buf.lBuf, buf.dBuf, buf.flagBuf, buf.lfc, buf.dfc, ldl, ddl, bfc, bdl, heap, depth, blCount}
    }

    /** Sizes, and distinctness of the arrays of equal size. */
    ghost predicate Arrays()
    {
      && buf.Sized() && BlArrays(ldl, ddl, bfc, bdl, heap, depth, blCount)
      && buf.lfc != ldl && buf.lfc != heap && buf.lfc != depth && buf.dfc != ddl
    }

    /** The static trees are in place. */
    ghost predicate Statics()
      reads slfc, sldl, sdfc, sddl
    {
      && Table(slfc, sldl, FixedLitLens()) && Table(sdfc, sddl, FixedDistLens())
      && slfc.Length == sldl.Length == L_CODES + 2 && sdfc.Length == sddl.Length == D_CODES
    }

    ghost predicate Valid()
      reads buf, buf.lBuf, buf.dBuf, buf.flagBuf, buf.lfc, buf.dfc, bfc, slfc, sldl, sdfc, sddl
    {
      && Arrays() && Statics() && buf.Valid()
      && bfc[..BL_CODES] == Zeros(BL_CODES)
    }

    /** The trees of the current block are in the arrays, ready to be sent. */
    ghost predicate TreesReady(lmax: nat, dmax: nat, maxBl: nat, opt: int, stat: int)
      reads buf, buf.lfc, buf.dfc, ldl, ddl, bfc, bdl
    {
      && lmax < L_CODES && dmax < D_CODES
      && ldl.Length == buf.lfc.Length == 2 * L_CODES + 1 && ddl.Length == buf.dfc.Length == 2 * D_CODES + 1
      && bfc.Length == bdl.Length == 2 * BL_CODES + 1
      && ldl[lmax + 1] == GUARD && ddl[dmax + 1] == GUARD
      && Trees(buf.tb, buf.toks, ldl[..lmax + 1], buf.lfc[..], ddl[..dmax + 1], buf.dfc[..], bdl[..BL_CODES], bfc[..], maxBl, opt, stat)
    }

    /** ct_init */
    constructor ()
      ensures Valid() && buf.toks == []
      ensures fresh(buf) && fresh(buf.lBuf) && fresh(buf.dBuf) && fresh(buf.flagBuf) && fresh(buf.lfc) && fresh(buf.dfc)
      ensures fresh(ldl) && fresh(ddl) && fresh(bfc) && fresh(bdl) && fresh(heap) && fresh(depth) && fresh(blCount)
      ensures fresh(slfc) && fresh(sldl) && fresh(sdfc) && fresh(sddl)
    {
      hide CodeTables.Ok, LFreq, DFreq, LitsHeld, DistsHeld, FlagsHeld, Pow2, Matches, Table, FixedLitLens, FixedDistLens;
      var tb := InitTables();
      var slit, slen := InitStaticLit();
      var sdist, sdlen := InitStaticDist();
      slfc, sldl, sdfc, sddl := slit, slen, sdist, sdlen;
      var lfc := NewArray(2 * L_CODES + 1);
      var dfc := NewArray(2 * D_CODES + 1);
      buf := new TokenBuffer(tb, lfc, dfc);
      var llen, dlen, bfreq, blen, h, dep, count := NewTrees();
      ldl, ddl, bfc, bdl, heap, depth, blCount := llen, dlen, bfreq, blen, h, dep, count;
      new;
      InitBlock();
    }

    /** init_block */
    method InitBlock()
      requires Arrays() && Statics()
      modifies buf, buf.lfc, buf.dfc, bfc
      ensures Valid() && buf.toks == []
    {
      hide CodeTables.Ok, LFreq, DFreq, LitsHeld, DistsHeld, FlagsHeld, Pow2, Matches, Table, FixedLitLens, FixedDistLens;
      buf.InitBlock();
      ClearFirst(bfc, BL_CODES);
    }

    /** The tree-building part of flush_block. */
    method BuildTrees() returns (lmax: nat, dmax: nat, maxBl: nat, opt: int, stat: int)
      requires Valid()
      modifies buf.lfc, buf.dfc, ldl, ddl, bfc, bdl, heap, depth, blCount
      ensures Arrays() && Statics() && buf.Held() && TreesReady(lmax, dmax, maxBl, opt, stat)
    {
      hide CodeTables.Ok, LFreq, DFreq, LitsHeld, DistsHeld, FlagsHeld, Pow2, Matches, Table, FixedLitLens, FixedDistLens, Built, BlCode,
           SymBits, Rle, Trees, Small, LDesc, DDesc;
      DescsValid();
      ghost var lf: seq<nat>, df: seq<nat> := buf.lfc[..], buf.dfc[..];
      assert lf[..L_CODES] == buf.lfc[..L_CODES] && df[..D_CODES] == buf.dfc[..D_CODES];
      var lo, ls, do, ds, bo, bs;
      lmax, lo, ls := BuildOne(buf.lfc, ldl, heap, depth, blCount, LDesc());
      dmax, do, ds := BuildOne(buf.dfc, ddl, heap, depth, blCount, DDesc());
      ghost var l: seq<nat>, d: seq<nat> := ldl[..lmax + 1], ddl[..dmax + 1];
      BuiltUsable(buf.tb, buf.toks, lf, l, buf.lfc[..], lo, ls);
      BuiltIsSmall(df, d, buf.dfc[..], do, ds, DDesc());
      maxBl, bo, bs := BuildBlTree(ldl, lmax, ddl, dmax, bfc, bdl, heap, depth, blCount);
      opt := lo + do + bo + 3 * (maxBl + 1) + 5 + 5 + 4;
      stat := ls + ds + bs;
      TreesFrom(buf.tb, buf.toks, lf, df, l, buf.lfc[..], lo, ls, d, buf.dfc[..], do, ds, bdl[..BL_CODES], bfc[..], bo, maxBl);
    }

    /** The sink shares nothing with this state. */
    ghost predicate Clear(sink: BitSink)
    {
      && (sink as object) !in Repr() && (sink.outbuf as object) !in Repr()
      && Apart(sink, slfc, sldl) && Apart(sink, sdfc, sddl)
    }

    /** Block type and body of a stored block. */
    method SendStored(sink: BitSink, data: seq<Byte>, eof: bool, ghost out: seq<Byte>)
      requires sink.Valid() && |data| < 65536
      modifies sink, sink.outbuf
      ensures sink.Valid() && BlockAdds(old(sink.sent), sink.sent, eof, out, out + data)
      ensures |sink.sent| == (|old(sink.sent)| + 3 + 7) / 8 * 8 + 32 + 8 * |data|
    {
      hide ToBits, Padding, StoredBody, BlockAdds, BodyReads, BitSink.Valid, Pow2;
      ghost var sent0 := sink.sent;
      TypeFits(0, eof);
      sink.SendBits(2 * 0 + (if eof then 1 else 0), 3);
      ghost var pos := |sink.sent|;
      StoredBodyReads(pos, data, out);
      StoredSize(data);
      RoundUp(pos);
      sink.CopyBlock(data);
      ghost var t := ToBits(2 * 0 + (if eof then 1 else 0), 3);
      BlockStep(sent0, Padding(pos) + StoredBody(data), 0, eof, out, out + data);
      Join4(sent0, t, Padding(pos), StoredBody(data));
    }

    /** Block type and body of a static block. */
    method SendStatic(sink: BitSink, eof: bool, ghost out: seq<Byte>, ghost result: seq<Byte>)
      requires sink.Valid() && Clear(sink) && Statics() && Loaded(buf, sink)
      requires AllCoded(buf.tb, FixedLitLens(), FixedDistLens(), buf.toks) && Plays(out, buf.toks, result)
      modifies sink, sink.outbuf
      ensures sink.Valid() && BlockAdds(old(sink.sent), sink.sent, eof, out, result)
      ensures |FixedLitLens()| == 288
      ensures |sink.sent| == |old(sink.sent)| + 3 + |DataBits(buf.tb, FixedLitLens(), FixedDistLens(), buf.toks)|
    {
      hide ToBits, BlockAdds, BodyReads, BitSink.Valid, Pow2, Table, AllCoded, FixedLitLens, FixedDistLens, DataBits, Plays, CodeTables.Ok,
           LitsHeld, DistsHeld, FlagsHeld, Matches, FlagsSaved, AllValid;
      ghost var sent0 := sink.sent;
      FixedCodesAll(buf.tb, buf.toks);
      TypeFits(1, eof);
      sink.SendBits(2 * 1 + (if eof then 1 else 0), 3);
      ghost var data := DataBits(buf.tb, FixedLitLens(), FixedDistLens(), buf.toks);
      StaticBodyReads(|sink.sent|, buf.tb, buf.toks, out, result);
      CompressBlock(sink, buf, slfc, sldl, FixedLitLens(), sdfc, sddl, FixedDistLens());
      BlockStep(sent0, data, 1, eof, out, result);
      Reassociate(sent0, ToBits(2 * 1 + (if eof then 1 else 0), 3), data);
    }

    /** Block type, trees and body of a dynamic block. */
    method SendDynamic(sink: BitSink, eof: bool, lmax: nat, dmax: nat, maxBl: nat, ghost opt: int, ghost stat: int,
                       ghost out: seq<Byte>, ghost result: seq<Byte>)
      requires sink.Valid() && Clear(sink) && Loaded(buf, sink) && TreesReady(lmax, dmax, maxBl, opt, stat) && Plays(out, buf.toks, result)
      modifies sink, sink.outbuf
      ensures sink.Valid() && BlockAdds(old(sink.sent), sink.sent, eof, out, result)
      ensures |sink.sent| == |old(sink.sent)| + 3 + opt
    {
      hide ToBits, BlockAdds, BodyReads, BitSink.Valid, Pow2, Table, AllCoded, FixedLitLens, FixedDistLens, DataBits, Plays, CodeTables.Ok,
           LitsHeld, DistsHeld, FlagsHeld, Matches, FlagsSaved, AllValid, HeaderBits, Covered, Rle, Small, Complete, CodesSet, UnsentZero;
      ghost var sent0 := sink.sent;
      ghost var l: seq<nat>, d: seq<nat>, cl: seq<nat> := ldl[..lmax + 1], ddl[..dmax + 1], bdl[..BL_CODES];
      TypeFits(2, eof);
      sink.SendBits(2 * 2 + (if eof then 1 else 0), 3);
      ghost var header, data := HeaderBits(l, d, cl, maxBl), DataBits(buf.tb, l, d, buf.toks);
      DynamicBodyReads(|sink.sent|, l, d, cl, bfc[..], maxBl, buf.tb, buf.toks, out, result);
      SendAllTrees(sink, ldl, lmax, ddl, dmax, bfc, bdl, maxBl);
      DynTable(buf.lfc, ldl, l);
      DynTable(buf.dfc, ddl, d);
      CompressBlock(sink, buf, buf.lfc, ldl, l, buf.dfc, ddl, d);
      BlockStep(sent0, header + data, 2, eof, out, result);
      Join4(sent0, ToBits(2 * 2 + (if eof then 1 else 0), 3), header, data);
    }

    /** The choice of flush_block among the three encodings. `data` is the block's input, still
        in the window if haveData. */
    method SendBest(sink: BitSink, haveData: bool, data: seq<Byte>, storedLen: nat, eof: bool,
                    lmax: nat, dmax: nat, maxBl: nat, opt: nat, stat: nat, ghost out: seq<Byte>, ghost result: seq<Byte>)
        returns (kind: nat)
      requires sink.Valid() && Clear(sink) && Statics() && Loaded(buf, sink) && TreesReady(lmax, dmax, maxBl, opt, stat)
      requires Plays(out, buf.toks, result) && (haveData ==> result == out + data && |data| == storedLen)
      modifies sink, sink.outbuf
      ensures sink.Valid() && BlockAdds(old(sink.sent), sink.sent, eof, out, result)
      ensures kind == 0 ==> haveData && storedLen < 65536 && |sink.sent| == (|old(sink.sent)| + 10) / 8 * 8 + 32 + 8 * storedLen
      ensures kind == 1 ==> |sink.sent| == |old(sink.sent)| + 3 + stat
      ensures kind == 2 ==> |sink.sent| == |old(sink.sent)| + 3 + opt
      ensures kind <= 2 && Chosen(kind, haveData, storedLen, opt, stat)
    {
      hide BlockAdds, BitSink.Valid, Trees, Table, Plays, FlagsSaved, LitsHeld, DistsHeld, FlagsHeld, CodeTables.Ok, AllValid, Matches, Pow2,
           FixedLitLens, FixedDistLens, DataBits, AllCoded;
      var optLenb, staticLenb := (opt + 3 + 7) / 8, (stat + 3 + 7) / 8;
      TreesStatic(buf.tb, buf.toks, ldl[..lmax + 1], buf.lfc[..], ddl[..dmax + 1], buf.dfc[..], bdl[..BL_CODES], bfc[..], maxBl, opt, stat);
      if staticLenb <= optLenb {
        optLenb := staticLenb;
      }
      if storedLen + 4 <= optLenb && haveData {
        SendStored(sink, data, eof, out);
        kind := 0;
      } else if staticLenb == optLenb {
        SendStatic(sink, eof, out, result);
        kind := 1;
      } else {
        SendDynamic(sink, eof, lmax, dmax, maxBl, opt, stat, out, result);
        kind := 2;
      }
    }

    /** The trees and the bits of a block. */
    method Encode(sink: BitSink, haveData: bool, data: seq<Byte>, storedLen: nat, eof: bool,
                  ghost out: seq<Byte>, ghost result: seq<Byte>) returns (kind: nat, opt: nat, stat: nat)
      requires Valid() && sink.Valid() && Clear(sink)
      requires Plays(out, buf.toks, result) && (haveData ==> result == out + data && |data| == storedLen)
      modifies Repr(), sink, sink.outbuf
      ensures Arrays() && Statics() && sink.Valid() && BlockAdds(old(sink.sent), sink.sent, eof, out, result)
      ensures kind == 0 ==> haveData && storedLen < 65536 && |sink.sent| == (|old(sink.sent)| + 10) / 8 * 8 + 32 + 8 * storedLen
      ensures kind == 1 ==> |sink.sent| == |old(sink.sent)| + 3 + stat
      ensures kind == 2 ==> |sink.sent| == |old(sink.sent)| + 3 + opt
      ensures kind <= 2 && Chosen(kind, haveData, storedLen, opt, stat)
      ensures Accounted(buf.tb, old(buf.toks), opt, stat)
    {
      hide BlockAdds, BitSink.Valid, Trees, Table, Plays, FlagsSaved, LitsHeld, DistsHeld, FlagsHeld, CodeTables.Ok, AllValid, Matches, Pow2,
           FixedLitLens, FixedDistLens, DataBits, AllCoded, LFreq, DFreq, BytesBits, Padding, Accounted;
      SaveLastFlags();
      var lmax, dmax, maxBl, o, s := BuildTrees();
      TreesStatic(buf.tb, buf.toks, ldl[..lmax + 1], buf.lfc[..], ddl[..dmax + 1], buf.dfc[..], bdl[..BL_CODES], bfc[..], maxBl, o, s);
      opt, stat := o, s;
      AccountedBy(buf.tb, buf.toks, ldl[..lmax + 1], buf.lfc[..], ddl[..dmax + 1], buf.dfc[..], bdl[..BL_CODES], bfc[..], maxBl, o, s);
      kind := SendBest(sink, haveData, data, storedLen, eof, lmax, dmax, maxBl, opt, stat, out, result);
    }

    /** flush_block: sends the tokens of the current block and starts a new one. The bits sent
        (before padding at the end of the file) are read as exactly the bytes the tokens stand for,
        in any of the three encodings, and take exactly the number of bits accounted for. */
    method FlushBlock(sink: BitSink, haveData: bool, data: seq<Byte>, storedLen: nat, eof: bool,
                      ghost out: seq<Byte>, ghost result: seq<Byte>) returns (kind: nat, opt: nat, stat: nat, ghost mid: seq<bool>)
      requires Valid() && sink.Valid() && Clear(sink)
      requires Plays(out, buf.toks, result) && (haveData ==> result == out + data && |data| == storedLen)
      modifies Repr(), sink, sink.outbuf
      ensures Valid() && buf.toks == [] && sink.Valid()
      ensures BlockAdds(old(sink.sent), mid, eof, out, result)
      ensures sink.sent == if eof then mid + Padding(|mid|) else mid
      ensures eof ==> sink.sent == BytesBits(sink.Out())
      ensures kind == 0 ==> haveData && storedLen < 65536 && |mid| == (|old(sink.sent)| + 10) / 8 * 8 + 32 + 8 * storedLen
      ensures kind == 1 ==> |mid| == |old(sink.sent)| + 3 + stat
      ensures kind == 2 ==> |mid| == |old(sink.sent)| + 3 + opt
      ensures kind <= 2 && Chosen(kind, haveData, storedLen, opt, stat)
      ensures Accounted(buf.tb, old(buf.toks), opt, stat)
    {
      hide BlockAdds, BitSink.Valid, Trees, Table, Plays, FlagsSaved, LitsHeld, DistsHeld, FlagsHeld, CodeTables.Ok, AllValid, Matches, Pow2,
           FixedLitLens, FixedDistLens, DataBits, AllCoded, LFreq, DFreq, BytesBits, Padding, Accounted;
      kind, opt, stat := Encode(sink, haveData, data, storedLen, eof, out, result);
      mid := sink.sent;
      InitBlock();
      if eof {
        sink.BiWindup();
      }
    }

    /** Saves the flags of the last few tokens. */
    method SaveLastFlags()
      requires Valid()
      modifies buf.flagBuf
      ensures Valid() && FlagsSaved(buf.flagBuf[..], buf.toks)
    {
      hide LitsHeld, DistsHeld, FlagsHeld, FlagsSaved, CodeTables.Ok, AllValid, Matches, Pow2, FixedLitLens, FixedDistLens, LFreq, DFreq,
           Table;
      ghost var fb: seq<nat> := buf.flagBuf[..];
      FlagBits(|buf.toks| % 8, fb, buf.lastFlags, buf.flags, buf.toks);
      SaveFlags(fb, buf.lastFlags, buf.flags, buf.toks);
      buf.flagBuf[buf.lastFlags] := buf.flags;
      assert buf.flagBuf[..] == fb[buf.lastFlags := buf.flags];
    }
  }

  /** The static form of a full buffer still takes fewer than 2^15 bytes. */
  lemma TreesStatic(tb: CodeTables, toks: seq<Token>, l: seq<nat>, lcodes: seq<nat>, d: seq<nat>, dcodes: seq<nat>,
                    cl: seq<nat>, clcodes: seq<nat>, maxBl: nat, opt: int, stat: int)
    requires Trees(tb, toks, l, lcodes, d, dcodes, cl, clcodes, maxBl, opt, stat) && AllValid(toks)
    ensures tb.Ok() && AllCoded(tb, FixedLitLens(), FixedDistLens(), toks)
    ensures opt >= 0 && 0 <= stat <= 31 * |toks| + 7 && |FixedLitLens()| == 288
    ensures stat == |DataBits(tb, FixedLitLens(), FixedDistLens(), toks)|
  {
    hide CodeTables.Ok, AllCoded, FixedLitLens, FixedDistLens, Covered, BlCode, HeaderBits, DataBits, TokensBits, AllValid, Complete, CodesSet;
    FixedCodesAll(tb, toks);
    FixedSizeBound(tb, toks);
    DataSize(tb, FixedLitLens(), FixedDistLens(), toks);
  }

  lemma TypeFits(kind: nat, eof: bool)
    requires kind < 3
    ensures 2 * kind + (if eof then 1 else 0) < Pow2(3) && |ToBits(2 * kind + (if eof then 1 else 0), 3)| == 3
  {
    SmallPowers();
  }

  lemma DynTable(fc: array<nat>, dl: array<nat>, lens: seq<nat>)
    requires fc.Length == dl.Length && |lens| <= dl.Length && dl[..|lens|] == lens && Complete(lens) && CodesSet(fc[..], lens)
    ensures Table(fc, dl, lens)
  {
    TableSet(fc, dl, lens);
  }

  lemma BuiltIsSmall(freq: seq<nat>, lens: seq<nat>, codes: seq<nat>, opt: int, stat: int, desc: Desc)
    requires Built(freq, lens, codes, opt, stat, desc)
    ensures Small(lens)
  {
    BuiltSmall(freq, lens, codes, opt, stat, desc);
  }

  lemma BuiltUsable(tb: CodeTables, toks: seq<Token>, lf: seq<nat>, l: seq<nat>, codes: seq<nat>, opt: int, stat: int)
    requires tb.Ok() && AllValid(toks) && |lf| >= L_CODES && lf[..L_CODES] == LFreq(tb, toks)
    requires Built(lf, l, codes, opt, stat, LDesc())
    ensures Small(l) && Used(l)
  {
    hide CodeTables.Ok, LFreq, Complete, CodesSet, Dot;
    BuiltIsSmall(lf, l, codes, opt, stat, LDesc());
    EndIsCounted(tb, toks);
    assert lf[..L_CODES][END_BLOCK] == lf[END_BLOCK];
  }
}

