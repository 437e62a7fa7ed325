/** compress_block: sends the buffered tokens with the given trees. */
module Compress {
  import opened Bits
  import opened Inflate
  import opened Codes
  import opened BitSinks
  import opened CodeLengths
  import opened Tables
  import opened Tokens
  import opened Tally

  /** Every group of eight flags, the last one too, has been saved to flag_buf. */
  ghost predicate FlagsSaved(flagBuf: seq<nat>, toks: seq<Token>)
  {
    forall g :: 0 <= g && 8 * g < |toks| ==> FlagByte(flagBuf, g, toks)
  }

  lemma SaveFlags(flagBuf: seq<nat>, last: nat, flags: nat, toks: seq<Token>)
    requires FlagsHeld(flagBuf, last, flags, toks) && last < |flagBuf|
    ensures FlagsHeld(flagBuf[last := flags], last, flags, toks) && FlagsSaved(flagBuf[last := flags], toks)
  {
    hide Group, FromBits;
    var fb := flagBuf[last := flags];
    forall g | 0 <= g < last ensures FlagByte(fb, g, toks) {
      assert FlagByte(flagBuf, g, toks);
    }
    forall g | 0 <= g && 8 * g < |toks| ensures FlagByte(fb, g, toks) {
      assert g <= last;
    }
  }

  /** A code and, if it has any, its extra bits. */
  method SendExtended(sink: BitSink, fc: array<nat>, dl: array<nat>, c: nat, x: nat, w: nat, ghost cl: seq<nat>, ghost x': nat)
    requires sink.Valid() && Apart(sink, fc, dl) && Table(fc, dl, cl) && c < |cl| && c < dl.Length && cl[c] > 0
    requires w <= 16 && (w != 0 ==> x == x' && x < Pow2(w))
    modifies sink, sink.outbuf
    ensures sink.Valid() && Table(fc, dl, cl)
    ensures sink.sent == old(sink.sent) + ExtendedBits(cl, c, x', w)
  {
    hide Codeword, ToBits, Table, Pow2;
    SendCode(sink, fc, dl, c, cl);
    if w != 0 {
      sink.SendBits(x, w);
    } else {
      NoBits(x', sink.sent);
    }
    Reassociate(old(sink.sent), Codeword(cl, c), ToBits(x', w));
  }

  /** The tables an encoder sends a block with. */
  ghost predicate CanSend(sink: BitSink, lfc: array<nat>, ldl: array<nat>, llens: seq<nat>, dfc: array<nat>, ddl: array<nat>, dlens: seq<nat>)
    reads sink, sink.outbuf, lfc, ldl, dfc, ddl
  {
    && sink.Valid()
    && Apart(sink, lfc, ldl) && Apart(sink, dfc, ddl)
    && Table(lfc, ldl, llens) && Table(dfc, ddl, dlens)
    && ldl.Length >= L_CODES && ddl.Length >= D_CODES
  }

  lemma LengthParts(tb: CodeTables, t: Token)
    requires tb.Ok() && t.Match? && t.Valid()
    ensures var l := t.len - 3;
            && l < |tb.lengthCode| && tb.lengthCode[l] < LENGTH_CODES == |tb.baseLength|
            && LSym(tb, t) == 257 + tb.lengthCode[l]
            && var w := LENGTH_EXTRA[tb.lengthCode[l]];
               w <= 16 && (w != 0 ==> tb.baseLength[tb.lengthCode[l]] + LengthOffset(tb, t) == l && LengthOffset(tb, t) < Pow2(w))
  {
    assert tb.LengthOk(t.len - 3);
  }

  lemma DistParts(tb: CodeTables, t: Token)
    requires tb.Ok() && t.Match? && t.Valid()
    ensures var d := t.dist - 1;
            && |tb.distCode| == 512 && DSym(tb, t) == tb.DCode(d) < D_CODES == |tb.baseDist|
            && var w := DIST_EXTRA[tb.DCode(d)];
               w <= 16 && tb.baseDist[tb.DCode(d)] + DistOffset(tb, t) == d && DistOffset(tb, t) < Pow2(w)
  {
    assert tb.DistOk(t.dist - 1);
  }

  method SendLength(sink: BitSink, tb: CodeTables, lc: Byte, fc: array<nat>, dl: array<nat>, ghost llens: seq<nat>, ghost t: Token)
    requires tb.Ok() && sink.Valid() && Apart(sink, fc, dl) && Table(fc, dl, llens) && dl.Length >= L_CODES
    requires t.Match? && t.Valid() && t.len == lc + 3 && LSym(tb, t) < |llens| && llens[LSym(tb, t)] > 0
    modifies sink, sink.outbuf
    ensures sink.Valid() && Table(fc, dl, llens)
    ensures sink.sent == old(sink.sent) + LengthBits(tb, llens, t)
  {
    hide Table, Pow2, ExtendedBits, CodeTables.Ok, LSym, LengthOffset;
    LengthParts(tb, t);
    var code := tb.lengthCode[lc];
    StandardTables();
    var extra := EXTRA_LBITS[code];
    var x := if extra != 0 then lc - tb.baseLength[code] else 0;
    SendExtended(sink, fc, dl, code + 256 + 1, x, extra, llens, LengthOffset(tb, t));
  }

  method SendDist(sink: BitSink, tb: CodeTables, dist: nat, fc: array<nat>, dl: array<nat>, ghost dlens: seq<nat>, ghost t: Token)
    requires tb.Ok() && sink.Valid() && Apart(sink, fc, dl) && Table(fc, dl, dlens) && dl.Length >= D_CODES
    requires t.Match? && t.Valid() && t.dist == dist + 1 && DSym(tb, t) < |dlens| && dlens[DSym(tb, t)] > 0
    modifies sink, sink.outbuf
    ensures sink.Valid() && Table(fc, dl, dlens)
    ensures sink.sent == old(sink.sent) + DistBits(tb, dlens, t)
  {
    hide Table, Pow2, ExtendedBits, CodeTables.Ok, DSym, DistOffset;
    DistParts(tb, t);
    var code := tb.DCode(dist);
    StandardTables();
    var extra := EXTRA_DBITS[code];
    var x := if extra != 0 then dist - tb.baseDist[code] else 0;
    SendExtended(sink, fc, dl, code, x, extra, dlens, DistOffset(tb, t));
  }

  /** One token: a literal, or a match's length and distance. */
  method SendToken(sink: BitSink, tb: CodeTables, isMatch: bool, lc: Byte, dist: nat,
                   lfc: array<nat>, ldl: array<nat>, ghost llens: seq<nat>,
                   dfc: array<nat>, ddl: array<nat>, ghost dlens: seq<nat>, ghost t: Token)
    requires tb.Ok() && CanSend(sink, lfc, ldl, llens, dfc, ddl, dlens)
    requires Coded(tb, llens, dlens, t) && t == (if isMatch then Match(dist + 1, lc + 3) else Literal(lc))
    modifies sink, sink.outbuf
    ensures CanSend(sink, lfc, ldl, llens, dfc, ddl, dlens)
    ensures sink.sent == old(sink.sent) + TokenBits(tb, llens, dlens, t)
  {
    hide Table, Pow2, LengthBits, DistBits, CodeTables.Ok, DSym, Codeword, BitSink.Valid;
    if !isMatch {
      SendCode(sink, lfc, ldl, lc, llens);
      assert Table(dfc, ddl, dlens);
    } else {
      hide LSym;
      SendLength(sink, tb, lc, lfc, ldl, llens, t);
      SendDist(sink, tb, dist, dfc, ddl, dlens, t);
      Reassociate(old(sink.sent), LengthBits(tb, llens, t), DistBits(tb, dlens, t));
    }
  }

  /** Where the token at lx stands in the three buffers. */
  lemma TokenAt(lBuf: seq<Byte>, dBuf: seq<nat>, toks: seq<Token>, lx: nat)
    requires AllValid(toks) && LitsHeld(lBuf, toks) && DistsHeld(dBuf, toks) && lx < |toks|
    ensures toks[lx].Valid() && lBuf[lx] == Lc(toks[lx])
    ensures Matches(toks[..lx + 1]) == Matches(toks[..lx]) + (if toks[lx].Match? then 1 else 0)
    ensures toks[lx].Match? ==> Matches(toks[..lx]) < |dBuf| && dBuf[Matches(toks[..lx])] + 1 == toks[lx].dist
  {
    assert toks[..lx + 1][..lx] == toks[..lx];
  }

  /** The lowest of the remaining flags is the next token's kind; shifting drops it. */
  lemma FlagStep(toks: seq<Token>, lx: nat, flag: nat)
    requires lx < |toks| && flag == FromBits(Group(toks, lx))
    ensures (flag % 2 == 1) == toks[lx].Match?
    ensures (lx + 1) % 8 != 0 ==> flag / 2 == FromBits(Group(toks, lx + 1))
  {
    var g := Group(toks, lx);
    assert lx < lx / 8 * 8 + 8;
    assert g != [] && g[0] == toks[lx].Match?;
    if (lx + 1) % 8 != 0 {
      assert (lx + 1) / 8 == lx / 8;
      assert g[1..] == Group(toks, lx + 1);
    }
  }

  lemma BitsSoFar(tb: CodeTables, llens: seq<nat>, dlens: seq<nat>, toks: seq<Token>, lx: nat, sent: seq<bool>)
    requires tb.Ok() && AllCoded(tb, llens, dlens, toks) && lx < |toks|
    ensures AllCoded(tb, llens, dlens, toks[..lx]) && AllCoded(tb, llens, dlens, toks[..lx + 1]) && Coded(tb, llens, dlens, toks[lx])
    ensures sent + TokensBits(tb, llens, dlens, toks[..lx]) + TokenBits(tb, llens, dlens, toks[lx])
         == sent + TokensBits(tb, llens, dlens, toks[..lx + 1])
  {
    hide Coded, TokenBits, CodeTables.Ok;
    assert Coded(tb, llens, dlens, toks[lx]);
    var more := toks[..lx + 1];
    assert more[..|more| - 1] == toks[..lx] && more[|more| - 1] == toks[lx];
    TokensSplit(tb, llens, dlens, more);
    Reassociate(sent, TokensBits(tb, llens, dlens, toks[..lx]), TokenBits(tb, llens, dlens, toks[lx]));
  }

  ghost predicate Loaded(b: TokenBuffer, sink: BitSink)
    reads b, b.lBuf, b.dBuf, b.flagBuf
  {
    && b.Held() && FlagsSaved(b.flagBuf[..], b.toks)
    && b.lBuf != sink.outbuf && (b.dBuf as object) != (sink.outbuf as object)
    && (b.flagBuf as object) != (sink.outbuf as object) && (b as object) != (sink as object)
  }

  /** compress_block: the tokens' bits and end-of-block. */
  method CompressBlock(sink: BitSink, b: TokenBuffer,
                       lfc: array<nat>, ldl: array<nat>, ghost llens: seq<nat>,
                       dfc: array<nat>, ddl: array<nat>, ghost dlens: seq<nat>)
    requires Loaded(b, sink) && CanSend(sink, lfc, ldl, llens, dfc, ddl, dlens)
    requires AllCoded(b.tb, llens, dlens, b.toks) && |llens| > END_BLOCK && llens[END_BLOCK] > 0
    modifies sink, sink.outbuf
    ensures sink.Valid()
    ensures sink.sent == old(sink.sent) + DataBits(b.tb, llens, dlens, b.toks)
  {
    hide Table, CodeTables.Ok, BitSink.Valid, LitsHeld, DistsHeld, FlagsHeld, Coded, AllCoded, TokenBits, TokensBits,
         Codeword, Group, FromBits, Matches, Pow2, AllValid, CanSend;
    ghost var toks, sent := b.toks, sink.sent;
    var lx, dx, fx, flag := 0, 0, 0, 0;
    NothingYet(b.tb, llens, dlens, toks, sent);
    while lx < b.lastLit
      invariant 0 <= lx <= |toks| && dx == Matches(toks[..lx]) && fx == (lx + 7) / 8
      invariant lx % 8 != 0 ==> flag == FromBits(Group(toks, lx))
      invariant Loaded(b, sink) && CanSend(sink, lfc, ldl, llens, dfc, ddl, dlens)
      invariant AllCoded(b.tb, llens, dlens, toks[..lx])
      invariant sink.sent == sent + TokensBits(b.tb, llens, dlens, toks[..lx])
    {
      if lx % 8 == 0 {
        assert FlagByte(b.flagBuf[..], fx, toks);
        flag := b.flagBuf[fx];
        fx := fx + 1;
      }
      TokenAt(b.lBuf[..], b.dBuf[..], toks, lx);
      FlagStep(toks, lx, flag);
      BitsSoFar(b.tb, llens, dlens, toks, lx, sent);
      dx := SendNext(sink, b, lx, dx, flag % 2 == 1, lfc, ldl, llens, dfc, ddl, dlens);
      lx := lx + 1;
      flag := flag / 2;
    }
    assert toks[..lx] == toks;
    SendEnd(sink, lfc, ldl, llens, dfc, ddl, dlens);
    Reassociate(sent, TokensBits(b.tb, llens, dlens, toks), Codeword(llens, END_BLOCK));
  }

  /** One round of compress_block's loop. */
  method SendNext(sink: BitSink, b: TokenBuffer, lx: nat, dx0: nat, isMatch: bool,
                  lfc: array<nat>, ldl: array<nat>, ghost llens: seq<nat>,
                  dfc: array<nat>, ddl: array<nat>, ghost dlens: seq<nat>) returns (dx: nat)
    requires Loaded(b, sink) && CanSend(sink, lfc, ldl, llens, dfc, ddl, dlens)
    requires lx < |b.toks| && Coded(b.tb, llens, dlens, b.toks[lx])
    requires isMatch == b.toks[lx].Match? && b.toks[lx].Valid() && b.lBuf[lx] == Lc(b.toks[lx])
    requires isMatch ==> dx0 < b.dBuf.Length && b.dBuf[dx0] + 1 == b.toks[lx].dist
    modifies sink, sink.outbuf
    ensures Loaded(b, sink) && CanSend(sink, lfc, ldl, llens, dfc, ddl, dlens)
    ensures sink.sent == old(sink.sent) + TokenBits(b.tb, llens, dlens, b.toks[lx])
    ensures dx == dx0 + (if isMatch then 1 else 0)
  {
    hide CodeTables.Ok, LitsHeld, DistsHeld, FlagsHeld, FlagsSaved, Coded, TokenBits, AllValid, CanSend, Matches, Pow2;
    var lc := b.lBuf[lx];
    dx := dx0;
    var dist := 0;
    if isMatch {
      dist := b.dBuf[dx];
      dx := dx + 1;
    }
    SendToken(sink, b.tb, isMatch, lc, dist, lfc, ldl, llens, dfc, ddl, dlens, b.toks[lx]);
  }

  method SendEnd(sink: BitSink, lfc: array<nat>, ldl: array<nat>, ghost llens: seq<nat>,
                 dfc: array<nat>, ddl: array<nat>, ghost dlens: seq<nat>)
    requires CanSend(sink, lfc, ldl, llens, dfc, ddl, dlens) && |llens| > END_BLOCK && llens[END_BLOCK] > 0
    modifies sink, sink.outbuf
    ensures sink.Valid() && sink.sent == old(sink.sent) + Codeword(llens, END_BLOCK)
  {
    hide Table, BitSink.Valid, Codeword;
    SendCode(sink, lfc, ldl, END_BLOCK, llens);
  }

  lemma NothingYet(tb: CodeTables, llens: seq<nat>, dlens: seq<nat>, toks: seq<Token>, sent: seq<bool>)
    requires tb.Ok()
    ensures Matches(toks[..0]) == 0 && AllCoded(tb, llens, dlens, toks[..0])
    ensures sent == sent + TokensBits(tb, llens, dlens, toks[..0])
  {
  }
}
