/** The trees built for a block, and the exact sizes of its dynamic and its static form. */
module BlockSize {
  import opened Bits
  import opened Inflate
  import opened Sums
  import opened Codes
  import opened BitLengths
  import opened CodeLengths
  import opened Tables
  import opened Tokens
  import opened Tally
  import opened BlockCost
  import opened BlockTrees
  import opened BlockHeader

  /** Every token's symbols have a code in the trees built from the frequencies. */
  lemma TokensCoded(tb: CodeTables, toks: seq<Token>, l: seq<nat>, d: seq<nat>)
    requires tb.Ok() && AllValid(toks) && Covers(LFreq(tb, toks), l) && Covers(DFreq(tb, toks), d)
    ensures AllCoded(tb, l, d, toks) && |l| > END_BLOCK && l[END_BLOCK] > 0
  {
    hide LFreq, DFreq, LSym, DSym, CodeTables.Ok;
    EndIsCounted(tb, toks);
    forall i | 0 <= i < |toks| ensures Coded(tb, l, d, toks[i]) {
      UsedIsCounted(tb, toks, i);
    }
  }

  predicate Covers(freq: seq<nat>, lens: seq<nat>)
  {
    forall n :: 0 <= n < |freq| && freq[n] > 0 ==> n < |lens| && lens[n] > 0
  }

  lemma FixedCodesAll(tb: CodeTables, toks: seq<Token>)
    requires tb.Ok() && AllValid(toks)
    ensures AllCoded(tb, FixedLitLens(), FixedDistLens(), toks)
    ensures |FixedLitLens()| == 288 && FixedLitLens()[END_BLOCK] == 7
  {
    hide LSym, DSym, CodeTables.Ok;
    forall i | 0 <= i < |toks| ensures Coded(tb, FixedLitLens(), FixedDistLens(), toks[i]) {
      SymbolsBelow(tb, toks[i]);
    }
  }

  lemma DescExtras()
    ensures LDesc().Valid() && DDesc().Valid()
    ensures |Extras(LDesc())| == |Imposed(LDesc())| == L_CODES && |Extras(DDesc())| == |Imposed(DDesc())| == D_CODES
    ensures forall s :: 0 <= s < L_CODES ==>
              Extras(LDesc())[s] == LengthExtra(s) && Imposed(LDesc())[s] == FixedLitLens()[s] + LengthExtra(s)
    ensures forall s :: 0 <= s < D_CODES ==>
              Extras(DDesc())[s] == DIST_EXTRA[s] && Imposed(DDesc())[s] == FixedDistLens()[s] + DIST_EXTRA[s]
  {
    DescsValid();
    hide FixedLitLens, FixedDistLens;
  }

  /** The dynamic codes' widths fit every token. */
  lemma DynamicFit(tb: CodeTables, toks: seq<Token>, l: seq<nat>, d: seq<nat>, xl: seq<nat>, xd: seq<nat>)
    requires tb.Ok() && AllValid(toks) && AllCoded(tb, l, d, toks) && |l| <= L_CODES == |xl| && |d| <= D_CODES == |xd|
    requires forall s :: 0 <= s < L_CODES ==> xl[s] == LengthExtra(s)
    requires forall s :: 0 <= s < D_CODES ==> xd[s] == DIST_EXTRA[s]
    ensures AllFit(tb, l, d, Widths(l, xl), Widths(d, xd), toks)
  {
    hide LSym, DSym, CodeTables.Ok, LengthExtra;
    forall i | 0 <= i < |toks| ensures WidthsFit(tb, l, d, Widths(l, xl), Widths(d, xd), toks[i]) {
      assert Coded(tb, l, d, toks[i]);
      SymbolsBelow(tb, toks[i]);
    }
  }

  /** The imposed widths of used symbols are those of the fixed codes. */
  lemma StaticFit(tb: CodeTables, toks: seq<Token>, l: seq<nat>, d: seq<nat>, fl: seq<nat>, fd: seq<nat>, il: seq<nat>, id: seq<nat>)
    requires tb.Ok() && AllValid(toks) && AllCoded(tb, l, d, toks) && AllCoded(tb, fl, fd, toks)
    requires |l| <= L_CODES == |il| <= |fl| && |d| <= D_CODES == |id| <= |fd|
    requires forall s :: 0 <= s < L_CODES ==> il[s] == fl[s] + LengthExtra(s)
    requires forall s :: 0 <= s < D_CODES ==> id[s] == fd[s] + DIST_EXTRA[s]
    ensures AllFit(tb, fl, fd, ImposedWidths(l, il), ImposedWidths(d, id), toks)
  {
    hide LSym, DSym, CodeTables.Ok, LengthExtra;
    forall i | 0 <= i < |toks| ensures WidthsFit(tb, fl, fd, ImposedWidths(l, il), ImposedWidths(d, id), toks[i]) {
      assert Coded(tb, l, d, toks[i]) && Coded(tb, fl, fd, toks[i]);
      SymbolsBelow(tb, toks[i]);
    }
  }

  lemma DataSize(tb: CodeTables, l: seq<nat>, d: seq<nat>, toks: seq<Token>)
    requires tb.Ok() && AllCoded(tb, l, d, toks) && |l| > END_BLOCK
    ensures |DataBits(tb, l, d, toks)| == |TokensBits(tb, l, d, toks)| + l[END_BLOCK]
  {
    hide CodeTables.Ok, TokensBits, AllCoded;
    CodewordSize(l, END_BLOCK);
  }

  /** opt_len counts the bits of the data under the dynamic codes. */
  lemma DynamicSize(tb: CodeTables, toks: seq<Token>, l: seq<nat>, d: seq<nat>)
    requires tb.Ok() && AllValid(toks) && AllCoded(tb, l, d, toks) && END_BLOCK < |l| <= L_CODES && |d| <= D_CODES && l[END_BLOCK] > 0
    ensures LDesc().Valid() && DDesc().Valid()
    ensures |DataBits(tb, l, d, toks)|
         == Dot(LFreq(tb, toks), Widths(l, Extras(LDesc()))) + Dot(DFreq(tb, toks), Widths(d, Extras(DDesc())))
  {
    hide CodeTables.Ok, TokensBits, AllCoded, LFreq, DFreq, Dot, Extras, Imposed, LDesc, DDesc, DataBits, AllFit, AllValid;
    DescExtras();
    DynamicFit(tb, toks, l, d, Extras(LDesc()), Extras(DDesc()));
    TokensSize(tb, l, d, Widths(l, Extras(LDesc())), Widths(d, Extras(DDesc())), toks);
    DataSize(tb, l, d, toks);
  }

  /** static_len counts the bits of the data under the fixed codes. */
  lemma StaticSize(tb: CodeTables, toks: seq<Token>, l: seq<nat>, d: seq<nat>)
    requires tb.Ok() && AllValid(toks) && AllCoded(tb, l, d, toks) && END_BLOCK < |l| <= L_CODES && |d| <= D_CODES && l[END_BLOCK] > 0
    ensures LDesc().Valid() && DDesc().Valid() && AllCoded(tb, FixedLitLens(), FixedDistLens(), toks) && |FixedLitLens()| == 288
    ensures |DataBits(tb, FixedLitLens(), FixedDistLens(), toks)|
         == Dot(LFreq(tb, toks), ImposedWidths(l, Imposed(LDesc()))) + Dot(DFreq(tb, toks), ImposedWidths(d, Imposed(DDesc())))
  {
    hide CodeTables.Ok, TokensBits, AllCoded, LFreq, DFreq, Dot, Extras, Imposed, LDesc, DDesc, DataBits, AllFit, AllValid,
         FixedLitLens, FixedDistLens;
    FixedCodesAll(tb, toks);
    DescExtras();
    FixedWidths(0, 0);
    StaticFit(tb, toks, l, d, FixedLitLens(), FixedDistLens(), Imposed(LDesc()), Imposed(DDesc()));
    TokensSize(tb, FixedLitLens(), FixedDistLens(), ImposedWidths(l, Imposed(LDesc())), ImposedWidths(d, Imposed(DDesc())), toks);
    DataSize(tb, FixedLitLens(), FixedDistLens(), toks);
  }
}
