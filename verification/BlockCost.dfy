/** Bit accounting: opt_len and static_len are the sizes of what is sent. */
module BlockCost {
  import opened Bits
  import opened Inflate
  import opened Sums
  import opened BitLengths
  import opened CodeLengths
  import opened Tables
  import opened Tokens
  import opened Tally

  /** Frequencies times widths. */
  function Dot(freq: seq<nat>, w: seq<nat>): (c: nat)
    requires |w| <= |freq|
    decreases |w|
  {
    if w == [] then 0
    else
      var n := |w| - 1;
      Dot(freq, w[..n]) + Bill(freq[n], w[n])
  }

  /** Code length plus extra bits, for the symbols that have a code. */
  function Widths(lens: seq<nat>, extra: seq<nat>): (w: seq<nat>)
    requires |lens| <= |extra|
    ensures |w| == |lens| && forall n :: 0 <= n < |w| ==> w[n] == if lens[n] == 0 then 0 else lens[n] + extra[n]
  {
    seq(|lens|, n requires 0 <= n < |lens| => if lens[n] == 0 then 0 else lens[n] + extra[n])
  }

  function ImposedWidths(used: seq<nat>, imposed: seq<nat>): (w: seq<nat>)
    requires |used| <= |imposed|
    ensures |w| == |used| && forall n :: 0 <= n < |w| ==> w[n] == if used[n] == 0 then 0 else imposed[n]
  {
    seq(|used|, n requires 0 <= n < |used| => if used[n] == 0 then 0 else imposed[n])
  }

  /** Unused symbols at the end, whatever else they carry, cost nothing. */
  lemma {:induction false} CostIsDot(freq: seq<nat>, lens: seq<nat>, extra: seq<nat>, n: nat)
    requires n <= |lens| <= |freq| && |lens| <= |extra| && forall i :: n <= i < |lens| ==> lens[i] == 0
    ensures Cost(freq, lens, extra) == Dot(freq, Widths(lens[..n], extra))
    decreases |lens|
  {
    hide Bill;
    if lens != [] {
      var m := |lens| - 1;
      if n <= m {
        assert lens[..m][..n] == lens[..n];
        CostIsDot(freq, lens[..m], extra, n);
      } else {
        assert lens[..n] == lens && lens[..m][..m] == lens[..m];
        CostIsDot(freq, lens[..m], extra, m);
        assert Widths(lens, extra)[..m] == Widths(lens[..m], extra);
        BillMore(freq[m], 0);
      }
    }
  }

  lemma {:induction false} StaticIsDot(freq: seq<nat>, used: seq<nat>, imposed: seq<nat>, n: nat)
    requires n <= |used| <= |freq| && |used| <= |imposed| && forall i :: n <= i < |used| ==> used[i] == 0
    ensures StaticCost(freq, used, imposed) == Dot(freq, ImposedWidths(used[..n], imposed))
    decreases |used|
  {
    hide Bill;
    if used != [] {
      var m := |used| - 1;
      if n <= m {
        assert used[..m][..n] == used[..n];
        StaticIsDot(freq, used[..m], imposed, n);
      } else {
        assert used[..n] == used && used[..m][..m] == used[..m];
        StaticIsDot(freq, used[..m], imposed, m);
        assert ImposedWidths(used, imposed)[..m] == ImposedWidths(used[..m], imposed);
        BillMore(freq[m], 0);
      }
    }
  }

  lemma {:induction false} DotBump(freq: seq<nat>, w: seq<nat>, s: nat)
    requires |w| <= |freq| && s < |freq|
    ensures Dot(Bump(freq, s), w) == Dot(freq, w) + (if s < |w| then w[s] else 0)
    decreases |w|
  {
    if w != [] {
      var n := |w| - 1;
      DotBump(freq, w[..n], s);
      if s == n {
        BillMore(freq[n], w[n]);
      }
    }
  }

  lemma BillMore(f: nat, x: nat)
    ensures Bill(f + 1, x) == Bill(f, x) + x && Bill(0, x) == 0 && Bill(f, 0) == 0
  {
  }

  lemma {:induction false} DotZeros(k: nat, w: seq<nat>)
    requires |w| <= k
    ensures Dot(Zeros(k), w) == 0
    decreases |w|
  {
    if w != [] {
      DotZeros(k, w[..|w| - 1]);
      BillMore(0, w[|w| - 1]);
    }
  }

  lemma {:induction false} DotSame(f: seq<nat>, g: seq<nat>, w: seq<nat>)
    requires |w| <= |f| && |w| <= |g| && forall i :: 0 <= i < |w| ==> f[i] == g[i]
    ensures Dot(f, w) == Dot(g, w)
    decreases |w|
  {
    if w != [] {
      DotSame(f, g, w[..|w| - 1]);
    }
  }

  // ---- the tokens ----

  function LengthExtra(s: nat): (x: nat)
    requires s < L_CODES
  {
    if s >= 257 then LENGTH_EXTRA[s - 257] else 0
  }

  /** wl and wd give the widths of the symbols in use, under the given codes. */
  predicate WidthsFit(tb: CodeTables, llens: seq<nat>, dlens: seq<nat>, wl: seq<nat>, wd: seq<nat>, t: Token)
    requires tb.Ok() && Coded(tb, llens, dlens, t)
  {
    && LSym(tb, t) < |wl| && LSym(tb, t) < L_CODES && wl[LSym(tb, t)] == llens[LSym(tb, t)] + LengthExtra(LSym(tb, t))
    && (t.Match? ==> DSym(tb, t) < |wd| && DSym(tb, t) < D_CODES && wd[DSym(tb, t)] == dlens[DSym(tb, t)] + DIST_EXTRA[DSym(tb, t)])
  }

  lemma LiteralSize(tb: CodeTables, llens: seq<nat>, dlens: seq<nat>, wl: seq<nat>, wd: seq<nat>, t: Token)
    requires tb.Ok() && Coded(tb, llens, dlens, t) && WidthsFit(tb, llens, dlens, wl, wd, t) && t.Literal?
    ensures |TokenBits(tb, llens, dlens, t)| == wl[LSym(tb, t)]
  {
    hide CodeTables.Ok;
    CodewordSize(llens, t.byte);
  }

  lemma MatchSize(tb: CodeTables, llens: seq<nat>, dlens: seq<nat>, wl: seq<nat>, wd: seq<nat>, t: Token)
    requires tb.Ok() && Coded(tb, llens, dlens, t) && WidthsFit(tb, llens, dlens, wl, wd, t) && t.Match?
    ensures |TokenBits(tb, llens, dlens, t)| == wl[LSym(tb, t)] + wd[DSym(tb, t)]
  {
    hide CodeTables.Ok, LSym, DSym;
    var _ := LengthOffset(tb, t);
    assert |LengthBits(tb, llens, t)| == wl[LSym(tb, t)];
    assert |DistBits(tb, dlens, t)| == wd[DSym(tb, t)];
  }

  ghost predicate AllFit(tb: CodeTables, llens: seq<nat>, dlens: seq<nat>, wl: seq<nat>, wd: seq<nat>, toks: seq<Token>)
    requires tb.Ok() && AllCoded(tb, llens, dlens, toks)
  {
    forall i :: 0 <= i < |toks| ==> WidthsFit(tb, llens, dlens, wl, wd, toks[i])
  }

  /** The tokens take frequency times width bits; end-of-block is counted once and not among them. */
  lemma {:induction false} TokensSize(tb: CodeTables, llens: seq<nat>, dlens: seq<nat>, wl: seq<nat>, wd: seq<nat>, toks: seq<Token>)
    requires tb.Ok() && AllCoded(tb, llens, dlens, toks) && AllFit(tb, llens, dlens, wl, wd, toks) && AllValid(toks)
    requires END_BLOCK < |wl| <= L_CODES && |wd| <= D_CODES
    ensures |TokensBits(tb, llens, dlens, toks)| + wl[END_BLOCK] == Dot(LFreq(tb, toks), wl) + Dot(DFreq(tb, toks), wd)
    decreases |toks|
  {
    hide CodeTables.Ok, Dot, LSym, DSym, TokenBits, Coded;
    if toks == [] {
      DotZeros(L_CODES, wl);
      DotZeros(D_CODES, wd);
      DotBump(Zeros(L_CODES), wl, END_BLOCK);
      assert Bump(Zeros(L_CODES), END_BLOCK) == Zeros(L_CODES)[END_BLOCK := 1];
    } else {
      var front, z := toks[..|toks| - 1], toks[|toks| - 1];
      SymbolsBelow(tb, z);
      TokensSplit(tb, llens, dlens, toks);
      FitSplit(tb, llens, dlens, wl, wd, toks);
      hide AllCoded, AllFit, WidthsFit;
      TokensSize(tb, llens, dlens, wl, wd, front);
      DotBump(LFreq(tb, front), wl, LSym(tb, z));
      if z.Match? {
        MatchSize(tb, llens, dlens, wl, wd, z);
        DotBump(DFreq(tb, front), wd, DSym(tb, z));
      } else {
        LiteralSize(tb, llens, dlens, wl, wd, z);
      }
    }
  }

  lemma FitSplit(tb: CodeTables, llens: seq<nat>, dlens: seq<nat>, wl: seq<nat>, wd: seq<nat>, toks: seq<Token>)
    requires tb.Ok() && AllCoded(tb, llens, dlens, toks) && AllFit(tb, llens, dlens, wl, wd, toks) && toks != []
    requires AllCoded(tb, llens, dlens, toks[..|toks| - 1])
    ensures var front, z := toks[..|toks| - 1], toks[|toks| - 1];
            && AllFit(tb, llens, dlens, wl, wd, front) && Coded(tb, llens, dlens, z) && WidthsFit(tb, llens, dlens, wl, wd, z)
            && LSym(tb, z) < |wl| && (z.Match? ==> DSym(tb, z) < |wd|)
  {
    hide CodeTables.Ok, Coded, LSym, DSym;
    var front := toks[..|toks| - 1];
    forall i | 0 <= i < |front| ensures WidthsFit(tb, llens, dlens, wl, wd, front[i]) {
      assert front[i] == toks[i];
    }
  }

  /** With the fixed codes a token takes at most 31 bits. */
  lemma {:induction false} FixedSizeBound(tb: CodeTables, toks: seq<Token>)
    requires tb.Ok() && AllCoded(tb, FixedLitLens(), FixedDistLens(), toks)
    ensures |TokensBits(tb, FixedLitLens(), FixedDistLens(), toks)| <= 31 * |toks|
    decreases |toks|
  {
    hide CodeTables.Ok, TokenBits, Coded, AllCoded, FixedLitLens, FixedDistLens;
    if toks != [] {
      TokensSplit(tb, FixedLitLens(), FixedDistLens(), toks);
      FixedSizeBound(tb, toks[..|toks| - 1]);
      FixedTokenBound(tb, toks[|toks| - 1]);
    }
  }

  lemma FixedTokenBound(tb: CodeTables, t: Token)
    requires tb.Ok() && Coded(tb, FixedLitLens(), FixedDistLens(), t)
    ensures |TokenBits(tb, FixedLitLens(), FixedDistLens(), t)| <= 31
  {
    hide CodeTables.Ok, LSym, DSym, ExtendedBits, FixedLitLens, FixedDistLens;
    match t
    case Literal(b) =>
      CodewordSize(FixedLitLens(), b);
      FixedWidths(b, 0);
    case Match(_, _) =>
      SymbolsBelow(tb, t);
      var _ := LengthOffset(tb, t);
      FixedWidths(LSym(tb, t), DSym(tb, t));
  }

  lemma FixedWidths(s: nat, d: nat)
    requires s < L_CODES && d < D_CODES
    ensures |FixedLitLens()| == 288 && |FixedDistLens()| == 32 && FixedLitLens()[s] <= 9 && FixedDistLens()[d] == 5
    ensures s >= 257 ==> FixedLitLens()[s] <= 8 && LENGTH_EXTRA[s - 257] <= 5
    ensures DIST_EXTRA[d] <= 13
  {
  }

  // ---- the code lengths ----

  function BFreq(syms: seq<ClSym>): (f: seq<nat>)
    requires AllWellFormed(syms)
    ensures |f| == BL_CODES
  {
    if syms == [] then Zeros(BL_CODES) else Bump(BFreq(syms[..|syms| - 1]), syms[|syms| - 1].sym)
  }

  lemma {:induction false} BFreqCounts(syms: seq<ClSym>, s: nat)
    requires AllWellFormed(syms) && s < BL_CODES
    ensures BFreq(syms)[s] == CountSym(syms, s)
  {
    if syms != [] {
      BFreqCounts(syms[..|syms| - 1], s);
    }
  }

  /** Extra bits of the bit-length alphabet. */
  function SymExtras(): (x: seq<nat>)
    ensures |x| == BL_CODES && forall s :: 0 <= s < |x| ==> x[s] == ExtraWidth(s)
  {
    seq(BL_CODES, s requires 0 <= s < BL_CODES => ExtraWidth(s))
  }

  lemma OneSize(cl: seq<nat>, c: ClSym)
    requires CoveredOne(cl, c)
    ensures |OneBits(cl, c)| == cl[c.sym] + ExtraWidth(c.sym)
  {
    CodewordSize(cl, c.sym);
  }

  /** The bit-length symbols take frequency times width bits. */
  lemma {:induction false} SymsSize(cl: seq<nat>, syms: seq<ClSym>)
    requires |cl| <= BL_CODES && Covered(cl, syms) && AllWellFormed(syms)
    ensures |SymBits(cl, syms)| == Dot(BFreq(syms), Widths(cl, SymExtras()))
    decreases |syms|
  {
    hide OneBits, Dot;
    var w := Widths(cl, SymExtras());
    if syms == [] {
      DotZeros(BL_CODES, w);
    } else {
      var front, z := syms[..|syms| - 1], syms[|syms| - 1];
      assert CoveredOne(cl, z);
      SymsSize(cl, front);
      DotBump(BFreq(front), w, z.sym);
      OneSize(cl, z);
    }
  }
}
