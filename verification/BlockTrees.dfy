/** The trees of a block: the literal, distance and bit-length codes, and build_bl_tree. */
module BlockTrees {
  import opened Bits
  import opened Inflate
  import opened Sums
  import opened Codes
  import opened BitLengths
  import opened BuildTree
  import opened HuffmanCode
  import opened CodeLengths
  import opened Reading
  import opened Tables
  import opened Tally
  import opened BlockCost

  const BL_EXTRA: seq<nat> := [0, 0, 0, 0, 0, 0, 0, 0, 0, 0, 0, 0, 0, 0, 0, 0, 2, 3, 7]

  function LDesc(): (d: Desc)
  {
    Desc(FixedLitLens(), EXTRA_LBITS, 256 + 1, L_CODES, MAX_BITS)
  }

  function DDesc(): (d: Desc)
  {
    Desc(FixedDistLens(), EXTRA_DBITS, 0, D_CODES, MAX_BITS)
  }

  const MAX_BL_BITS := 7

  function BDesc(): (d: Desc)
  {
    Desc([], BL_EXTRA, 0, BL_CODES, MAX_BL_BITS)
  }

  lemma DescsValid()
    ensures LDesc().Valid() && DDesc().Valid() && BDesc().Valid()
    ensures LDesc().elems == L_CODES && DDesc().elems == D_CODES && BDesc().elems == BL_CODES
  {
    assert Pow2(5) == 32 && Pow2(7) == 128 && Pow2(10) == 1024;
    Pow2Monotone(10, 15);
  }

  /** A complete code for all the symbols in use, and what it costs to use it. `lens` ends
      with the last symbol that has a code. */
  ghost predicate Built(freq: seq<nat>, lens: seq<nat>, codes: seq<nat>, opt: int, stat: int, desc: Desc)
  {
    && desc.Valid() && 1 <= |lens| <= desc.elems <= |freq|
    && Complete(lens) && CodesSet(codes, lens)
    && (forall n :: 0 <= n < desc.elems && freq[n] > 0 ==> n < |lens| && lens[n] > 0)
    && (forall n :: 0 <= n < |lens| ==> lens[n] <= desc.maxLength)
    && opt == Dot(freq, Widths(lens, Extras(desc)))
    && stat == Dot(freq, ImposedWidths(lens, Imposed(desc)))
  }

  lemma BuiltFrom(freq0: seq<nat>, freq: seq<nat>, full: seq<nat>, codes: seq<nat>, maxCode: nat, opt: int, stat: int, desc: Desc)
    requires desc.Valid() && |full| == desc.elems && CodeBuilt(freq, full, codes, maxCode, desc.maxLength)
    requires desc.elems <= |freq0| && (forall n :: 0 <= n < desc.elems && freq0[n] > 0 ==> freq[n] > 0 && n <= maxCode)
    requires opt == Cost(freq0, full, Extras(desc)) && stat == StaticCost(freq0, full, Imposed(desc))
    ensures Built(freq0, full[..maxCode + 1], codes, opt, stat, desc)
    ensures forall n :: maxCode < n < desc.elems ==> full[n] == 0
  {
    hide Complete, CodesSet, Extras, Imposed, Cost, StaticCost, Dot, Widths, ImposedWidths;
    CostIsDot(freq0, full, Extras(desc), maxCode + 1);
    StaticIsDot(freq0, full, Imposed(desc), maxCode + 1);
  }

  /** build_tree, seen from a block. */
  method BuildOne(fc: array<nat>, dl: array<nat>, heap: array<nat>, depth: array<nat>, blCount: array<nat>, desc: Desc)
      returns (maxCode: nat, opt: int, stat: int)
    requires desc.Valid() && heap.Length == HEAP_SIZE && blCount.Length == MAX_BITS + 1
    requires fc.Length == dl.Length == 2 * desc.elems + 1 <= depth.Length
    requires fc != dl && fc != heap && fc != depth && dl != heap && dl != depth && heap != depth
    requires blCount != fc && blCount != dl && blCount != heap && blCount != depth
    modifies fc, dl, heap, depth, blCount
    ensures maxCode < desc.elems && Built(old(fc[..]), dl[..maxCode + 1], fc[..], opt, stat, desc)
    ensures forall n :: maxCode < n < desc.elems ==> dl[n] == 0
  {
    hide CodeBuilt, Cost, StaticCost, Extras, Imposed, Optimal, ForcedFrom, Built;
    ghost var freq0: seq<nat> := fc[..];
    var overflow;
    ghost var freq;
    maxCode, opt, stat, overflow, freq := Build(fc, dl, heap, depth, blCount, desc);
    ghost var full: seq<nat> := dl[..desc.elems];
    BuiltMax(freq, full, fc[..], maxCode, desc.maxLength);
    BuiltFrom(freq0, freq, full, fc[..], maxCode, opt, stat, desc);
    assert full[..maxCode + 1] == dl[..maxCode + 1];
    assert forall n :: maxCode < n < desc.elems ==> dl[n] == full[n];
  }

  lemma BuiltMax(freq: seq<nat>, lens: seq<nat>, codes: seq<nat>, maxCode: nat, maxLength: nat)
    requires CodeBuilt(freq, lens, codes, maxCode, maxLength)
    ensures maxCode < |lens|
  {
  }

  lemma BuiltSmall(freq: seq<nat>, lens: seq<nat>, codes: seq<nat>, opt: int, stat: int, desc: Desc)
    requires Built(freq, lens, codes, opt, stat, desc)
    ensures forall n :: 0 <= n < |lens| ==> lens[n] < 16
  {
  }

  // ---- the bit-length code ----

  lemma {:induction false} FirstCodeSame(a: seq<nat>, b: seq<nat>, len: nat)
    requires forall l :: 1 <= l ==> CountLen(a, l) == CountLen(b, l)
    ensures FirstCode(a, len) == FirstCode(b, len)
    decreases len
  {
    if len > 0 {
      FirstCodeSame(a, b, len - 1);
    }
  }

  /** Symbols without a code at the end of the alphabet change no codeword. */
  lemma CodewordTrim(lens: seq<nat>, n: nat, s: nat)
    requires s < n <= |lens| && forall i :: n <= i < |lens| ==> lens[i] == 0
    ensures Codeword(lens[..n], s) == Codeword(lens, s)
  {
    hide CountLen, FirstCode, MsbBits;
    TrimUnused(lens, n);
    FirstCodeSame(lens[..n], lens, lens[s]);
    assert lens[..n][..s] == lens[..s];
  }

  lemma Untrim(codes: seq<nat>, lens: seq<nat>, n: nat)
    requires n <= |lens| <= |codes| && (forall i :: n <= i < |lens| ==> lens[i] == 0)
    requires Complete(lens[..n]) && CodesSet(codes, lens[..n])
    ensures Complete(lens) && CodesSet(codes, lens)
  {
    TrimUnused(lens, n);
    forall i | 0 <= i < |lens| ensures lens[i] <= MAX_BITS {
      if i < n {
        assert lens[..n][i] == lens[i];
      }
    }
    hide Codeword, ToBits, Pow2, Complete;
    forall i | 0 <= i < |lens| && lens[i] > 0
      ensures codes[i] < Pow2(lens[i]) && ToBits(codes[i], lens[i]) == Codeword(lens, i)
    {
      assert lens[..n][i] == lens[i];
      CodewordTrim(lens, n, i);
    }
  }

  lemma SymExtrasOf()
    ensures BDesc().Valid() && Extras(BDesc()) == SymExtras()
  {
    DescsValid();
  }

  /** What the two scans leave in bl_tree[].Freq. */
  lemma ScannedFreq(f0: seq<nat>, f1: seq<nat>, f2: seq<nat>, l: seq<ClSym>, d: seq<ClSym>)
    requires Raised(f0, f1, l) && Raised(f1, f2, d) && |f0| >= BL_CODES && f0[..BL_CODES] == Zeros(BL_CODES)
    requires AllWellFormed(l) && AllWellFormed(d)
    ensures AllWellFormed(l + d) && |f2| == |f0| && f2[..BL_CODES] == BFreq(l + d)
  {
    RaisedAppend(f0, f1, f2, l, d);
    hide CountSym;
    forall s | 0 <= s < BL_CODES ensures f2[s] == BFreq(l + d)[s] {
      assert f0[..BL_CODES][s] == 0;
      BFreqCounts(l + d, s);
    }
  }

  lemma ScannedCovered(freq: seq<nat>, lens: seq<nat>, syms: seq<ClSym>)
    requires AllWellFormed(syms) && |freq| >= BL_CODES && freq[..BL_CODES] == BFreq(syms) && |lens| == BL_CODES
    requires forall n :: 0 <= n < BL_CODES && freq[n] > 0 ==> lens[n] > 0
    ensures Covered(lens, syms)
  {
    hide BFreq, CountSym;
    forall i | 0 <= i < |syms| ensures CoveredOne(lens, syms[i]) {
      var s := syms[i].sym;
      assert WellFormed(syms[i]);
      CountedIsPresent(syms, i);
      BFreqCounts(syms, s);
      assert freq[..BL_CODES][s] == freq[s];
    }
  }

  /** The number of bits the bit-length symbols take is what build_tree adds to opt_len. */
  lemma ScannedSize(freq: seq<nat>, lens: seq<nat>, n: nat, syms: seq<ClSym>)
    requires AllWellFormed(syms) && |freq| >= BL_CODES && freq[..BL_CODES] == BFreq(syms) && |lens| == BL_CODES
    requires n <= BL_CODES && (forall i :: n <= i < BL_CODES ==> lens[i] == 0) && Covered(lens, syms)
    ensures |SymBits(lens, syms)| == Dot(freq, Widths(lens[..n], SymExtras()))
  {
    SymsSize(lens, syms);
    hide BFreq, SymBits, SymExtras;
    CostIsDot(freq, lens, SymExtras(), n);
    CostIsDot(freq, lens, SymExtras(), BL_CODES);
    assert lens[..BL_CODES] == lens;
    hide Cost;
    forall i | 0 <= i < BL_CODES ensures freq[i] == BFreq(syms)[i] {
      assert freq[..BL_CODES][i] == freq[i];
    }
    DotSame(freq, BFreq(syms), Widths(lens, SymExtras()));
  }

  lemma NoImposed(freq: seq<nat>, lens: seq<nat>)
    requires |lens| <= BL_CODES <= |freq|
    ensures BDesc().Valid() && Dot(freq, ImposedWidths(lens, Imposed(BDesc()))) == 0
  {
    DescsValid();
    var w := ImposedWidths(lens, Imposed(BDesc()));
    assert forall i :: 0 <= i < |w| ==> w[i] == 0;
    DotFree(freq, w);
  }

  lemma {:induction false} DotFree(freq: seq<nat>, w: seq<nat>)
    requires |w| <= |freq| && forall i :: 0 <= i < |w| ==> w[i] == 0
    ensures Dot(freq, w) == 0
    decreases |w|
  {
    if w != [] {
      DotFree(freq, w[..|w| - 1]);
      BillMore(freq[|w| - 1], 0);
    }
  }

  /** The lengths past index maxBl in the order of sending are zero. */
  predicate UnsentZero(lens: seq<nat>, maxBl: nat)
  {
    |lens| == BL_CODES && forall k :: maxBl < k < BL_CODES ==> lens[CODE_LENGTH_ORDER[k]] == 0
  }

  /** The bit-length code as a whole: complete, every symbol to be sent has a code, and
      the lengths past index maxBl in the order of sending are zero. */
  ghost predicate BlCode(lens: seq<nat>, codes: seq<nat>, l: seq<nat>, d: seq<nat>, maxBl: nat)
  {
    && |lens| == BL_CODES && Complete(lens) && CodesSet(codes, lens)
    && (forall n :: 0 <= n < BL_CODES ==> lens[n] <= MAX_BL_BITS)
    && Covered(lens, Rle(l) + Rle(d))
    && 3 <= maxBl < BL_CODES && UnsentZero(lens, maxBl)
  }

  /** Some symbol has a code. */
  predicate Used(lens: seq<nat>)
  {
    exists j :: 0 <= j < |lens| && lens[j] > 0
  }

  predicate Small(lens: seq<nat>)
  {
    forall i :: 0 <= i < |lens| ==> lens[i] < 16
  }

  /** `full` holds the lengths built for f2, with unused symbols from n on. */
  ghost predicate BlBuilt(f2: seq<nat>, full: seq<nat>, n: nat, codes: seq<nat>, opt: int, stat: int)
  {
    && |full| == BL_CODES <= |codes| && n <= BL_CODES && (forall i :: n <= i < BL_CODES ==> full[i] == 0)
    && Built(f2, full[..n], codes, opt, stat, BDesc())
  }

  lemma BlLengths(f2: seq<nat>, full: seq<nat>, n: nat, codes: seq<nat>, opt: int, stat: int)
    requires BlBuilt(f2, full, n, codes, opt, stat)
    ensures |f2| >= BL_CODES && Complete(full) && CodesSet(codes, full)
    ensures forall i :: 0 <= i < BL_CODES ==> full[i] <= MAX_BL_BITS && (f2[i] > 0 ==> full[i] > 0)
  {
    hide Complete, CodesSet, Dot, Desc.Valid, Extras, Imposed;
    forall i | 0 <= i < BL_CODES ensures full[i] <= MAX_BL_BITS && (f2[i] > 0 ==> full[i] > 0) {
      if i < n {
        assert full[..n][i] == full[i];
      }
    }
    Untrim(codes, full, n);
  }

  lemma BlCosts(f2: seq<nat>, full: seq<nat>, n: nat, codes: seq<nat>, opt: int, stat: int, syms: seq<ClSym>)
    requires BlBuilt(f2, full, n, codes, opt, stat) && AllWellFormed(syms) && |f2| >= BL_CODES
    requires f2[..BL_CODES] == BFreq(syms) && Covered(full, syms)
    ensures opt == |SymBits(full, syms)| && stat == 0
  {
    hide Complete, CodesSet, Dot, Covered, BFreq, SymBits, SymExtras, Widths, ImposedWidths, AllWellFormed;
    ScannedSize(f2, full, n, syms);
    SymExtrasOf();
    NoImposed(f2, full[..n]);
  }

  lemma RleWellFormed(l: seq<nat>)
    requires Small(l)
    ensures AllWellFormed(Rle(l))
  {
    RleRoundTrip(l, []);
  }

  lemma BlCodeBuilt(f0: seq<nat>, f1: seq<nat>, f2: seq<nat>, l: seq<nat>, d: seq<nat>,
                    full: seq<nat>, n: nat, codes: seq<nat>, opt: int, stat: int, maxBl: nat)
    requires Small(l) && Small(d) && Used(l)
    requires Raised(f0, f1, Rle(l)) && Raised(f1, f2, Rle(d)) && |f0| >= BL_CODES && f0[..BL_CODES] == Zeros(BL_CODES)
    requires BlBuilt(f2, full, n, codes, opt, stat)
    requires 2 <= maxBl < BL_CODES && UnsentZero(full, maxBl)
    ensures BlCode(full, codes, l, d, maxBl)
    ensures opt == |SymBits(full, Rle(l) + Rle(d))| && stat == 0
  {
    hide Raised, BFreq, Complete, CodesSet, SymBits, Rle, Covered, Built, Expand, Grounded, AllWellFormed, UnsentZero, Small;
    RleWellFormed(l);
    RleWellFormed(d);
    ScannedFreq(f0, f1, f2, Rle(l), Rle(d));
    BlLengths(f2, full, n, codes, opt, stat);
    ScannedCovered(f2, full, Rle(l) + Rle(d));
    BlCosts(f2, full, n, codes, opt, stat, Rle(l) + Rle(d));
    EnoughBlCodes(full, l, d, maxBl);
  }

  // ---- blcodes is at least 4 ----

  predicate AllZero(s: seq<nat>)
  {
    forall i :: 0 <= i < |s| ==> s[i] == 0
  }

  /** Repeat codes and zeros alone can only describe zeros. */
  lemma {:induction false} OnlyRepeats(acc: seq<nat>, syms: seq<ClSym>)
    requires AllZero(acc) && forall i :: 0 <= i < |syms| ==> syms[i].sym == 0 || syms[i].sym >= REP_3_6
    ensures AllZero(Expand(acc, syms))
    decreases |syms|
  {
    if syms != [] {
      OnlyRepeats(ExpandOne(acc, syms[0]), syms[1..]);
    }
  }

  lemma OrderFinds(s: nat) returns (k: nat)
    requires 1 <= s < 16
    ensures 3 <= k < BL_CODES && CODE_LENGTH_ORDER[k] == s
  {
    k := if s == 1 then 17 else if s == 2 then 15 else if s == 3 then 13 else if s == 4 then 11 else if s == 5 then 9
         else if s == 6 then 7 else if s == 7 then 5 else if s == 8 then 4 else if s == 9 then 6 else if s == 10 then 8
         else if s == 11 then 10 else if s == 12 then 12 else if s == 13 then 14 else if s == 14 then 16 else 18;
  }

  /** Some length of the literal tree is sent as itself, so at least four code lengths go out. */
  lemma EnoughBlCodes(full: seq<nat>, l: seq<nat>, d: seq<nat>, maxBl: nat)
    requires Small(l) && Used(l)
    requires |full| == BL_CODES && Covered(full, Rle(l) + Rle(d))
    requires 2 <= maxBl < BL_CODES && UnsentZero(full, maxBl)
    ensures maxBl >= 3
  {
    hide Rle, Expand, Grounded;
    var syms := Rle(l);
    RleRoundTrip(l, []);
    assert [] + l == l;
    if forall i :: 0 <= i < |syms| ==> syms[i].sym == 0 || syms[i].sym >= REP_3_6 {
      OnlyRepeats([], syms);
    }
    var i :| 0 <= i < |syms| && 1 <= syms[i].sym < REP_3_6;
    assert (syms + Rle(d))[i] == syms[i];
    assert CoveredOne(full, syms[i]);
    var k := OrderFinds(syms[i].sym);
  }

  /** The number of bit length codes to send, less one; never below 3. */
  method LastBlIndex(bdl: array<nat>) returns (maxBl: nat)
    requires bdl.Length >= BL_CODES
    ensures 2 <= maxBl < BL_CODES && UnsentZero(bdl[..BL_CODES], maxBl)
    ensures maxBl == 2 ==> bdl[0] == 0
    ensures maxBl >= 3 ==> bdl[CODE_LENGTH_ORDER[maxBl]] != 0
  {
    StandardTables();
    maxBl := BL_CODES - 1;
    while maxBl >= 3
      invariant 2 <= maxBl < BL_CODES && forall k :: maxBl < k < BL_CODES ==> bdl[CODE_LENGTH_ORDER[k]] == 0
    {
      if bdl[BL_ORDER[maxBl]] != 0 {
        break;
      }
      maxBl := maxBl - 1;
    }
    assert maxBl == 2 ==> bdl[CODE_LENGTH_ORDER[3]] == 0;
  }

  /** Arrays of the right sizes; those of equal size are distinct. */
  ghost predicate BlArrays(ldl: array<nat>, ddl: array<nat>, bfc: array<nat>, bdl: array<nat>, heap: array<nat>, depth: array<nat>, blCount: array<nat>)
  {
    && heap.Length == HEAP_SIZE && blCount.Length == MAX_BITS + 1 && depth.Length == 2 * L_CODES + 1
    && ldl.Length == 2 * L_CODES + 1 && ddl.Length == 2 * D_CODES + 1 && bfc.Length == bdl.Length == 2 * BL_CODES + 1
    && ldl != heap && ldl != depth && heap != depth && bfc != bdl
  }

  /** The two scans of build_bl_tree. */
  method ScanBoth(ldl: array<nat>, lmax: nat, ddl: array<nat>, dmax: nat, bfc: array<nat>) returns (ghost f1: seq<nat>)
    requires lmax + 1 < ldl.Length && dmax + 1 < ddl.Length && bfc.Length >= BL_CODES && ldl != ddl && ldl != bfc && ddl != bfc
    requires Small(ldl[..lmax + 1]) && Small(ddl[..dmax + 1])
    modifies ldl, ddl, bfc
    ensures ldl[..lmax + 1] == old(ldl[..lmax + 1]) && ldl[lmax + 1] == GUARD
    ensures ddl[..dmax + 1] == old(ddl[..dmax + 1]) && ddl[dmax + 1] == GUARD
    ensures Raised(old(bfc[..]), f1, Rle(ldl[..lmax + 1])) && Raised(f1, bfc[..], Rle(ddl[..dmax + 1]))
  {
    hide Raised, Rle;
    ghost var l: seq<nat>, d: seq<nat> := ldl[..lmax + 1], ddl[..dmax + 1];
    assert forall i :: 0 <= i <= lmax ==> ldl[i] == l[i];
    assert forall i :: 0 <= i <= dmax ==> ddl[i] == d[i];
    ScanTree(ldl, lmax, bfc);
    f1 := bfc[..];
    assert ldl[..lmax + 1] == l && ddl[..dmax + 1] == d;
    ScanTree(ddl, dmax, bfc);
    assert ddl[..dmax + 1] == d;
  }

  /** build_bl_tree */
  method BuildBlTree(ldl: array<nat>, lmax: nat, ddl: array<nat>, dmax: nat, bfc: array<nat>, bdl: array<nat>,
                     heap: array<nat>, depth: array<nat>, blCount: array<nat>) returns (maxBl: nat, opt: int, stat: int)
    requires BlArrays(ldl, ddl, bfc, bdl, heap, depth, blCount)
    requires lmax < L_CODES && dmax < D_CODES && Small(ldl[..lmax + 1]) && Small(ddl[..dmax + 1])
    requires Used(ldl[..lmax + 1])
    requires bfc[..BL_CODES] == Zeros(BL_CODES)
    modifies ldl, ddl, bfc, bdl, heap, depth, blCount
    ensures ldl[..lmax + 1] == old(ldl[..lmax + 1]) && ldl[lmax + 1] == GUARD
    ensures ddl[..dmax + 1] == old(ddl[..dmax + 1]) && ddl[dmax + 1] == GUARD
    ensures BlCode(bdl[..BL_CODES], bfc[..], ldl[..lmax + 1], ddl[..dmax + 1], maxBl)
    ensures opt == |SymBits(bdl[..BL_CODES], Rle(ldl[..lmax + 1]) + Rle(ddl[..dmax + 1]))| && stat == 0
  {
    hide Raised, Rle, Built, BlCode, SymBits, UnsentZero, Small, BDesc;
    ghost var f0: seq<nat> := bfc[..];
    ghost var f1 := ScanBoth(ldl, lmax, ddl, dmax, bfc);
    ghost var f2: seq<nat>, l: seq<nat>, d: seq<nat> := bfc[..], ldl[..lmax + 1], ddl[..dmax + 1];
    assert f0[..BL_CODES] == Zeros(BL_CODES);
    DescsValid();
    var bmax;
    bmax, opt, stat := BuildOne(bfc, bdl, heap, depth, blCount, BDesc());
    maxBl := LastBlIndex(bdl);
    ghost var full: seq<nat> := bdl[..BL_CODES];
    assert full[..bmax + 1] == bdl[..bmax + 1];
    BlCodeBuilt(f0, f1, f2, l, d, full, bmax + 1, bfc[..], opt, stat, maxBl);
    assert ldl[..lmax + 1] == l && ddl[..dmax + 1] == d;
  }
}
