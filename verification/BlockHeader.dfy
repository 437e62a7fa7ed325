/** send_all_trees: the header of a dynamic block, and how it is read back. */
module BlockHeader {
  import opened Bits
  import opened Inflate
  import opened Sums
  import opened Codes
  import opened BitSinks
  import opened BitLengths
  import opened CodeLengths
  import opened Reading
  import opened Tables
  import opened Tokens
  import opened BlockTrees

  /** The first n code-length code lengths, in the order of sending. */
  function ClBits(lens: seq<nat>, n: nat): (b: seq<bool>)
    requires |lens| == BL_CODES && n <= BL_CODES
    ensures |b| == 3 * n
  {
    if n == 0 then [] else ClBits(lens, n - 1) + ToBits(lens[CODE_LENGTH_ORDER[n - 1]], 3)
  }

  /** The three counts. */
  function CountBits(lcodes: nat, dcodes: nat, blcodes: nat): (b: seq<bool>)
    requires lcodes >= 257 && dcodes >= 1 && blcodes >= 4
    ensures |b| == 14
  {
    ToBits(lcodes - 257, 5) + (ToBits(dcodes - 1, 5) + ToBits(blcodes - 4, 4))
  }

  /** Counts, code-length code, and both alphabets' lengths. */
  function HeaderBits(l: seq<nat>, d: seq<nat>, cl: seq<nat>, maxBl: nat): (b: seq<bool>)
    requires |l| >= 257 && |d| >= 1 && |cl| == BL_CODES && 3 <= maxBl < BL_CODES
    requires Covered(cl, Rle(l)) && Covered(cl, Rle(d))
  {
    CountBits(|l|, |d|, maxBl + 1) + (ClBits(cl, maxBl + 1) + (SymBits(cl, Rle(l)) + SymBits(cl, Rle(d))))
  }

  /** The header's size, as build_bl_tree counts it. */
  lemma HeaderSize(l: seq<nat>, d: seq<nat>, cl: seq<nat>, maxBl: nat)
    requires |l| >= 257 && |d| >= 1 && |cl| == BL_CODES && 3 <= maxBl < BL_CODES && Covered(cl, Rle(l) + Rle(d))
    ensures Covered(cl, Rle(l)) && Covered(cl, Rle(d))
    ensures |HeaderBits(l, d, cl, maxBl)| == |SymBits(cl, Rle(l) + Rle(d))| + 3 * (maxBl + 1) + 5 + 5 + 4
  {
    hide Rle, SymBits, CountBits, ClBits, CoveredOne;
    assert [] + (Rle(l) + Rle(d)) == Rle(l) + Rle(d) && Rle(l) + Rle(d) + [] == Rle(l) + Rle(d);
    CoveredMiddle(cl, [], Rle(l), Rle(d));
    assert Rle(l) + (Rle(d) + []) == Rle(l) + Rle(d);
    CoveredMiddle(cl, Rle(l), Rle(d), []);
    SymBitsAppend(cl, Rle(l), Rle(d));
  }

  // ---- sending ----

  method SendCounts(sink: BitSink, lcodes: nat, dcodes: nat, blcodes: nat)
    requires sink.Valid() && 257 <= lcodes <= L_CODES && 1 <= dcodes <= D_CODES && 4 <= blcodes <= BL_CODES
    modifies sink, sink.outbuf
    ensures sink.Valid() && sink.sent == old(sink.sent) + CountBits(lcodes, dcodes, blcodes)
  {
    SmallPowers();
    hide Pow2, ToBits, BitSink.Valid;
    sink.SendBits(lcodes - 257, 5);
    sink.SendBits(dcodes - 1, 5);
    sink.SendBits(blcodes - 4, 4);
    Join4(old(sink.sent), ToBits(lcodes - 257, 5), ToBits(dcodes - 1, 5), ToBits(blcodes - 4, 4));
  }

  lemma Join4(a: seq<bool>, b: seq<bool>, c: seq<bool>, d: seq<bool>)
    ensures a + b + c + d == a + (b + (c + d))
  {
  }

  method SendClLens(sink: BitSink, bdl: array<nat>, blcodes: nat)
    requires sink.Valid() && bdl.Length >= BL_CODES && blcodes <= BL_CODES && (bdl as object) != (sink.outbuf as object)
    requires forall i :: 0 <= i < BL_CODES ==> bdl[i] <= MAX_BL_BITS
    modifies sink, sink.outbuf
    ensures sink.Valid() && sink.sent == old(sink.sent) + ClBits(bdl[..BL_CODES], blcodes)
  {
    SmallPowers();
    hide Pow2, ToBits, BitSink.Valid, ClBits;
    ghost var cl: seq<nat>, sent := bdl[..BL_CODES], sink.sent;
    NoClBits(cl, sent);
    var rank := 0;
    while rank < blcodes
      invariant 0 <= rank <= blcodes && sink.Valid() && bdl[..BL_CODES] == cl
      invariant sink.sent == sent + ClBits(cl, rank)
    {
      ClBitsNext(cl, rank, sent);
      StandardTables();
      assert bdl[CODE_LENGTH_ORDER[rank]] == cl[CODE_LENGTH_ORDER[rank]];
      sink.SendBits(bdl[BL_ORDER[rank]], 3);
      rank := rank + 1;
    }
  }

  lemma NoClBits(cl: seq<nat>, sent: seq<bool>)
    requires |cl| == BL_CODES
    ensures sent == sent + ClBits(cl, 0)
  {
  }

  lemma ClBitsNext(cl: seq<nat>, n: nat, sent: seq<bool>)
    requires |cl| == BL_CODES && n < BL_CODES
    ensures sent + ClBits(cl, n) + ToBits(cl[CODE_LENGTH_ORDER[n]], 3) == sent + ClBits(cl, n + 1)
  {
    hide ToBits;
    Reassociate(sent, ClBits(cl, n), ToBits(cl[CODE_LENGTH_ORDER[n]], 3));
  }

  /** send_all_trees */
  method SendAllTrees(sink: BitSink, ldl: array<nat>, lmax: nat, ddl: array<nat>, dmax: nat, bfc: array<nat>, bdl: array<nat>, maxBl: nat)
    requires sink.Valid() && Apart(sink, ldl, ddl) && Apart(sink, bfc, bdl)
    requires 256 <= lmax < L_CODES && dmax < D_CODES && ldl.Length >= 2 + lmax && ddl.Length >= 2 + dmax
    requires bfc.Length == bdl.Length >= BL_CODES && ldl[lmax + 1] == ddl[dmax + 1] == GUARD
    requires Small(ldl[..lmax + 1]) && Small(ddl[..dmax + 1])
    requires BlCode(bdl[..BL_CODES], bfc[..], ldl[..lmax + 1], ddl[..dmax + 1], maxBl)
    requires Covered(bdl[..BL_CODES], Rle(ldl[..lmax + 1])) && Covered(bdl[..BL_CODES], Rle(ddl[..dmax + 1]))
    modifies sink, sink.outbuf
    ensures sink.Valid()
    ensures sink.sent == old(sink.sent) + HeaderBits(ldl[..lmax + 1], ddl[..dmax + 1], bdl[..BL_CODES], maxBl)
  {
    hide Rle, SymBits, CountBits, ClBits, Covered, BitSink.Valid, Table, Complete, CodesSet, UnsentZero;
    ghost var l: seq<nat>, d: seq<nat>, cl: seq<nat>, sent := ldl[..lmax + 1], ddl[..dmax + 1], bdl[..BL_CODES], sink.sent;
    assert (forall i :: 0 <= i <= lmax ==> ldl[i] == l[i] < 16) && (forall i :: 0 <= i <= dmax ==> ddl[i] == d[i] < 16);
    assert forall i :: 0 <= i < BL_CODES ==> bdl[i] == cl[i] <= MAX_BL_BITS;
    SendCounts(sink, lmax + 1, dmax + 1, maxBl + 1);
    SendClLens(sink, bdl, maxBl + 1);
    assert bdl[..BL_CODES] == cl && ldl[..lmax + 1] == l && ddl[..dmax + 1] == d;
    BlTable(bfc, bdl, cl, l, d, maxBl);
    SendTree(sink, ldl, lmax, bfc, bdl, cl);
    assert ddl[..dmax + 1] == d && bdl[..BL_CODES] == cl;
    SendTree(sink, ddl, dmax, bfc, bdl, cl);
    assert ldl[..lmax + 1] == l && ddl[..dmax + 1] == d && bdl[..BL_CODES] == cl;
    Join5(sent, CountBits(|l|, |d|, maxBl + 1), ClBits(cl, maxBl + 1), SymBits(cl, Rle(l)), SymBits(cl, Rle(d)));
  }

  lemma BlTable(bfc: array<nat>, bdl: array<nat>, cl: seq<nat>, l: seq<nat>, d: seq<nat>, maxBl: nat)
    requires bfc.Length == bdl.Length >= BL_CODES && bdl[..BL_CODES] == cl && BlCode(cl, bfc[..], l, d, maxBl)
    ensures Table(bfc, bdl, cl)
  {
    hide CodesSet, Rle, Covered, UnsentZero, Table;
    TableSet(bfc, bdl, cl);
  }

  lemma Join5(a: seq<bool>, b: seq<bool>, c: seq<bool>, d: seq<bool>, e: seq<bool>)
    ensures a + b + c + d + e == a + (b + (c + (d + e)))
  {
  }
}
