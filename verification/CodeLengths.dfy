/** scan_tree and send_tree: run-length coding of the code lengths. */
module CodeLengths {
  import opened Bits
  import opened Inflate
  import opened Codes
  import opened BitSinks
  import opened Reading

  /** A symbol of the code-length alphabet with its repeat count. */
  datatype ClSym = ClSym(sym: nat, extra: nat)

  const REP_3_6 := 16
  const REPZ_3_10 := 17
  const REPZ_11_138 := 18
  const BL_CODES := 19
  const GUARD := 0xffff

  function ExtraWidth(sym: nat): (n: nat)
  {
    if sym == REP_3_6 then 2 else if sym == REPZ_3_10 then 3 else if sym == REPZ_11_138 then 7 else 0
  }

  predicate WellFormed(c: ClSym)
  {
    c.sym < BL_CODES && c.extra < Pow2(ExtraWidth(c.sym))
  }

  predicate AllWellFormed(syms: seq<ClSym>)
  {
    forall i :: 0 <= i < |syms| ==> WellFormed(syms[i])
  }

  // ---- meaning of the symbols (section 3.2.7 of RFC 1951) ----

  function ExpandOne(acc: seq<nat>, c: ClSym): (r: seq<nat>)
  {
    if c.sym < REP_3_6 then acc + [c.sym]
    else if c.sym == REP_3_6 then (if acc == [] then acc else acc + Repeat(acc[|acc| - 1], 3 + c.extra))
    else if c.sym == REPZ_3_10 then acc + Repeat(0, 3 + c.extra)
    else acc + Repeat(0, 11 + c.extra)
  }

  function Expand(acc: seq<nat>, syms: seq<ClSym>): (r: seq<nat>)
    decreases |syms|
  {
    if syms == [] then acc else Expand(ExpandOne(acc, syms[0]), syms[1..])
  }

  /** A repeat symbol never comes first. */
  predicate Grounded(acc: seq<nat>, syms: seq<ClSym>)
    decreases |syms|
  {
    syms == [] || ((syms[0].sym == REP_3_6 ==> acc != []) && Grounded(ExpandOne(acc, syms[0]), syms[1..]))
  }

  lemma {:induction false} ExpandAppend(acc: seq<nat>, a: seq<ClSym>, b: seq<ClSym>)
    ensures Expand(acc, a + b) == Expand(Expand(acc, a), b)
    ensures Grounded(acc, a + b) <==> Grounded(acc, a) && Grounded(Expand(acc, a), b)
    decreases |a|
  {
    if a == [] {
      assert a + b == b;
    } else {
      assert (a + b)[0] == a[0] && (a + b)[1..] == a[1..] + b;
      ExpandAppend(ExpandOne(acc, a[0]), a[1..], b);
    }
  }

  lemma {:induction false} ExpandGrows(acc: seq<nat>, syms: seq<ClSym>)
    requires Grounded(acc, syms)
    ensures |Expand(acc, syms)| >= |acc| + |syms|
    decreases |syms|
  {
    if syms != [] {
      ExpandGrows(ExpandOne(acc, syms[0]), syms[1..]);
    }
  }

  // ---- the scan shared by both loops ----

  function MaxCount(v: nat, prev: int): (n: nat)
  {
    if v == 0 then 138 else if v == prev then 6 else 7
  }

  function MinCount(v: nat, prev: int): (n: nat)
  {
    if v == 0 || v == prev then 3 else 4
  }

  function Copies(v: nat, n: nat): (s: seq<ClSym>)
    ensures |s| == n && forall i :: 0 <= i < n ==> s[i] == ClSym(v, 0)
  {
    seq(n, i => ClSym(v, 0))
  }

  /** The symbols for a run of `count` lengths v, after a length prev. */
  function Emit(v: nat, prev: int, count: nat): (s: seq<ClSym>)
    requires 1 <= count <= MaxCount(v, prev)
  {
    if count < MinCount(v, prev) then Copies(v, count)
    else if v != 0 then
      if v != prev then [ClSym(v, 0), ClSym(REP_3_6, count - 4)] else [ClSym(REP_3_6, count - 3)]
    else if count <= 10 then [ClSym(REPZ_3_10, count - 3)]
    else [ClSym(REPZ_11_138, count - 11)]
  }

  function Next(lens: seq<nat>, n: nat): (v: nat)
    requires n <= |lens|
  {
    if n < |lens| then lens[n] else GUARD
  }

  /** The rest of the scan from position n, with `count` equal lengths held back. */
  function Scan(lens: seq<nat>, n: nat, prev: int, count: nat): (s: seq<ClSym>)
    requires n <= |lens| && (n < |lens| ==> count < MaxCount(lens[n], prev))
    decreases |lens| - n
  {
    if n == |lens| then []
    else if count + 1 < MaxCount(lens[n], prev) && lens[n] == Next(lens, n + 1) && n + 1 < |lens| then
      Scan(lens, n + 1, prev, count + 1)
    else Emit(lens[n], prev, count + 1) + Scan(lens, n + 1, lens[n], 0)
  }

  /** All the symbols for a list of lengths. */
  function Rle(lens: seq<nat>): (s: seq<ClSym>)
  {
    Scan(lens, 0, -1, 0)
  }

  // ---- what the scan guarantees ----

  lemma {:induction false} ExpandCopies(acc: seq<nat>, v: nat, n: nat)
    requires v < 16
    ensures Expand(acc, Copies(v, n)) == acc + Repeat(v, n) && Grounded(acc, Copies(v, n))
    decreases n
  {
    if n > 0 {
      var c := Copies(v, n);
      assert c[1..] == Copies(v, n - 1);
      ExpandCopies(acc + [v], v, n - 1);
      assert acc + [v] + Repeat(v, n - 1) == acc + Repeat(v, n);
    }
  }

  lemma ExpandSingle(acc: seq<nat>, a: ClSym)
    ensures Expand(acc, [a]) == ExpandOne(acc, a)
    ensures Grounded(acc, [a]) <==> (a.sym == REP_3_6 ==> acc != [])
  {
    assert [a][1..] == [];
  }

  lemma ExpandPair(acc: seq<nat>, a: ClSym, b: ClSym)
    ensures Expand(acc, [a, b]) == ExpandOne(ExpandOne(acc, a), b)
    ensures Grounded(acc, [a, b]) <==> (a.sym == REP_3_6 ==> acc != []) && (b.sym == REP_3_6 ==> ExpandOne(acc, a) != [])
  {
    ExpandSingle(acc, a);
    ExpandSingle(ExpandOne(acc, a), b);
    ExpandAppend(acc, [a], [b]);
    assert [a] + [b] == [a, b];
  }

  lemma RepeatMore(v: nat, n: nat)
    ensures [v] + Repeat(v, n) == Repeat(v, n + 1) == Repeat(v, n) + [v]
  {
  }

  /** A run's symbols expand to the run. */
  lemma EmitExpands(acc: seq<nat>, v: nat, prev: int, count: nat)
    requires 1 <= count <= MaxCount(v, prev) && v < 16
    requires prev >= 0 ==> acc != [] && acc[|acc| - 1] == prev
    ensures Expand(acc, Emit(v, prev, count)) == acc + Repeat(v, count)
    ensures Grounded(acc, Emit(v, prev, count))
  {
    hide Expand, Grounded, Repeat;
    if count < MinCount(v, prev) {
      ExpandCopies(acc, v, count);
    } else if v != 0 && v != prev {
      ExpandPair(acc, ClSym(v, 0), ClSym(REP_3_6, count - 4));
      RepeatMore(v, count - 1);
      assert acc + [v] + Repeat(v, count - 1) == acc + ([v] + Repeat(v, count - 1));
    } else {
      ExpandSingle(acc, Emit(v, prev, count)[0]);
    }
  }

  lemma EmitWellFormed(v: nat, prev: int, count: nat)
    requires 1 <= count <= MaxCount(v, prev) && v < 16
    ensures AllWellFormed(Emit(v, prev, count))
  {
    assert Pow2(0) == 1 && Pow2(2) == 4 && Pow2(3) == 8 && Pow2(7) == 128;
  }

  /** From any point, what is emitted expands to the lengths held back and those to come. */
  lemma {:induction false} ScanExpands(lens: seq<nat>, n: nat, prev: int, count: nat, acc: seq<nat>)
    requires n <= |lens| && (n < |lens| ==> count < MaxCount(lens[n], prev)) && (n == |lens| ==> count == 0)
    requires forall i :: 0 <= i < |lens| ==> lens[i] < 16
    requires prev >= 0 ==> acc != [] && acc[|acc| - 1] == prev
    ensures Expand(acc, Scan(lens, n, prev, count)) == acc + Repeat(Next(lens, n), count) + lens[n..]
    ensures Grounded(acc, Scan(lens, n, prev, count))
    decreases |lens| - n
  {
    hide Expand, Grounded, Repeat, Emit;
    if n == |lens| {
      ExpandNothing(acc);
    } else {
      var v := lens[n];
      RepeatMore(v, count);
      HoldBack(acc, Repeat(v, count), v, lens, n);
      if count + 1 < MaxCount(v, prev) && v == Next(lens, n + 1) && n + 1 < |lens| {
        ScanExpands(lens, n + 1, prev, count + 1, acc);
      } else {
        var acc' := acc + Repeat(v, count + 1);
        EmitExpands(acc, v, prev, count + 1);
        ExpandAppend(acc, Emit(v, prev, count + 1), Scan(lens, n + 1, v, 0));
        LastOf(acc, v, count + 1);
        ScanExpands(lens, n + 1, v, 0, acc');
        NoneHeld(acc', Next(lens, n + 1));
      }
    }
  }

  lemma ExpandNothing(acc: seq<nat>)
    ensures Expand(acc, []) == acc && Grounded(acc, []) && acc + Repeat(GUARD, 0) + [] == acc
  {
  }

  lemma NoneHeld(acc: seq<nat>, v: nat)
    ensures acc + Repeat(v, 0) == acc
  {
  }

  lemma LastOf(acc: seq<nat>, v: nat, n: nat)
    requires n > 0
    ensures acc + Repeat(v, n) != [] && (acc + Repeat(v, n))[|acc| + n - 1] == v
    ensures |acc + Repeat(v, n)| == |acc| + n
  {
  }

  lemma HoldBack(acc: seq<nat>, held: seq<nat>, v: nat, lens: seq<nat>, n: nat)
    requires n < |lens| && lens[n] == v
    ensures acc + held + lens[n..] == acc + (held + [v]) + lens[n + 1..]
  {
  }

  lemma {:induction false} ScanWellFormed(lens: seq<nat>, n: nat, prev: int, count: nat)
    requires n <= |lens| && (n < |lens| ==> count < MaxCount(lens[n], prev))
    requires forall i :: 0 <= i < |lens| ==> lens[i] < 16
    ensures AllWellFormed(Scan(lens, n, prev, count))
    decreases |lens| - n
  {
    if n < |lens| {
      var v := lens[n];
      if count + 1 < MaxCount(v, prev) && v == Next(lens, n + 1) && n + 1 < |lens| {
        ScanWellFormed(lens, n + 1, prev, count + 1);
      } else {
        EmitWellFormed(v, prev, count + 1);
        ScanWellFormed(lens, n + 1, v, 0);
      }
    }
  }

  /** The run-length code of any lengths expands back to them, whatever came before. */
  lemma RleRoundTrip(lens: seq<nat>, acc: seq<nat>)
    requires forall i :: 0 <= i < |lens| ==> lens[i] < 16
    ensures Expand(acc, Rle(lens)) == acc + lens
    ensures Grounded(acc, Rle(lens)) && AllWellFormed(Rle(lens))
  {
    ScanExpands(lens, 0, -1, 0, acc);
    ScanWellFormed(lens, 0, -1, 0);
    assert lens[0..] == lens && acc + Repeat(Next(lens, 0), 0) == acc;
  }

  // ---- counting and sending ----

  function CountSym(syms: seq<ClSym>, s: nat): (n: nat)
  {
    if syms == [] then 0 else CountSym(syms[..|syms| - 1], s) + (if syms[|syms| - 1].sym == s then 1 else 0)
  }

  lemma {:induction false} CountSymAppend(a: seq<ClSym>, b: seq<ClSym>, s: nat)
    ensures CountSym(a + b, s) == CountSym(a, s) + CountSym(b, s)
  {
    if b == [] {
      assert a + b == a;
    } else {
      assert (a + b)[..|a + b| - 1] == a + b[..|b| - 1];
      CountSymAppend(a, b[..|b| - 1], s);
    }
  }

  lemma {:induction false} CountCopies(v: nat, n: nat, s: nat)
    ensures CountSym(Copies(v, n), s) == if v == s then n else 0
    decreases n
  {
    if n > 0 {
      assert Copies(v, n)[..n - 1] == Copies(v, n - 1);
      CountCopies(v, n - 1, s);
    }
  }

  lemma CountOne(c: ClSym, s: nat)
    ensures CountSym([c], s) == if c.sym == s then 1 else 0
  {
    assert [c][..0] == [];
  }

  lemma CountTwo(a: ClSym, b: ClSym, s: nat)
    ensures CountSym([a, b], s) == (if a.sym == s then 1 else 0) + (if b.sym == s then 1 else 0)
  {
    assert [a, b] == [a] + [b];
    CountSymAppend([a], [b], s);
    CountOne(a, s);
    CountOne(b, s);
  }

  lemma {:induction false} CountedIsPresent(syms: seq<ClSym>, i: nat)
    requires i < |syms|
    ensures CountSym(syms, syms[i].sym) > 0
  {
    if i < |syms| - 1 {
      CountedIsPresent(syms[..|syms| - 1], i);
    }
  }

  /** Frequencies raised by what a list of symbols uses. */
  ghost predicate Raised(freq: seq<nat>, freq': seq<nat>, syms: seq<ClSym>)
  {
    |freq| == |freq'| && forall s :: 0 <= s < |freq| ==> freq'[s] == freq[s] + CountSym(syms, s)
  }

  /** The counting branch of scan_tree for one run. */
  method CountRun(freq: array<nat>, v: nat, prev: int, count: nat)
    requires 1 <= count <= MaxCount(v, prev) && v < 16 && freq.Length >= BL_CODES
    modifies freq
    ensures Raised(old(freq[..]), freq[..], Emit(v, prev, count))
  {
    ghost var f: seq<nat> := freq[..];
    if count < MinCount(v, prev) {
      freq[v] := freq[v] + count;
      forall s | 0 <= s < |f| ensures freq[s] == f[s] + CountSym(Copies(v, count), s) {
        CountCopies(v, count, s);
      }
    } else if v != 0 {
      if v != prev {
        freq[v] := freq[v] + 1;
      }
      freq[REP_3_6] := freq[REP_3_6] + 1;
      forall s | 0 <= s < |f| ensures freq[s] == f[s] + CountSym(Emit(v, prev, count), s) {
        if v != prev {
          CountTwo(ClSym(v, 0), ClSym(REP_3_6, count - 4), s);
        } else {
          CountOne(ClSym(REP_3_6, count - 3), s);
        }
      }
    } else {
      var sym := if count <= 10 then REPZ_3_10 else REPZ_11_138;
      freq[sym] := freq[sym] + 1;
      forall s | 0 <= s < |f| ensures freq[s] == f[s] + CountSym(Emit(v, prev, count), s) {
        CountOne(Emit(v, prev, count)[0], s);
      }
    }
  }

  lemma RaisedAppend(f: seq<nat>, g: seq<nat>, h: seq<nat>, a: seq<ClSym>, b: seq<ClSym>)
    requires Raised(f, g, a) && Raised(g, h, b)
    ensures Raised(f, h, a + b)
  {
    forall s | 0 <= s < |f| ensures h[s] == f[s] + CountSym(a + b, s) {
      CountSymAppend(a, b, s);
    }
  }

  /** scan_tree: counts how often each bit-length symbol will be sent for Len[0..maxCode]. */
  method ScanTree(dl: array<nat>, maxCode: nat, freq: array<nat>)
    requires maxCode + 1 < dl.Length && freq.Length >= BL_CODES && dl != freq
    requires forall i :: 0 <= i <= maxCode ==> dl[i] < 16
    modifies dl, freq
    ensures forall i :: 0 <= i < dl.Length && i != maxCode + 1 ==> dl[i] == old(dl[i])
    ensures dl[maxCode + 1] == GUARD
    ensures Raised(old(freq[..]), freq[..], Rle(dl[..maxCode + 1]))
  {
    hide Emit, CountSym;
    var prevlen: int, count := -1, 0;
    var nextlen := dl[0];
    var maxCount, minCount := 7, 4;
    if nextlen == 0 {
      maxCount, minCount := 138, 3;
    }
    dl[maxCode + 1] := GUARD;
    ghost var lens: seq<nat> := dl[..maxCode + 1];
    ghost var done: seq<ClSym> := [];
    ghost var freq0: seq<nat> := freq[..];
    RaisedNone(freq0);
    assert done + Rle(lens) == Rle(lens);
    var n := 0;
    while n <= maxCode
      invariant 0 <= n <= maxCode + 1 && dl[..maxCode + 1] == lens && dl[maxCode + 1] == GUARD
      invariant forall i :: 0 <= i < dl.Length && i != maxCode + 1 ==> dl[i] == old(dl[i])
      invariant nextlen == dl[n] == Next(lens, n)
      invariant n <= maxCode ==> maxCount == MaxCount(lens[n], prevlen) && minCount == MinCount(lens[n], prevlen) && count < maxCount
      invariant n == maxCode + 1 ==> count == 0
      invariant done + Scan(lens, n, prevlen, count) == Rle(lens)
      invariant Raised(freq0, freq[..], done)
    {
      var curlen := nextlen;
      nextlen := dl[n + 1];
      assert nextlen == Next(lens, n + 1);
      count := count + 1;
      if count < maxCount && curlen == nextlen {
        n := n + 1;
        continue;
      }
      ghost var before: seq<nat> := freq[..];
      CountRun(freq, curlen, prevlen, count);
      RaisedAppend(freq0, before, freq[..], done, Emit(curlen, prevlen, count));
      ghost var e := Emit(curlen, prevlen, count);
      assert (done + e) + Scan(lens, n + 1, curlen, 0) == done + (e + Scan(lens, n + 1, curlen, 0));
      done := done + e;
      count := 0;
      prevlen := curlen;
      maxCount, minCount := 7, 4;
      if nextlen == 0 {
        maxCount, minCount := 138, 3;
      } else if curlen == nextlen {
        maxCount, minCount := 6, 3;
      }
      n := n + 1;
    }
    assert done + [] == done;
  }

  lemma RaisedNone(f: seq<nat>)
    ensures Raised(f, f, [])
  {
  }

  // ---- bits of the symbols ----

  function OneBits(cl: seq<nat>, c: ClSym): (b: seq<bool>)
    requires CoveredOne(cl, c)
  {
    Codeword(cl, c.sym) + ToBits(c.extra, ExtraWidth(c.sym))
  }

  predicate CoveredOne(cl: seq<nat>, c: ClSym)
  {
    c.sym < |cl| && cl[c.sym] > 0 && WellFormed(c)
  }

  predicate Covered(cl: seq<nat>, syms: seq<ClSym>)
  {
    forall i :: 0 <= i < |syms| ==> CoveredOne(cl, syms[i])
  }

  function SymBits(cl: seq<nat>, syms: seq<ClSym>): (b: seq<bool>)
    requires Covered(cl, syms)
    decreases |syms|
  {
    if syms == [] then [] else SymBits(cl, syms[..|syms| - 1]) + OneBits(cl, syms[|syms| - 1])
  }

  lemma {:induction false} SymBitsAppend(cl: seq<nat>, a: seq<ClSym>, b: seq<ClSym>)
    requires Covered(cl, a) && Covered(cl, b)
    ensures Covered(cl, a + b) && SymBits(cl, a + b) == SymBits(cl, a) + SymBits(cl, b)
    decreases |b|
  {
    hide OneBits, CoveredOne;
    if b == [] {
      assert a + b == a;
    } else {
      var b', z := b[..|b| - 1], b[|b| - 1];
      assert (a + b)[..|a + b| - 1] == a + b' && (a + b)[|a + b| - 1] == z;
      SymBitsAppend(cl, a, b');
      assert CoveredOne(cl, z);
      Reassociate(SymBits(cl, a), SymBits(cl, b'), OneBits(cl, z));
    }
  }

  lemma Reassociate(a: seq<bool>, b: seq<bool>, c: seq<bool>)
    ensures (a + b) + c == a + (b + c)
  {
  }

  /** Two tables that are not the sink's buffer. */
  ghost predicate Apart(sink: BitSink, fc: array<nat>, dl: array<nat>)
  {
    (fc as object) != (sink.outbuf as object) && (dl as object) != (sink.outbuf as object)
  }

  /** A code table that can be sent from: dl and fc hold the lengths cl and their codewords. */
  ghost predicate Table(fc: array<nat>, dl: array<nat>, cl: seq<nat>)
    reads fc, dl
  {
    && fc.Length == dl.Length && Bounded(cl)
    && forall c :: 0 <= c < dl.Length && c < |cl| ==> Entry(fc[c], dl[c], cl, c)
  }

  ghost predicate Entry(code: nat, len: nat, cl: seq<nat>, c: nat)
    requires c < |cl|
  {
    len == cl[c] && (len > 0 ==> code < Pow2(len) && ToBits(code, len) == Codeword(cl, c))
  }

  /** SEND_CODE */
  method SendCode(sink: BitSink, fc: array<nat>, dl: array<nat>, c: nat, ghost cl: seq<nat>)
    requires sink.Valid() && Apart(sink, fc, dl) && Table(fc, dl, cl) && c < |cl| && c < dl.Length && cl[c] > 0
    modifies sink, sink.outbuf
    ensures sink.Valid() && Table(fc, dl, cl)
    ensures sink.sent == old(sink.sent) + Codeword(cl, c)
  {
    hide Codeword, ToBits;
    assert Entry(fc[c], dl[c], cl, c);
    sink.SendBits(fc[c], dl[c]);
  }

  lemma NoBits(v: nat, sent: seq<bool>)
    ensures sent + ToBits(v, 0) == sent
  {
  }

  /** A symbol of the code-length alphabet and, if it has one, its repeat count. */
  method SendSym(sink: BitSink, fc: array<nat>, dl: array<nat>, c: ClSym, ghost cl: seq<nat>)
    requires sink.Valid() && Apart(sink, fc, dl) && Table(fc, dl, cl) && CoveredOne(cl, c) && |cl| <= dl.Length
    modifies sink, sink.outbuf
    ensures sink.Valid() && Table(fc, dl, cl)
    ensures sink.sent == old(sink.sent) + OneBits(cl, c)
  {
    hide Codeword, ToBits, Table;
    SendCode(sink, fc, dl, c.sym, cl);
    if c.sym >= REP_3_6 {
      sink.SendBits(c.extra, ExtraWidth(c.sym));
    } else {
      NoBits(c.extra, sink.sent);
    }
    Reassociate(old(sink.sent), Codeword(cl, c.sym), ToBits(c.extra, ExtraWidth(c.sym)));
  }

  lemma SymBitsSnoc(sent: seq<bool>, cl: seq<nat>, syms: seq<ClSym>, c: ClSym)
    requires Covered(cl, syms) && CoveredOne(cl, c)
    ensures Covered(cl, syms + [c])
    ensures sent + SymBits(cl, syms) + OneBits(cl, c) == sent + SymBits(cl, syms + [c])
  {
    hide OneBits;
    assert (syms + [c])[..|syms|] == syms;
    Reassociate(sent, SymBits(cl, syms), OneBits(cl, c));
  }

  lemma SymBitsNone(sent: seq<bool>, cl: seq<nat>)
    ensures Covered(cl, []) && sent == sent + SymBits(cl, [])
  {
  }

  /** The sending branch of send_tree for one run. */
  method SendRun(sink: BitSink, fc: array<nat>, dl: array<nat>, v: nat, prev: int, count0: nat, ghost cl: seq<nat>)
    requires sink.Valid() && Apart(sink, fc, dl) && Table(fc, dl, cl) && |cl| <= dl.Length
    requires 1 <= count0 <= MaxCount(v, prev) && v < 16 && Covered(cl, Emit(v, prev, count0))
    modifies sink, sink.outbuf
    ensures sink.Valid() && Table(fc, dl, cl)
    ensures sink.sent == old(sink.sent) + SymBits(cl, Emit(v, prev, count0))
  {
    hide SymBits, OneBits, Table;
    var count := count0;
    ghost var all, sent := Emit(v, prev, count0), sink.sent;
    SymBitsNone(sent, cl);
    ghost var done: seq<ClSym> := [];
    if count < MinCount(v, prev) {
      while count > 0
        invariant count + |done| == count0 && done == all[..|done|] && Covered(cl, done)
        invariant sink.Valid() && Table(fc, dl, cl)
        invariant sink.sent == sent + SymBits(cl, done)
      {
        assert all[|done|] == ClSym(v, 0) && CoveredOne(cl, all[|done|]);
        SymBitsSnoc(sent, cl, done, ClSym(v, 0));
        SendSym(sink, fc, dl, ClSym(v, 0), cl);
        done := done + [ClSym(v, 0)];
        count := count - 1;
      }
      assert done == all;
    } else {
      if v != 0 && v != prev {
        assert CoveredOne(cl, all[0]);
        SymBitsSnoc(sent, cl, done, ClSym(v, 0));
        SendSym(sink, fc, dl, ClSym(v, 0), cl);
        done := done + [ClSym(v, 0)];
        count := count - 1;
      }
      var rep := if v != 0 then ClSym(REP_3_6, count - 3)
                 else if count <= 10 then ClSym(REPZ_3_10, count - 3) else ClSym(REPZ_11_138, count - 11);
      assert all[|done|] == rep && CoveredOne(cl, all[|done|]);
      SymBitsSnoc(sent, cl, done, rep);
      SendSym(sink, fc, dl, rep, cl);
      assert done + [rep] == all;
    }
  }

  /** send_tree: sends Len[0..maxCode] with the bit-length code. */
  method SendTree(sink: BitSink, lensOf: array<nat>, maxCode: nat, fc: array<nat>, dl: array<nat>, ghost cl: seq<nat>)
    requires sink.Valid() && Apart(sink, fc, dl) && Apart(sink, lensOf, lensOf) && Table(fc, dl, cl) && |cl| <= dl.Length
    requires maxCode + 1 < lensOf.Length && lensOf[maxCode + 1] == GUARD
    requires forall i :: 0 <= i <= maxCode ==> lensOf[i] < 16
    requires Covered(cl, Rle(lensOf[..maxCode + 1]))
    modifies sink, sink.outbuf
    ensures sink.Valid() && Table(fc, dl, cl)
    ensures sink.sent == old(sink.sent) + SymBits(cl, Rle(lensOf[..maxCode + 1]))
  {
    hide Emit, SymBits, CoveredOne, Table;
    var prevlen: int, count := -1, 0;
    var nextlen := lensOf[0];
    var maxCount, minCount := 7, 4;
    if nextlen == 0 {
      maxCount, minCount := 138, 3;
    }
    ghost var lens: seq<nat>, sent := lensOf[..maxCode + 1], sink.sent;
    ghost var done: seq<ClSym> := [];
    SymBitsNone(sent, cl);
    assert done + Rle(lens) == Rle(lens);
    var n := 0;
    while n <= maxCode
      invariant 0 <= n <= maxCode + 1 && lensOf[..maxCode + 1] == lens && lensOf[maxCode + 1] == GUARD
      invariant nextlen == lensOf[n] == Next(lens, n)
      invariant n <= maxCode ==> maxCount == MaxCount(lens[n], prevlen) && minCount == MinCount(lens[n], prevlen) && count < maxCount
      invariant n == maxCode + 1 ==> count == 0
      invariant done + Scan(lens, n, prevlen, count) == Rle(lens)
      invariant sink.Valid() && Table(fc, dl, cl)
      invariant Covered(cl, done) && sink.sent == sent + SymBits(cl, done)
    {
      var curlen := nextlen;
      nextlen := lensOf[n + 1];
      assert nextlen == Next(lens, n + 1);
      count := count + 1;
      if count < maxCount && curlen == nextlen {
        n := n + 1;
        continue;
      }
      ghost var e := Emit(curlen, prevlen, count);
      assert (done + e) + Scan(lens, n + 1, curlen, 0) == done + (e + Scan(lens, n + 1, curlen, 0));
      CoveredMiddle(cl, done, e, Scan(lens, n + 1, curlen, 0));
      SendRun(sink, fc, dl, curlen, prevlen, count, cl);
      SymBitsAppend(cl, done, e);
      Reassociate(sent, SymBits(cl, done), SymBits(cl, e));
      done := done + e;
      count := 0;
      prevlen := curlen;
      if nextlen == 0 {
        maxCount, minCount := 138, 3;
      } else if curlen == nextlen {
        maxCount, minCount := 6, 3;
      } else {
        maxCount, minCount := 7, 4;
      }
      n := n + 1;
    }
    assert done + [] == done;
  }

  lemma CoveredMiddle(cl: seq<nat>, a: seq<ClSym>, b: seq<ClSym>, c: seq<ClSym>)
    requires Covered(cl, a + (b + c))
    ensures Covered(cl, b)
  {
    var s := a + (b + c);
    assert forall i :: 0 <= i < |b| ==> b[i] == s[|a| + i];
  }

  // ---- reading the lengths back ----

  lemma SymRead(cl: seq<nat>, bits: seq<bool>, pos: nat, acc: seq<nat>, total: nat, c: ClSym)
    requires Decodable(cl) && CoveredOne(cl, c) && At(bits, pos, OneBits(cl, c))
    requires |acc| < total && (c.sym == REP_3_6 ==> acc != [])
    ensures ReadLens(cl, bits, pos, acc, total)
         == ReadLens(cl, bits, pos + |OneBits(cl, c)|, ExpandOne(acc, c), total)
  {
    SymParts(cl, bits, pos, c);
    hide OneBits, ReadSymbol, ReadBits, Decodable, At, CoveredOne;
    LensStep(cl, bits, pos, acc, total, c, pos + cl[c.sym], pos + |OneBits(cl, c)|);
  }

  /** The symbol and its repeat count, read one after the other. */
  lemma SymParts(cl: seq<nat>, bits: seq<bool>, pos: nat, c: ClSym)
    requires Decodable(cl) && CoveredOne(cl, c) && At(bits, pos, OneBits(cl, c))
    ensures c.sym < BL_CODES && ReadSymbol(cl, bits, pos) == Got(c.sym, pos + cl[c.sym])
    ensures ReadBits(bits, pos + cl[c.sym], ExtraWidth(c.sym)) == Got(c.extra, pos + |OneBits(cl, c)|)
    ensures c.sym < 16 ==> |OneBits(cl, c)| == cl[c.sym]
  {
    var w := ExtraWidth(c.sym);
    CodewordLength(cl, c.sym, c.extra, w);
    hide Codeword, ToBits, Decodable, Pow2, ReadSymbol, ReadBits;
    AtSplit(bits, pos, Codeword(cl, c.sym), ToBits(c.extra, w));
    CodewordRead(cl, c.sym, bits, pos);
    NumberRead(bits, pos + cl[c.sym], c.extra, w);
  }

  lemma CodewordLength(cl: seq<nat>, s: nat, x: nat, w: nat)
    requires s < |cl|
    ensures |Codeword(cl, s)| == cl[s] && |ToBits(x, w)| == w
  {
  }

  lemma LensStep(cl: seq<nat>, bits: seq<bool>, pos: nat, acc: seq<nat>, total: nat, c: ClSym, p: nat, q: nat)
    requires |acc| < total && (c.sym == REP_3_6 ==> acc != []) && c.sym < BL_CODES
    requires ReadSymbol(cl, bits, pos) == Got(c.sym, p) && ReadBits(bits, p, ExtraWidth(c.sym)) == Got(c.extra, q)
    requires c.sym < 16 ==> p == q
    ensures ReadLens(cl, bits, pos, acc, total) == ReadLens(cl, bits, q, ExpandOne(acc, c), total)
  {
    hide ReadSymbol, ReadBits;
  }

  /** The symbols' bits are read as the lengths they expand to. */
  lemma {:induction false} SymsRead(cl: seq<nat>, bits: seq<bool>, pos: nat, acc: seq<nat>, total: nat, syms: seq<ClSym>)
    requires Decodable(cl) && Covered(cl, syms) && At(bits, pos, SymBits(cl, syms))
    requires Grounded(acc, syms) && |Expand(acc, syms)| <= total
    ensures ReadLens(cl, bits, pos, acc, total)
         == ReadLens(cl, bits, pos + |SymBits(cl, syms)|, Expand(acc, syms), total)
    decreases |syms|
  {
    hide OneBits, ReadLens, CoveredOne, ExpandOne;
    if syms != [] {
      var front, z := syms[..|syms| - 1], syms[|syms| - 1];
      assert syms == front + [z];
      ExpandAppend(acc, front, [z]);
      ExpandSingle(Expand(acc, front), z);
      ExpandGrows(Expand(acc, front), [z]);
      assert CoveredOne(cl, z);
      AtSplit(bits, pos, SymBits(cl, front), OneBits(cl, z));
      SymsRead(cl, bits, pos, acc, total, front);
      SymRead(cl, bits, pos + |SymBits(cl, front)|, Expand(acc, front), total, z);
    }
  }
}
