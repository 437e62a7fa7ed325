/** The rewrites of lzo1x_optimize and why they keep a stream's meaning. */
module LzoRewrite {
  import opened Bits
  import opened Inflate
  import opened Lzo

  /** (b & ~3) | n */
  function WithLow(b: Byte, n: nat): (r: Byte)
    requires n < 4
    ensures r / 4 == b / 4 && Low(r) == n
  {
    b / 4 * 4 + n
  }

  /** An instruction with its literal count set. */
  function SetCount(h: seq<Byte>, n: nat): (r: seq<Byte>)
    requires |h| >= 2 && n < 4
    ensures |r| == |h|
  {
    h[|h| - 2 := WithLow(h[|h| - 2], n)]
  }

  /** Setting the count leaves the copy as it was, whatever comes behind. */
  lemma CountSet(h: seq<Byte>, n: nat, behind: seq<Byte>, behind': seq<Byte>, mode: Mode)
    requires |h| >= 2 && n < 4 && Parse(h + behind, mode).Copy? && Parse(h + behind, mode).size == |h|
    ensures Parse(SetCount(h, n) + behind', mode) == Parse(h + behind, mode)
    ensures Low((SetCount(h, n) + behind')[|h| - 2]) == n
  {
    hide Parse;
    var s, s', q := h + behind, SetCount(h, n) + behind', |h|;
    assert s[..q - 2] == h[..q - 2] == s'[..q - 2];
    assert s[q - 2] == h[q - 2] && s'[q - 2] == WithLow(h[q - 2], n) && s[q - 1] == h[q - 1] == s'[q - 1];
    CopyAgain(s, s', mode);
  }

  lemma StepOfCopy(s: seq<Byte>, mode: Mode, out: seq<Byte>, lits: seq<Byte>)
    requires Parse(s, mode).Copy? && Parse(s, mode).dist <= |out| && Low(s[Parse(s, mode).size - 2]) == |lits|
    requires Parse(s, mode).size + |lits| <= |s| && s[Parse(s, mode).size..Parse(s, mode).size + |lits|] == lits
    ensures var i := Parse(s, mode);
            Step(s, mode, out) == Next(i.size + |lits|, if lits == [] then Top else AfterShort, CopyMatch(out, i.dist, i.len) + lits)
  {
    hide Parse, CopyMatch;
  }

  /** A copy with literals behind it. */
  lemma CopyStep(h: seq<Byte>, lits: seq<Byte>, behind: seq<Byte>, mode: Mode, out: seq<Byte>, i: Instr)
    requires |h| >= 2 && |lits| < 4 && Parse(h + (lits + behind), mode) == i && i.Copy? && i.size == |h|
    requires Low(h[|h| - 2]) == |lits| && i.dist <= |out|
    ensures Step(h + (lits + behind), mode, out)
            == Next(|h| + |lits|, if lits == [] then Top else AfterShort, CopyMatch(out, i.dist, i.len) + lits)
  {
    hide Parse, CopyMatch, Step;
    var s := h + (lits + behind);
    assert s[|h| - 2] == h[|h| - 2];
    assert s[|h|..|h| + |lits|] == lits;
    StepOfCopy(s, mode, out, lits);
  }

  /** A run with a one-byte header. */
  lemma RunStep(c: Byte, lits: seq<Byte>, behind: seq<Byte>, out: seq<Byte>)
    requires 1 <= c < 16 && |lits| == c + 3
    ensures Parse([c] + (lits + behind), Top) == Run(|lits|, 1)
    ensures Step([c] + (lits + behind), Top, out) == Next(1 + |lits|, AfterRun, out + lits)
  {
    var s := [c] + (lits + behind);
    assert s[0] == c && s[1..1 + |lits|] == lits;
  }

  // ---- the optimiser's place in the stream ----

  /** Decoding cur comes to ip with this state, and from there to the end. */
  ghost predicate Stands(cur: seq<Byte>, ip: nat, mode: Mode, out: seq<Byte>, end: Result)
  {
    && ip <= |cur| && Reach(cur[..ip], mode, out) && Plain(cur[..ip], cur[ip..])
    && Decode(cur[ip..], mode, out) == end
  }

  /** A stream on which the optimiser stands decodes to the end that lies ahead. */
  lemma StandsDecodes(cur: seq<Byte>, ip: nat, mode: Mode, out: seq<Byte>, end: Result)
    requires Stands(cur, ip, mode, out, end)
    ensures DecodeStream(cur) == end
  {
    hide DecodeStream, Decode;
    assert cur[..ip] + cur[ip..] == cur;
    assert DecodeStream(cur[..ip] + cur[ip..]) == Decode(cur[ip..], mode, out);
  }

  /** One step further. */
  lemma StandsNext(cur: seq<Byte>, ip: nat, mode: Mode, out: seq<Byte>, end: Result)
    requires Stands(cur, ip, mode, out, end) && Step(cur[ip..], mode, out).Next?
    ensures var r := Step(cur[ip..], mode, out); Stands(cur, ip + r.used, r.mode, r.out, end)
  {
    hide Step, DecodeStream;
    var r := Step(cur[ip..], mode, out);
    StepReaches(cur[..ip], mode, out, cur[ip..]);
    assert cur[..ip] + cur[ip..][..r.used] == cur[..ip + r.used];
    assert cur[ip..][r.used..] == cur[ip + r.used..];
  }

  /** The instruction before ip, which litp and lit describe: a copy followed by up to three
      literals, whose count is at litp, or a run of more than three, whose header is at litp. */
  datatype Back = Back(p: nat, mode: Mode, out: seq<Byte>)

  ghost predicate Behind(b: Back, cur: seq<Byte>, litp: nat, lit: nat, ip: nat, mode: Mode, out: seq<Byte>)
  {
    && b.p <= litp && litp + 2 <= ip <= |cur| && (b.p == 0 ==> b.mode == Top && b.out == [])
    && Reach(cur[..b.p], b.mode, b.out) && Plain(cur[..b.p], cur[b.p..])
    && Step(cur[b.p..], b.mode, b.out) == Next(ip - b.p, mode, out)
    && var i := Parse(cur[b.p..], b.mode);
       if lit <= 3 then i.Copy? && b.p + i.size == litp + 2 && ip == litp + 2 + lit
       else i.Run? && i.n == lit && b.p + i.size + lit == ip && litp == b.p
  }

  /** The bytes a match stands for. */
  function Bytes(out: seq<Byte>, dist: nat, len: nat): (w: seq<Byte>)
    requires 0 < dist <= |out|
    ensures |w| == len && out + w == CopyMatch(out, dist, len)
  {
    CopyMatch(out, dist, len)[|out|..]
  }

  /** At ip stands a match of n bytes that takes n bytes (or one fewer) and no literals. */
  ghost predicate Replaceable(cur: seq<Byte>, ip: nat, mode: Mode, out: seq<Byte>, dist: nat, len: nat, size: nat)
  {
    && ip + size < |cur| && Parse(cur[ip..], mode) == Copy(len, dist, size)
    && 0 < dist <= |out| && Low(cur[ip + size - 2]) == 0
  }

  lemma MatchStep(cur: seq<Byte>, ip: nat, mode: Mode, out: seq<Byte>, dist: nat, len: nat, size: nat)
    requires Replaceable(cur, ip, mode, out, dist, len, size)
    ensures Step(cur[ip..], mode, out) == Next(size, Top, CopyMatch(out, dist, len))
  {
    hide Parse, CopyMatch;
    assert cur[ip..][size - 2] == cur[ip + size - 2];
    assert cur[ip..][size..size] == [];
  }

  /** Before a byte of 16 or more it makes no difference what went before. */
  lemma ModeFree(s: seq<Byte>, a: Mode, b: Mode, out: seq<Byte>)
    requires s != [] && s[0] >= 16
    ensures Decode(s, a, out) == Decode(s, b, out)
  {
    assert Parse(s, a) == Parse(s, b);
    hide Parse;
    assert Step(s, a, out) == Step(s, b, out);
  }

  // ---- a match becomes literals of the copy before it ----

  function Extended(cur: seq<Byte>, litp: nat, ip: nat, w: seq<Byte>): (r: seq<Byte>)
    requires litp + 2 <= ip && ip + |w| <= |cur|
    ensures |r| == |cur|
  {
    cur[..litp] + [WithLow(cur[litp], 3)] + cur[litp + 1..ip] + w + cur[ip + |w|..]
  }

  lemma CountIn(cur: seq<Byte>, p: nat, litp: nat, n: nat)
    requires p <= litp && litp + 2 <= |cur| && n < 4
    ensures SetCount(cur[p..litp + 2], n) == cur[p..litp] + [WithLow(cur[litp], n), cur[litp + 1]]
  {
    var h := cur[p..litp + 2];
    assert |h| - 2 == litp - p && h[litp - p] == cur[litp];
  }

  lemma ExtendedParts(cur: seq<Byte>, p: nat, litp: nat, ip: nat, w: seq<Byte>)
    requires p <= litp && litp + 2 <= ip && ip + |w| <= |cur|
    ensures var cur' := Extended(cur, litp, ip, w);
            && cur'[..p] == cur[..p] && cur'[ip + |w|..] == cur[ip + |w|..]
            && cur'[p..] == SetCount(cur[p..litp + 2], 3) + ((cur[litp + 2..ip] + w) + cur[ip + |w|..])
            && cur[p..] == cur[p..litp + 2] + (cur[litp + 2..ip] + cur[ip..])
  {
    var pair, behind := [WithLow(cur[litp], 3), cur[litp + 1]], (cur[litp + 2..ip] + w) + cur[ip + |w|..];
    CountIn(cur, p, litp, 3);
    ExtendedIs(cur, litp, ip, w);
    hide Extended, SetCount, WithLow;
    Behead(cur[..litp], p, pair, behind);
    assert cur[..litp][p..] == cur[p..litp] && cur[..litp][..p] == cur[..p];
    Unchanged(cur, p, litp, ip);
  }

  lemma ExtendedIs(cur: seq<Byte>, litp: nat, ip: nat, w: seq<Byte>)
    requires litp + 2 <= ip && ip + |w| <= |cur|
    ensures Extended(cur, litp, ip, w)
         == cur[..litp] + ([WithLow(cur[litp], 3), cur[litp + 1]] + ((cur[litp + 2..ip] + w) + cur[ip + |w|..]))
    ensures Extended(cur, litp, ip, w)[ip + |w|..] == cur[ip + |w|..]
  {
    hide WithLow;
    assert cur[litp + 1..ip] == [cur[litp + 1]] + cur[litp + 2..ip];
  }

  lemma Unchanged(cur: seq<Byte>, p: nat, litp: nat, ip: nat)
    requires p <= litp && litp + 2 <= ip <= |cur|
    ensures cur[p..] == cur[p..litp + 2] + (cur[litp + 2..ip] + cur[ip..])
  {
  }

  lemma Behead(a: seq<Byte>, p: nat, b: seq<Byte>, c: seq<Byte>)
    requires p <= |a|
    ensures (a + (b + c))[p..] == (a[p..] + b) + c && (a + (b + c))[..p] == a[..p]
  {
  }

  /** The copy before ip: what it is, and what it and its literals have put out. */
  lemma BehindCopy(b: Back, cur: seq<Byte>, litp: nat, lit: nat, ip: nat, mode: Mode, out: seq<Byte>) returns (i: Instr)
    requires Behind(b, cur, litp, lit, ip, mode, out) && lit <= 3
    ensures i == Parse(cur[b.p..], b.mode) && i.Copy? && i.size == litp + 2 - b.p && 0 < i.dist <= |b.out|
    ensures out == CopyMatch(b.out, i.dist, i.len) + cur[litp + 2..ip] && b.p > 0
  {
    hide Parse, CopyMatch, Reach;
    i := Parse(cur[b.p..], b.mode);
    var q := i.size;
    assert cur[b.p..][q..ip - b.p] == cur[litp + 2..ip];
  }

  lemma ExtendStep(b: Back, cur: seq<Byte>, litp: nat, lit: nat, ip: nat, mode: Mode, out: seq<Byte>, w: seq<Byte>)
    requires Behind(b, cur, litp, lit, ip, mode, out) && lit + |w| == 3 && w != [] && ip + |w| <= |cur|
    ensures var cur' := Extended(cur, litp, ip, w);
            && Parse(cur'[b.p..], b.mode) == Parse(cur[b.p..], b.mode)
            && Step(cur'[b.p..], b.mode, b.out) == Next(ip + |w| - b.p, AfterShort, out + w)
  {
    hide Parse, CopyMatch, Step, Reach, Extended;
    var i := BehindCopy(b, cur, litp, lit, ip, mode, out);
    BehindCount(b, cur, litp, lit, ip, mode, out);
    hide Behind;
    var h, lits := cur[b.p..litp + 2], cur[litp + 2..ip];
    ExtendedParts(cur, b.p, litp, ip, w);
    hide SetCount;
    CountSet(h, 3, lits + cur[ip..], (lits + w) + cur[ip + |w|..], b.mode);
    var h' := SetCount(h, 3);
    assert (h' + ((lits + w) + cur[ip + |w|..]))[|h| - 2] == h'[|h| - 2];
    CopyStep(h', lits + w, cur[ip + |w|..], b.mode, b.out, i);
    assert CopyMatch(b.out, i.dist, i.len) + (lits + w) == CopyMatch(b.out, i.dist, i.len) + lits + w;
  }

  /** o_m1_a and o_m3_a: a match of n bytes that takes n bytes, between the literals of a copy and
      another match, is written out as literals of that copy. */
  lemma ExtendKeeps(b: Back, cur: seq<Byte>, litp: nat, lit: nat, ip: nat, mode: Mode, out: seq<Byte>, end: Result, dist: nat, n: nat)
    requires Stands(cur, ip, mode, out, end) && Behind(b, cur, litp, lit, ip, mode, out)
    requires Replaceable(cur, ip, mode, out, dist, n, n) && lit + n == 3 && cur[ip + n] >= 16
    ensures var cur', out' := Extended(cur, litp, ip, Bytes(out, dist, n)), CopyMatch(out, dist, n);
            && Stands(cur', ip + n, AfterShort, out', end)
            && Behind(b, cur', litp, 3, ip + n, AfterShort, out')
  {
    hide Parse, CopyMatch, Step, Reach, Decode, Extended, DecodeStream;
    var w, out' := Bytes(out, dist, n), CopyMatch(out, dist, n);
    var cur' := Extended(cur, litp, ip, w);
    MatchAhead(cur, ip, mode, out, end, dist, n, n);
    ModeFree(cur[ip + n..], Top, AfterShort, out');
    ExtendStep(b, cur, litp, lit, ip, mode, out, w);
    var i := BehindCopy(b, cur, litp, lit, ip, mode, out);
    ExtendedParts(cur, b.p, litp, ip, w);
    StandsAgain(cur', b.p, b.mode, b.out, ip + n, AfterShort, out', end);
  }

  /** Behind a match that can be replaced, decoding goes on at the top. */
  lemma MatchAhead(cur: seq<Byte>, ip: nat, mode: Mode, out: seq<Byte>, end: Result, dist: nat, len: nat, size: nat)
    requires Stands(cur, ip, mode, out, end) && Replaceable(cur, ip, mode, out, dist, len, size)
    ensures Decode(cur[ip + size..], Top, CopyMatch(out, dist, len)) == end
  {
    hide Parse, CopyMatch, Step, Reach, DecodeStream;
    MatchStep(cur, ip, mode, out, dist, len, size);
    assert cur[ip..][size..] == cur[ip + size..];
  }

  /** A changed stream that decodes to the same state, with the same bytes ahead, has the same end. */
  lemma StandsAgain(cur: seq<Byte>, p: nat, mode: Mode, out: seq<Byte>, q: nat, mode': Mode, out': seq<Byte>, end: Result)
    requires p < q <= |cur| && Reach(cur[..p], mode, out) && Plain(cur[..p], cur[p..])
    requires Step(cur[p..], mode, out) == Next(q - p, mode', out') && Decode(cur[q..], mode', out') == end
    ensures Stands(cur, q, mode', out', end)
  {
    hide Step, Reach, Decode;
    StepReaches(cur[..p], mode, out, cur[p..]);
    assert cur[..p] + cur[p..][..q - p] == cur[..q];
  }

  lemma BehindCount(b: Back, cur: seq<Byte>, litp: nat, lit: nat, ip: nat, mode: Mode, out: seq<Byte>)
    requires Behind(b, cur, litp, lit, ip, mode, out) && lit <= 3
    ensures b.p <= litp && ip == litp + 2 + lit <= |cur|
  {
  }

  // ---- a match between literals becomes part of one run ----

  lemma ShortRun(s: seq<Byte>)
    requires s != [] && 1 <= s[0] < 16
    ensures Parse(s, Top) == Run(s[0] + 3, 1)
  {
  }

  lemma RunIsThere(s: seq<Byte>, r: nat, out: seq<Byte>, end: Result)
    requires Parse(s, Top) == Run(r + 3, 1) && Decode(s, Top, out) == end && end.Done?
    ensures r + 4 <= |s| && Decode(s[r + 4..], AfterRun, out + s[1..r + 4]) == end
  {
    hide Parse;
    assert Step(s, Top, out).Next?;
  }

  /** A short run at k is all there, and decoding goes on behind it. */
  lemma RunAhead(cur: seq<Byte>, k: nat, out: seq<Byte>, end: Result)
    requires k < |cur| && 1 <= cur[k] < 16 && Decode(cur[k..], Top, out) == end && end.Done?
    ensures k + 4 + cur[k] <= |cur|
    ensures Decode(cur[k + 4 + cur[k]..], AfterRun, out + cur[k + 1..k + 4 + cur[k]]) == end
  {
    var s, r := cur[k..], cur[k] as int;
    ShortRun(s);
    hide Parse;
    RunIsThere(s, r, out, end);
    hide Step, Decode;
    assert s[1..r + 4] == cur[k + 1..k + 4 + r];
    assert s[r + 4..] == cur[k + 4 + r..];
  }

  function MergedRun(cur: seq<Byte>, litp: nat, ip: nat, w: seq<Byte>, c: Byte): (r: seq<Byte>)
    requires litp + 2 <= ip && ip + |w| < |cur|
    ensures |r| == |cur|
  {
    cur[..litp] + [WithLow(cur[litp], 0), cur[litp + 1], c] + cur[litp + 2..ip] + w + cur[ip + |w| + 1..]
  }

  lemma MergedParts(cur: seq<Byte>, p: nat, litp: nat, ip: nat, w: seq<Byte>, c: Byte, q: nat)
    requires p <= litp && litp + 2 <= ip && ip + |w| < q <= |cur|
    ensures var cur', lits := MergedRun(cur, litp, ip, w, c), cur[litp + 2..ip];
            && cur'[..p] == cur[..p] && cur'[q..] == cur[q..]
            && cur'[p..] == SetCount(cur[p..litp + 2], 0) + ([] + cur'[litp + 2..])
            && cur'[litp + 2..] == [c] + ((lits + w + cur[ip + |w| + 1..q]) + cur[q..])
            && cur[p..] == cur[p..litp + 2] + (lits + cur[ip..])
  {
    var cur' := MergedRun(cur, litp, ip, w, c);
    CountIn(cur, p, litp, 0);
    assert cur'[p..litp + 2] == cur[p..litp] + [WithLow(cur[litp], 0), cur[litp + 1]];
    assert cur'[p..] == cur'[p..litp + 2] + cur'[litp + 2..];
    assert cur[ip + |w| + 1..] == cur[ip + |w| + 1..q] + cur[q..];
  }

  /** The copy before ip loses its literals. */
  lemma DropStep(b: Back, cur: seq<Byte>, litp: nat, lit: nat, ip: nat, mode: Mode, out: seq<Byte>, w: seq<Byte>, c: Byte) returns (out0: seq<Byte>)
    requires Behind(b, cur, litp, lit, ip, mode, out) && lit <= 3 && ip + |w| < |cur|
    ensures Step(MergedRun(cur, litp, ip, w, c)[b.p..], b.mode, b.out) == Next(litp + 2 - b.p, Top, out0)
    ensures out == out0 + cur[litp + 2..ip]
  {
    hide Parse, CopyMatch, Step, Reach, MergedRun;
    var i := BehindCopy(b, cur, litp, lit, ip, mode, out);
    BehindCount(b, cur, litp, lit, ip, mode, out);
    hide Behind;
    var h, lits := cur[b.p..litp + 2], cur[litp + 2..ip];
    var rest := MergedRun(cur, litp, ip, w, c)[litp + 2..];
    MergedParts(cur, b.p, litp, ip, w, c, |cur|);
    hide SetCount;
    CountSet(h, 0, lits + cur[ip..], [] + rest, b.mode);
    var h' := SetCount(h, 0);
    assert (h' + ([] + rest))[|h| - 2] == h'[|h| - 2];
    CopyStep(h', [], rest, b.mode, b.out, i);
    out0 := CopyMatch(b.out, i.dist, i.len);
    assert out0 + [] == out0;
  }

  /** Up to the new header the rewritten stream decodes to what the copy alone puts out. */
  lemma MergeHead(b: Back, cur: seq<Byte>, litp: nat, lit: nat, ip: nat, mode: Mode, out: seq<Byte>, w: seq<Byte>, c: Byte) returns (out0: seq<Byte>)
    requires Behind(b, cur, litp, lit, ip, mode, out) && lit <= 3 && ip + |w| < |cur|
    ensures Reach(MergedRun(cur, litp, ip, w, c)[..litp + 2], Top, out0) && out == out0 + cur[litp + 2..ip] && litp + 2 <= ip
  {
    hide Parse, CopyMatch, Step, Reach, MergedRun;
    var cur' := MergedRun(cur, litp, ip, w, c);
    out0 := DropStep(b, cur, litp, lit, ip, mode, out, w, c);
    BehindCount(b, cur, litp, lit, ip, mode, out);
    var i := BehindCopy(b, cur, litp, lit, ip, mode, out);
    MergedParts(cur, b.p, litp, ip, w, c, |cur|);
    StepReaches(cur'[..b.p], b.mode, b.out, cur'[b.p..]);
    assert cur'[..b.p] + cur'[b.p..][..litp + 2 - b.p] == cur'[..litp + 2];
  }

  /** Behind the run the stream goes on as before. */
  lemma MergeTail(cur: seq<Byte>, ip: nat, mode: Mode, out: seq<Byte>, end: Result, dist: nat, n: nat)
    requires Stands(cur, ip, mode, out, end) && end.Done? && Replaceable(cur, ip, mode, out, dist, n, n) && 1 <= cur[ip + n] < 16
    ensures var q := ip + n + 4 + cur[ip + n];
            q <= |cur| && Decode(cur[q..], AfterRun, CopyMatch(out, dist, n) + cur[ip + n + 1..q]) == end
  {
    hide Parse, CopyMatch, Step, Reach, Decode, DecodeStream;
    MatchAhead(cur, ip, mode, out, end, dist, n, n);
    hide Stands;
    RunAhead(cur, ip + n, CopyMatch(out, dist, n), end);
  }

  /** o_m1_b and o_m3_b: a match of n bytes that takes n bytes, between the literals of a copy and a
      run, is written out, and all three become one run. */
  lemma MergeKeeps(b: Back, cur: seq<Byte>, litp: nat, lit: nat, ip: nat, mode: Mode, out: seq<Byte>, end: Result, dist: nat, n: nat)
      returns (b': Back)
    requires Stands(cur, ip, mode, out, end) && Behind(b, cur, litp, lit, ip, mode, out) && end.Done?
    requires Replaceable(cur, ip, mode, out, dist, n, n) && lit <= 3 && 1 <= cur[ip + n] && lit + n + cur[ip + n] < 16
    ensures var c := lit + n + cur[ip + n];
            var cur', q := MergedRun(cur, litp, ip, Bytes(out, dist, n), c), ip + n + 4 + cur[ip + n];
            && q <= |cur|
            && var out' := CopyMatch(out, dist, n) + cur[ip + n + 1..q];
            && Stands(cur', q, AfterRun, out', end)
            && Behind(b', cur', litp + 2, c + 3, q, AfterRun, out')
  {
    hide Parse, CopyMatch, Step, Reach, Decode, MergedRun, DecodeStream, Stands;
    var w := Bytes(out, dist, n);
    var r := cur[ip + n] as int;
    var c: Byte := lit + n + r;
    var cur', q := MergedRun(cur, litp, ip, w, c), ip + n + 4 + r;
    MergeTail(cur, ip, mode, out, end, dist, n);
    BehindCount(b, cur, litp, lit, ip, mode, out);
    var out0 := MergeHead(b, cur, litp, lit, ip, mode, out, w, c);
    hide Behind, Replaceable;
    MergedParts(cur, litp, litp, ip, w, c, q);
    OutJoins(out0, cur[litp + 2..ip], w, cur[ip + n + 1..q]);
    b' := RunBehindIs(cur', litp + 2, c, cur[litp + 2..ip] + w + cur[ip + n + 1..q], cur[q..], out0, q, end);
  }

  /** A run that has been put together stands behind q. */
  lemma RunBehindIs(cur: seq<Byte>, p: nat, c: Byte, lits: seq<Byte>, rest: seq<Byte>, out: seq<Byte>, q: nat, end: Result) returns (b: Back)
    requires 0 < p < q <= |cur| && q == p + 1 + |lits| && 1 <= c < 16 && |lits| == c + 3 && Reach(cur[..p], Top, out)
    requires cur[p..] == [c] + (lits + rest) && cur[q..] == rest && Decode(rest, AfterRun, out + lits) == end
    ensures Stands(cur, q, AfterRun, out + lits, end) && Behind(b, cur, p, c + 3, q, AfterRun, out + lits)
  {
    hide Parse, Step, Reach, Decode;
    RunStep(c, lits, rest, out);
    StandsAgain(cur, p, Top, out, q, AfterRun, out + lits, end);
    b := Back(p, Top, out);
  }

  lemma OutJoins(a: seq<Byte>, b: seq<Byte>, c: seq<Byte>, d: seq<Byte>)
    ensures a + (b + c + d) == a + b + c + d
  {
  }

  // ---- a match between two runs ----

  function Grown(cur: seq<Byte>, litp: nat, ip: nat, w: seq<Byte>, c: Byte): (r: seq<Byte>)
    requires litp < ip && ip + |w| <= |cur|
    ensures |r| == |cur|
  {
    cur[..litp] + [c] + cur[litp + 1..ip] + w + cur[ip + |w|..]
  }

  lemma GrownParts(cur: seq<Byte>, litp: nat, ip: nat, w: seq<Byte>, c: Byte, q: nat)
    requires litp < ip && ip + |w| <= q <= |cur|
    ensures var cur', lits := Grown(cur, litp, ip, w, c), cur[litp + 1..ip];
            && cur'[..litp] == cur[..litp] && cur'[q..] == cur[q..]
            && cur'[litp..] == [c] + ((lits + w + cur[ip + |w|..q]) + cur[q..])
  {
    var cur' := Grown(cur, litp, ip, w, c);
    assert cur[ip + |w|..] == cur[ip + |w|..q] + cur[q..];
  }

  /** A run of fewer than 19 literals has a one-byte header. */
  lemma BehindRun(b: Back, cur: seq<Byte>, litp: nat, lit: nat, ip: nat, mode: Mode, out: seq<Byte>)
    requires Behind(b, cur, litp, lit, ip, mode, out) && 3 < lit < 16
    ensures litp == b.p && b.mode == Top && ip == litp + 1 + lit && out == b.out + cur[litp + 1..ip]
  {
    hide Reach;
    var s := cur[b.p..];
    RunHeader(s);
    hide Parse;
    assert s[1..1 + lit] == cur[litp + 1..ip];
  }

  lemma RunHeader(s: seq<Byte>)
    requires Parse(s, Top).Run? && Parse(s, Top).n < 16
    ensures Parse(s, Top).size == 1
  {
  }

  /** o_m2: a match of three bytes that takes two, between two runs, is written out over itself and
      the second header, and all three become one run. */
  lemma GrowKeeps(b: Back, cur: seq<Byte>, litp: nat, lit: nat, ip: nat, mode: Mode, out: seq<Byte>, end: Result, dist: nat)
      returns (b': Back)
    requires Stands(cur, ip, mode, out, end) && Behind(b, cur, litp, lit, ip, mode, out) && end.Done?
    requires Replaceable(cur, ip, mode, out, dist, 3, 2) && lit > 3 && 1 <= cur[ip + 2] && lit + 3 + cur[ip + 2] < 16
    ensures var c := lit + 3 + cur[ip + 2];
            && ip + 6 + cur[ip + 2] <= |cur|
            && var cur', q := Grown(cur, litp, ip, Bytes(out, dist, 3), c), ip + 6 + cur[ip + 2];
            var out' := CopyMatch(out, dist, 3) + cur[ip + 3..q];
            && Stands(cur', q, AfterRun, out', end)
            && Behind(b', cur', litp, c + 3, q, AfterRun, out')
  {
    hide Parse, CopyMatch, Step, Reach, Decode, Grown, DecodeStream;
    var w, out1 := Bytes(out, dist, 3), CopyMatch(out, dist, 3);
    var r := cur[ip + 2] as int;
    var c: Byte := lit + 3 + r;
    var q := ip + 6 + r;
    MatchAhead(cur, ip, mode, out, end, dist, 3, 2);
    RunAhead(cur, ip + 2, out1, end);
    var cur' := Grown(cur, litp, ip, w, c);
    BehindRun(b, cur, litp, lit, ip, mode, out);
    GrownParts(cur, litp, ip, w, c, q);
    var lits := cur[litp + 1..ip] + w + cur[ip + 3..q];
    RunStep(c, lits, cur[q..], b.out);
    OutJoins(b.out, cur[litp + 1..ip], w, cur[ip + 3..q]);
    StandsAgain(cur', litp, Top, b.out, q, AfterRun, b.out + lits, end);
    b' := b;
  }
}
