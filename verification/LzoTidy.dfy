/** What lzo1x_optimize leaves of a stream's instructions: their number, and no match that should have become literals
    of the copy before it. A stream is scanned instruction by instruction, whatever it puts out. */
module LzoTidy {
  import opened Bits
  import opened Inflate
  import opened Lzo
  import opened LzoRewrite

  /** An instruction with its literals, or the end. */
  datatype Taken = Taken(size: nat, mode: Mode) | Stop

  function Take(s: seq<Byte>, mode: Mode): (t: Taken)
    ensures t.Taken? ==> 1 <= t.size <= |s|
  {
    match Parse(s, mode)
    case Broken => Stop
    case End(_) => Stop
    case Run(n, q) => if q + n <= |s| then Taken(q + n, AfterRun) else Stop
    case Copy(_, _, q) =>
      var nl := Low(s[q - 2]);
      if q + nl <= |s| then Taken(q + nl, if nl == 0 then Top else AfterShort) else Stop
  }

  /** After some instructions: their number; the literals of the copy passed last, -1 if that was a run or there was
      none; whether it is a left-over if a byte of 16 or more follows; whether there was no left-over before. */
  datatype Facts = Facts(count: nat, lit: int, last: bool, tidy: bool)

  /** A match without literals that takes as many bytes as it stands for, behind a copy whose literals it would
      bring to three: three bytes behind none, two bytes behind one. */
  predicate LeftOver(s: seq<Byte>, mode: Mode, lit: int)
  {
    var i := Parse(s, mode);
    i.Copy? && i.len == i.size && Low(s[i.size - 2]) == 0 && lit + i.len == 3 && lit >= 0
  }

  /** One instruction further. */
  function Pass(s: seq<Byte>, mode: Mode, f: Facts): (f': Facts)
    requires s != []
  {
    Facts(f.count + 1,
          if Parse(s, mode).Copy? then Low(s[Parse(s, mode).size - 2]) else -1,
          LeftOver(s, mode, f.lit),
          f.tidy && (f.last ==> s[0] < 16))
  }

  /** What is known of the instructions at the end of s. */
  function Scan(s: seq<Byte>, mode: Mode, f: Facts): (f': Facts)
    decreases |s|
  {
    match Take(s, mode)
    case Stop => if s == [] then f else Pass(s, mode, f)
    case Taken(k, mode') => Scan(s[k..], mode', Pass(s, mode, f))
  }

  const NoFacts := Facts(0, -1, false, true)

  /** The same for a whole stream, behind the literals it may start with. */
  function ScanStream(s: seq<Byte>): (f: Facts)
  {
    if s == [] then NoFacts
    else if s[0] > 17 then
      var t := s[0] - 17;
      if 1 + t <= |s| then Scan(s[1 + t..], if t < 4 then AfterShort else AfterRun, NoFacts) else NoFacts
    else Scan(s, Top, NoFacts)
  }

  /** No left-over anywhere: no match of three bytes that takes three stands without literals between a copy without
      literals and a byte of 16 or more, and no match of two bytes that takes two between a copy with one literal
      and such a byte. */
  predicate Tidy(s: seq<Byte>)
  {
    ScanStream(s).tidy
  }

  /** The number of instructions of a stream. */
  function Instructions(s: seq<Byte>): (n: nat)
  {
    ScanStream(s).count
  }

  /** The instructions ahead. */
  function Count(s: seq<Byte>, mode: Mode): (n: nat)
  {
    Scan(s, mode, NoFacts).count
  }

  lemma {:induction false} ScanAdds(s: seq<Byte>, mode: Mode, f: Facts, g: Facts)
    ensures Scan(s, mode, f).count - f.count == Scan(s, mode, g).count - g.count
    decreases |s|
  {
    hide Parse, LeftOver, Take;
    match Take(s, mode)
    case Stop =>
    case Taken(k, mode') => ScanAdds(s[k..], mode', Pass(s, mode, f), Pass(s, mode, g));
  }

  lemma CountIs(s: seq<Byte>, mode: Mode, f: Facts)
    ensures Scan(s, mode, f).count == f.count + Count(s, mode)
  {
    ScanAdds(s, mode, f, NoFacts);
  }

  lemma CountNext(s: seq<Byte>, mode: Mode)
    requires Take(s, mode).Taken?
    ensures Count(s, mode) == 1 + Count(s[Take(s, mode).size..], Take(s, mode).mode)
  {
    hide Parse, LeftOver, Take;
    CountIs(s[Take(s, mode).size..], Take(s, mode).mode, Pass(s, mode, NoFacts));
  }

  /** Before a byte of 16 or more it makes no difference to the number of instructions what went before. */
  lemma CountModeFree(s: seq<Byte>, a: Mode, b: Mode)
    requires s != [] && s[0] >= 16
    ensures Count(s, a) == Count(s, b)
  {
    assert Parse(s, a) == Parse(s, b);
    hide Parse;
    assert Take(s, a) == Take(s, b) && Pass(s, a, NoFacts).count == Pass(s, b, NoFacts).count;
    match Take(s, a)
    case Stop =>
    case Taken(k, mode') => ScanAdds(s[k..], mode', Pass(s, a, NoFacts), Pass(s, b, NoFacts));
  }

  lemma StepTakes(s: seq<Byte>, mode: Mode, out: seq<Byte>)
    requires Step(s, mode, out).Next?
    ensures Take(s, mode) == Taken(Step(s, mode, out).used, Step(s, mode, out).mode) && s != []
  {
    hide Parse, CopyMatch;
  }

  /** What an instruction takes depends on its own bytes only. */
  lemma TakeAgain(s: seq<Byte>, s': seq<Byte>, mode: Mode, f: Facts)
    requires Take(s, mode).Taken? && Take(s, mode).size <= |s'| && s[..Take(s, mode).size] == s'[..Take(s, mode).size]
    ensures Take(s', mode) == Take(s, mode) && s != [] && s' != [] && Pass(s', mode, f) == Pass(s, mode, f)
  {
    hide Parse;
    var k := Take(s, mode).size;
    var i := Parse(s, mode);
    assert forall j :: 0 <= j < k ==> s[j] == s[..k][j] == s'[j];
    assert s[..i.size] == s[..k][..i.size] == s'[..i.size];
    if i.Run? {
      RunAgain(s, s');
    } else {
      assert s[..i.size - 2] == s'[..i.size - 2];
      CopyAgain(s, s', mode);
    }
  }

  /** Scanning any stream that starts with pre comes to these facts behind pre. */
  ghost predicate FactsReach(pre: seq<Byte>, mode: Mode, f: Facts)
  {
    forall s :: Plain(pre, s) ==> ScanStream(pre + s) == Scan(s, mode, f)
  }

  lemma PassReaches(pre: seq<Byte>, mode: Mode, f: Facts, s: seq<Byte>)
    requires FactsReach(pre, mode, f) && Take(s, mode).Taken? && Plain(pre, s)
    ensures s != [] && FactsReach(pre + s[..Take(s, mode).size], Take(s, mode).mode, Pass(s, mode, f))
  {
    hide Take, ScanStream, Pass;
    var t, f' := Take(s, mode), Pass(s, mode, f);
    var pre' := pre + s[..t.size];
    forall u | Plain(pre', u) ensures ScanStream(pre' + u) == Scan(u, t.mode, f') {
      var s' := s[..t.size] + u;
      assert pre' + u == pre + s' && Plain(pre, s');
      assert ScanStream(pre + s') == Scan(s', mode, f);
      assert s'[..t.size] == s[..t.size] && s'[t.size..] == u;
      TakeAgain(s, s', mode, f);
    }
  }

  lemma FactsStart()
    ensures FactsReach([], Top, NoFacts)
  {
    forall s | Plain([], s) ensures ScanStream([] + s) == Scan(s, Top, NoFacts) {
      assert [] + s == s;
    }
  }

  lemma FactsStartLiterals(first: seq<Byte>)
    requires |first| >= 2 && first[0] == |first| - 1 + 17
    ensures FactsReach(first, if |first| < 5 then AfterShort else AfterRun, NoFacts)
  {
    hide Scan;
    var mode := if |first| < 5 then AfterShort else AfterRun;
    forall u | Plain(first, u) ensures ScanStream(first + u) == Scan(u, mode, NoFacts) {
      var s := first + u;
      assert s[1..|first|] == first[1..] && s[|first|..] == u;
    }
  }

  /** How many instructions a rewrite of the copy in front of s saves, behind lit literals: one when it becomes
      literals of the copy before it, one when it and the short run behind it become one run behind that copy, two
      when they are added to the run before them. */
  function Saved(s: seq<Byte>, mode: Mode, lit: nat): (n: nat)
    requires Parse(s, mode).Copy?
  {
    var i := Parse(s, mode);
    if Low(s[i.size - 2]) != 0 || |s| == i.size then 0
    else if i.len == i.size && lit + i.len == 3 && s[i.size] >= 16 then 1
    else if i.len == i.size && lit <= 3 && s[i.size] > 0 && lit + i.len + s[i.size] < 16 then 1
    else if s[0] >= 64 && i.len == 3 && lit > 3 && s[i.size] > 0 && lit + i.len + s[i.size] < 16 then 2
    else 0
  }

  // ---- the facts behind what the optimiser has passed ----

  /** Nothing is left over so far, the byte at ip considered. */
  predicate TidyAt(cur: seq<Byte>, ip: nat, f: Facts)
    requires ip <= |cur|
  {
    f.tidy && (f.last && ip < |cur| ==> cur[ip] < 16)
  }

  /** f are the facts at ip, and fb those in front of the instruction before it, which b and litp describe. */
  ghost predicate Told(cur: seq<Byte>, ip: nat, mode: Mode, litp: int, b: Back, fb: Facts, f: Facts)
  {
    && ip <= |cur| && FactsReach(cur[..ip], mode, f) && TidyAt(cur, ip, f)
    && (litp < 0 ==> f.lit == -1)
    && (litp >= 0 ==>
          && b.p < ip && FactsReach(cur[..b.p], b.mode, fb) && TidyAt(cur, b.p, fb)
          && Take(cur[b.p..], b.mode) == Taken(ip - b.p, mode) && f == Pass(cur[b.p..], b.mode, fb))
  }

  /** The literals of the copy passed last are those that lit counts. */
  lemma LitTold(cur: seq<Byte>, ip: nat, mode: Mode, out: seq<Byte>, litp: nat, lit: nat, b: Back, fb: Facts, f: Facts)
    requires Told(cur, ip, mode, litp, b, fb, f) && Behind(b, cur, litp, lit, ip, mode, out)
    ensures f.lit == if lit <= 3 then lit else -1
  {
    hide Parse, CopyMatch, Reach, FactsReach, LeftOver;
  }

  /** The instruction at p, in a stream that is the same up to p, leads to q. */
  lemma ToldBehind(cur: seq<Byte>, cur': seq<Byte>, b: Back, fb: Facts, q: nat, mode: Mode, litp: nat)
    requires b.p < q <= |cur'| && b.p < |cur| && cur'[..b.p] == cur[..b.p] && FactsReach(cur[..b.p], b.mode, fb) && TidyAt(cur, b.p, fb)
    requires cur[b.p] < 16 ==> cur'[b.p] < 16
    requires Plain(cur'[..b.p], cur'[b.p..]) && Take(cur'[b.p..], b.mode) == Taken(q - b.p, mode)
    requires LeftOver(cur'[b.p..], b.mode, fb.lit) && q < |cur'| ==> cur'[q] < 16
    ensures Told(cur', q, mode, litp, b, fb, Pass(cur'[b.p..], b.mode, fb))
  {
    hide FactsReach, Take, Parse, LeftOver, Pass;
    PassReaches(cur'[..b.p], b.mode, fb, cur'[b.p..]);
    PassTidy(cur'[b.p..], b.mode, fb);
    assert cur'[..b.p] + cur'[b.p..][..q - b.p] == cur'[..q];
    assert cur'[b.p..][0] == cur'[b.p];
  }

  lemma PassTidy(s: seq<Byte>, mode: Mode, f: Facts)
    requires s != []
    ensures Pass(s, mode, f).tidy == (f.tidy && (f.last ==> s[0] < 16))
    ensures Pass(s, mode, f).last == LeftOver(s, mode, f.lit) && Pass(s, mode, f).count == f.count + 1
  {
  }

  /** An instruction that stays as it is. */
  lemma ToldNext(cur: seq<Byte>, ip: nat, mode: Mode, out: seq<Byte>, litp: int, b: Back, fb: Facts, f: Facts, q: nat, mode': Mode, litp': nat)
    requires Told(cur, ip, mode, litp, b, fb, f) && Plain(cur[..ip], cur[ip..]) && ip < q <= |cur|
    requires Take(cur[ip..], mode) == Taken(q - ip, mode')
    requires LeftOver(cur[ip..], mode, f.lit) && q < |cur| ==> cur[q] < 16
    ensures var f' := Pass(cur[ip..], mode, f);
            && Told(cur, q, mode', litp', Back(ip, mode, out), f, f')
            && f'.count + Count(cur[q..], mode') == f.count + Count(cur[ip..], mode)
  {
    ToldBehind(cur, cur, Back(ip, mode, out), f, q, mode', litp');
    CountNext(cur[ip..], mode);
    hide FactsReach, Take, Scan;
    assert cur[ip..][q - ip..] == cur[q..];
  }

  lemma SameHalf(a: Byte, n: nat)
    requires n < 4
    ensures a < 16 <==> WithLow(a, n) < 16
  {
  }

  /** The first byte of the copy before ip stays on its side of 16 when the count is set. */
  lemma CopyFirstByte(cur: seq<Byte>, cur': seq<Byte>, p: nat, litp: nat, n: nat)
    requires p <= litp < |cur| && |cur'| == |cur| && n < 4 && cur'[..litp] == cur[..litp] && cur'[litp] == WithLow(cur[litp], n)
    ensures cur[p] < 16 ==> cur'[p] < 16
  {
    if p < litp {
      assert cur'[..litp][p] == cur[..litp][p];
    } else {
      SameHalf(cur[p], n);
    }
  }

  lemma ExtendedBytes(cur: seq<Byte>, litp: nat, ip: nat, w: seq<Byte>)
    requires litp + 2 <= ip && ip + |w| < |cur|
    ensures var cur' := Extended(cur, litp, ip, w);
            cur'[..litp] == cur[..litp] && cur'[litp] == WithLow(cur[litp], 3) && cur'[ip + |w|] == cur[ip + |w|] && cur'[ip + |w|..] == cur[ip + |w|..]
  {
  }

  /** The match has become literals of the copy before it: one instruction fewer. */
  lemma ExtendTold(cur: seq<Byte>, ip: nat, mode: Mode, out: seq<Byte>, litp: nat, lit: nat, b: Back, fb: Facts, f: Facts, dist: nat, n: nat, w: seq<Byte>)
    requires Told(cur, ip, mode, litp, b, fb, f) && Behind(b, cur, litp, lit, ip, mode, out)
    requires Replaceable(cur, ip, mode, out, dist, n, n) && lit + n == 3 && |w| == n > 0 && cur[ip + n] >= 16
    ensures var cur' := Extended(cur, litp, ip, w);
            b.p < |cur'| && var f' := Pass(cur'[b.p..], b.mode, fb);
            && Told(cur', ip + n, AfterShort, litp, b, fb, f')
            && f'.count + Count(cur'[ip + n..], AfterShort) + 1 == f.count + Count(cur[ip..], mode)
  {
    hide Parse, CopyMatch, Step, Reach, Extended, FactsReach, Take, Scan, Replaceable, LeftOver, Pass;
    MatchTaken(cur, ip, mode, out, dist, n, n);
    var cur' := Extended(cur, litp, ip, w);
    CountModeFree(cur[ip + n..], Top, AfterShort);
    ExtendTaken(cur, ip, mode, out, litp, lit, b, w);
    ThreeLiterals(cur'[b.p..], b.mode, fb.lit);
    PassTidy(cur'[b.p..], b.mode, fb);
    PassTidy(cur[b.p..], b.mode, fb);
    ExtendedBytes(cur, litp, ip, w);
    hide Behind;
    ToldBehind(cur, cur', b, fb, ip + n, AfterShort, litp);
  }

  /** The copy with its new literals. */
  lemma ExtendTaken(cur: seq<Byte>, ip: nat, mode: Mode, out: seq<Byte>, litp: nat, lit: nat, b: Back, w: seq<Byte>)
    requires Behind(b, cur, litp, lit, ip, mode, out) && lit + |w| == 3 && w != [] && ip + |w| < |cur|
    ensures var cur' := Extended(cur, litp, ip, w);
            && b.p < |cur| && cur'[..b.p] == cur[..b.p] && (cur[b.p] < 16 ==> cur'[b.p] < 16) && Plain(cur'[..b.p], cur'[b.p..])
            && Parse(cur'[b.p..], b.mode).Copy? && Take(cur'[b.p..], b.mode) == Taken(Parse(cur'[b.p..], b.mode).size + 3, AfterShort)
            && b.p + Parse(cur'[b.p..], b.mode).size + 3 == ip + |w|
  {
    hide Parse, CopyMatch, Step, Reach, Extended, Take;
    var cur' := Extended(cur, litp, ip, w);
    ExtendStep(b, cur, litp, lit, ip, mode, out, w);
    StepTakes(cur'[b.p..], b.mode, b.out);
    var i := BehindCopy(b, cur, litp, lit, ip, mode, out);
    BehindCount(b, cur, litp, lit, ip, mode, out);
    hide Behind;
    ExtendedBytes(cur, litp, ip, w);
    ExtendedParts(cur, b.p, litp, ip, w);
    CopyFirstByte(cur, cur', b.p, litp, 3);
  }

  /** With three literals behind it a copy is not left over. */
  lemma ThreeLiterals(s: seq<Byte>, mode: Mode, lit: int)
    requires Parse(s, mode).Copy? && Take(s, mode) == Taken(Parse(s, mode).size + 3, AfterShort)
    ensures !LeftOver(s, mode, lit)
  {
    hide Parse;
  }

  /** The match is one instruction. */
  lemma MatchTaken(cur: seq<Byte>, ip: nat, mode: Mode, out: seq<Byte>, dist: nat, len: nat, size: nat)
    requires Replaceable(cur, ip, mode, out, dist, len, size)
    ensures ip + size < |cur| && Count(cur[ip..], mode) == 1 + Count(cur[ip + size..], Top)
  {
    hide Parse, CopyMatch, Scan;
    MatchStep(cur, ip, mode, out, dist, len, size);
    StepTakes(cur[ip..], mode, out);
    CountNext(cur[ip..], mode);
    assert cur[ip..][size..] == cur[ip + size..];
  }

  // ---- merged and grown runs ----

  lemma ShortRunTaken(s: seq<Byte>)
    requires s != [] && 1 <= s[0] < 16 && s[0] + 4 <= |s|
    ensures Take(s, Top) == Taken(s[0] + 4, AfterRun) && forall lit :: !LeftOver(s, Top, lit)
  {
    ShortRun(s);
    hide Parse;
  }

  /** A short run that has been put together stands at p. */
  lemma RunTold(cur: seq<Byte>, p: nat, litp: int, b: Back, fb: Facts, f: Facts, q: nat, b': Back)
    requires Told(cur, p, Top, litp, b, fb, f) && p < q <= |cur| && 1 <= cur[p] < 16 && q == p + cur[p] + 4 && Plain(cur[..p], cur[p..])
    requires b'.p == p && b'.mode == Top
    ensures var f' := Pass(cur[p..], Top, f);
            && Told(cur, q, AfterRun, p, b', f, f') && f'.count == f.count + 1
            && Count(cur[p..], Top) == 1 + Count(cur[q..], AfterRun)
  {
    assert cur[p..][0] == cur[p];
    ShortRunTaken(cur[p..]);
    CountNext(cur[p..], Top);
    assert cur[p..][q - p..] == cur[q..];
    hide FactsReach, Take, LeftOver, Parse, Scan;
    ToldBehind(cur, cur, b', f, q, AfterRun, p);
    PassTidy(cur[p..], Top, f);
  }

  /** The match and the short run behind it are two instructions. */
  lemma MatchAndRunTaken(cur: seq<Byte>, ip: nat, mode: Mode, out: seq<Byte>, dist: nat, len: nat, size: nat, q: nat)
    requires Replaceable(cur, ip, mode, out, dist, len, size)
    requires 1 <= cur[ip + size] < 16 && q == ip + size + cur[ip + size] + 4 <= |cur|
    ensures Count(cur[ip..], mode) == 2 + Count(cur[q..], AfterRun)
  {
    hide Parse, Scan, LeftOver;
    MatchTaken(cur, ip, mode, out, dist, len, size);
    var s := cur[ip + size..];
    assert s[0] == cur[ip + size] && s[s[0] + 4..] == cur[q..];
    ShortRunTaken(s);
    CountNext(s, Top);
  }

  /** The copy before ip, without its literals, and the new header. */
  lemma DropTaken(cur: seq<Byte>, ip: nat, mode: Mode, out: seq<Byte>, litp: nat, lit: nat, b: Back, w: seq<Byte>, c: Byte)
    requires Behind(b, cur, litp, lit, ip, mode, out) && lit <= 3 && ip + |w| < |cur| && litp + 2 <= ip
    ensures var cur' := MergedRun(cur, litp, ip, w, c);
            && b.p < |cur| && cur'[..b.p] == cur[..b.p] && (cur[b.p] < 16 ==> cur'[b.p] < 16)
            && Plain(cur'[..b.p], cur'[b.p..]) && b.p < litp + 2 && Take(cur'[b.p..], b.mode) == Taken(litp + 2 - b.p, Top)
            && cur'[litp + 2] == c && Plain(cur'[..litp + 2], cur'[litp + 2..])
  {
    hide Parse, CopyMatch, Step, Reach, MergedRun, Take;
    var cur' := MergedRun(cur, litp, ip, w, c);
    var out0 := DropStep(b, cur, litp, lit, ip, mode, out, w, c);
    StepTakes(cur'[b.p..], b.mode, b.out);
    BehindCount(b, cur, litp, lit, ip, mode, out);
    MergedBytes(cur, b.p, litp, ip, w, c);
    CopyFirstByte(cur, cur', b.p, litp, 0);
    DropPlain(cur, cur', b, litp, lit, ip, mode, out);
  }

  lemma MergedBytes(cur: seq<Byte>, p: nat, litp: nat, ip: nat, w: seq<Byte>, c: Byte)
    requires p <= litp && litp + 2 <= ip && ip + |w| < |cur|
    ensures var cur' := MergedRun(cur, litp, ip, w, c);
            && cur'[..litp] == cur[..litp] && cur'[litp] == WithLow(cur[litp], 0) && cur'[litp + 2] == c
            && cur'[..p] == cur[..p]
  {
  }

  lemma DropPlain(cur: seq<Byte>, cur': seq<Byte>, b: Back, litp: nat, lit: nat, ip: nat, mode: Mode, out: seq<Byte>)
    requires Behind(b, cur, litp, lit, ip, mode, out) && lit <= 3 && |cur'| == |cur| && cur'[..b.p] == cur[..b.p]
    requires cur[b.p] < 16 ==> cur'[b.p] < 16
    ensures Plain(cur'[..b.p], cur'[b.p..]) && Plain(cur'[..litp + 2], cur'[litp + 2..])
  {
    hide Parse, CopyMatch, Step, Reach;
    var i := BehindCopy(b, cur, litp, lit, ip, mode, out);
  }

  /** Copy literals, match and run have become one run: one instruction fewer. */
  lemma MergeTold(cur: seq<Byte>, ip: nat, mode: Mode, out: seq<Byte>, litp: nat, lit: nat, b: Back, fb: Facts, f: Facts, dist: nat, n: nat, w: seq<Byte>, c: Byte, q: nat, b': Back)
    requires Told(cur, ip, mode, litp, b, fb, f) && Behind(b, cur, litp, lit, ip, mode, out) && lit <= 3 && litp + 2 <= ip
    requires Replaceable(cur, ip, mode, out, dist, n, n) && |w| == n && 1 <= cur[ip + n] && c == lit + n + cur[ip + n] < 16
    requires q == ip + n + 4 + cur[ip + n] <= |cur| && b'.p == litp + 2 && b'.mode == Top
    ensures var cur' := MergedRun(cur, litp, ip, w, c);
            b.p < |cur'| && litp + 2 < |cur'| && var f1 := Pass(cur'[b.p..], b.mode, fb); var f' := Pass(cur'[litp + 2..], Top, f1);
            && Told(cur', q, AfterRun, litp + 2, b', f1, f')
            && f'.count + Count(cur'[q..], AfterRun) + 1 == f.count + Count(cur[ip..], mode)
  {
    hide Parse, CopyMatch, Step, Reach, MergedRun, FactsReach, Take, Scan, LeftOver, Pass;
    var cur' := MergedRun(cur, litp, ip, w, c);
    MatchAndRunTaken(cur, ip, mode, out, dist, n, n, q);
    DropTaken(cur, ip, mode, out, litp, lit, b, w, c);
    BehindCount(b, cur, litp, lit, ip, mode, out);
    MergedParts(cur, b.p, litp, ip, w, c, q);
    hide Behind, Replaceable;
    var f1 := Pass(cur'[b.p..], b.mode, fb);
    ToldBehind(cur, cur', b, fb, litp + 2, Top, litp);
    PassTidy(cur'[b.p..], b.mode, fb);
    PassTidy(cur[b.p..], b.mode, fb);
    RunTold(cur', litp + 2, litp, b, fb, f1, q, b');
  }

  lemma GrownBytes(cur: seq<Byte>, litp: nat, ip: nat, w: seq<Byte>, c: Byte, q: nat)
    requires litp < ip && ip + |w| <= q <= |cur|
    ensures var cur' := Grown(cur, litp, ip, w, c);
            cur'[..litp] == cur[..litp] && cur'[litp] == c && cur'[q..] == cur[q..]
  {
  }

  /** Run, match and run have become one run: two instructions fewer. */
  lemma GrowTold(cur: seq<Byte>, ip: nat, mode: Mode, out: seq<Byte>, litp: nat, lit: nat, b: Back, fb: Facts, f: Facts, dist: nat, w: seq<Byte>, c: Byte, q: nat, b': Back)
    requires Told(cur, ip, mode, litp, b, fb, f) && Behind(b, cur, litp, lit, ip, mode, out) && lit > 3
    requires Replaceable(cur, ip, mode, out, dist, 3, 2) && |w| == 3 && 1 <= cur[ip + 2] && c == lit + 3 + cur[ip + 2] < 16
    requires q == ip + 6 + cur[ip + 2] <= |cur| && b'.p == litp && b'.mode == Top
    ensures litp < ip && ip + 3 <= |cur|
    ensures var cur' := Grown(cur, litp, ip, w, c); var f' := Pass(cur'[litp..], Top, fb);
            && Told(cur', q, AfterRun, litp, b', fb, f')
            && f'.count + Count(cur'[q..], AfterRun) + 2 == f.count + Count(cur[ip..], mode)
  {
    hide Parse, CopyMatch, Step, Reach, Grown, FactsReach, Take, Scan, LeftOver, Pass;
    MatchAndRunTaken(cur, ip, mode, out, dist, 3, 2, q);
    BehindRun(b, cur, litp, lit, ip, mode, out);
    BehindPlain(b, cur, litp, lit, ip, mode, out);
    hide Behind, Replaceable;
    var cur' := Grown(cur, litp, ip, w, c);
    GrownBytes(cur, litp, ip, w, c, q);
    assert cur'[litp..][0] == c;
    ShortRunTaken(cur'[litp..]);
    ToldBehind(cur, cur', b', fb, q, AfterRun, litp);
    PassTidy(cur'[litp..], Top, fb);
    PassTidy(cur[litp..], Top, fb);
  }

  lemma BehindPlain(b: Back, cur: seq<Byte>, litp: nat, lit: nat, ip: nat, mode: Mode, out: seq<Byte>)
    requires Behind(b, cur, litp, lit, ip, mode, out) && lit > 3
    ensures litp == b.p && b.mode == Top && litp < |cur| && cur[litp] < 16 && ip == litp + Parse(cur[litp..], Top).size + lit
  {
    hide Reach;
    RunFirstByte(cur[b.p..], b.mode);
    hide Parse;
    assert cur[b.p..][0] == cur[b.p];
  }

  lemma RunFirstByte(s: seq<Byte>, mode: Mode)
    requires Parse(s, mode).Run?
    ensures mode == Top && s != [] && s[0] < 16
  {
  }
}
