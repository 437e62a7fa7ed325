/** lzo1x_optimize: rewrites a compressed stream in place while decoding it. */
module LzoOptimize {
  import opened Bits
  import opened Inflate
  import opened Lzo
  import opened LzoRewrite
  import opened LzoTidy

  // ---- reading ----

  /** A length continued over zero bytes; `at` is relative to the instruction at ip. */
  method LongAt(inp: array<Byte>, ip: nat, at: nat, base: nat) returns (t: nat, q: nat)
    requires ip <= inp.Length && ReadLong(inp[ip..], at, base).Long?
    ensures ReadLong(inp[ip..], at, base) == Long(t, q) && ip + q <= inp.Length
  {
    t, q := base, at;
    ghost var s := inp[ip..];
    while inp[ip + q] == 0
      invariant at <= q < |s| && ReadLong(s, q, t) == ReadLong(s, at, base)
      decreases |s| - q
    {
      t, q := t + 255, q + 1;
    }
    t, q := t + inp[ip + q], q + 1;
  }

  method ReadLengthAt(inp: array<Byte>, ip: nat, low: nat, base: nat) returns (t: nat, q: nat)
    requires ip < inp.Length && ReadLength(inp[ip..], low, base).Long?
    ensures ReadLength(inp[ip..], low, base) == Long(t, q) && ip + q <= inp.Length
  {
    t, q := low, 1;
    if low == 0 {
      t, q := LongAt(inp, ip, 1, base);
    }
  }

  /** The instruction at ip. */
  method ParseAt(inp: array<Byte>, ip: nat, mode: Mode) returns (i: Instr)
    requires ip < inp.Length && Parse(inp[ip..], mode) != Broken
    ensures i == Parse(inp[ip..], mode)
  {
    hide ReadLong;
    var t: int := inp[ip];
    ghost var s := inp[ip..];
    assert s[0] == t;
    if t >= 64 {
      assert s[1] == inp[ip + 1];
      return Copy(t / 32 - 1 + 2, Dist(1, t / 4 % 8, 8 * (inp[ip + 1] as int)), 2);
    } else if t >= 16 {
      var m3 := t >= 32;
      var len, q := ReadLengthAt(inp, ip, if m3 then t % 32 else t % 8, if m3 then 31 else 7);
      assert s[q] == inp[ip + q] && s[q + 1] == inp[ip + q + 1];
      if m3 {
        return Copy(len + 2, Dist(1, inp[ip + q] / 4, 64 * (inp[ip + q + 1] as int)), q + 2);
      }
      var d := Dist(16384 * (t / 8 % 2), inp[ip + q] / 4, 64 * (inp[ip + q + 1] as int));
      return if d == 0 then End(q + 2) else Copy(len + 2, d + 16384, q + 2);
    } else if mode == Top {
      var n, q := ReadLengthAt(inp, ip, t, 15);
      return Run(n + 3, q);
    }
    assert s[1] == inp[ip + 1];
    var far := 4 * (inp[ip + 1] as int);
    return if mode == AfterRun then Copy(3, Dist(0x801, t / 4, far), 2) else Copy(2, Dist(1, t / 4, far), 2);
  }

  // ---- writing ----

  method CopyLiterals(inp: array<Byte>, ip: nat, out: array<Byte>, op: nat, n: nat)
    requires inp != out && ip + n <= inp.Length && op + n <= out.Length
    modifies out
    ensures out[..op + n] == old(out[..op]) + inp[ip..ip + n]
  {
    var k := 0;
    while k < n
      invariant 0 <= k <= n && out[..op + k] == old(out[..op]) + inp[ip..ip + k]
    {
      out[op + k] := inp[ip + k];
      assert out[..op + k + 1] == out[..op + k] + [inp[ip + k]];
      k := k + 1;
    }
  }

  lemma CopyMatchNext(out: seq<Byte>, dist: nat, len: nat)
    requires 0 < dist <= |out|
    ensures CopyMatch(out, dist, len) == if len == 0 then out else CopyMatch(out + [out[|out| - dist]], dist, len - 1)
  {
  }

  method CopyOut(out: array<Byte>, op: nat, dist: nat, len: nat)
    requires 0 < dist <= op && op + len <= out.Length
    modifies out
    ensures out[..op + len] == CopyMatch(old(out[..op]), dist, len)
  {
    hide CopyMatch;
    var k := 0;
    ghost var o := out[..op];
    while k < len
      invariant 0 <= k <= len && CopyMatch(out[..op + k], dist, len - k) == CopyMatch(o, dist, len)
    {
      ghost var before := out[..op + k];
      CopyMatchNext(before, dist, len - k);
      out[op + k] := out[op + k - dist];
      assert out[..op + k + 1] == before + [before[|before| - dist]];
      k := k + 1;
    }
    CopyMatchNext(out[..op + len], dist, 0);
  }

  lemma BytesAre(out: seq<Byte>, dist: nat)
    requires 0 < dist <= |out|
    ensures var n := |out|;
            && Bytes(out, dist, 2) == [out[n - dist], if dist == 1 then out[n - 1] else out[n - dist + 1]]
            && Bytes(out, dist, 3) == (if dist == 1 then [out[n - 1], out[n - 1], out[n - 1]]
                                       else if dist == 2 then [out[n - 2], out[n - 1], out[n - 2]]
                                       else [out[n - dist], out[n - dist + 1], out[n - dist + 2]])
  {
    var n := |out|;
    var a := out + [out[n - dist]];
    var b := a + [a[n + 1 - dist]];
    var c := b + [b[n + 2 - dist]];
    assert CopyMatch(b, dist, 0) == b && CopyMatch(c, dist, 0) == c;
    assert CopyMatch(b, dist, 1) == c;
    assert CopyMatch(a, dist, 1) == b;
    assert CopyMatch(a, dist, 2) == c;
    assert CopyMatch(out, dist, 2) == b && CopyMatch(out, dist, 3) == c;
  }

  /** copy2 */
  method Copy2(inp: array<Byte>, at: nat, out: array<Byte>, m: nat, off: nat)
    requires inp != out && at + 2 <= inp.Length && off > 0 && m + off <= out.Length
    modifies inp
    ensures inp[..] == old(inp[..at]) + Bytes(out[..m + off], off, 2) + old(inp[at + 2..])
  {
    hide Bytes, CopyMatch;
    BytesAre(out[..m + off], off);
    inp[at] := out[m];
    if off == 1 {
      inp[at + 1] := out[m];
    } else {
      inp[at + 1] := out[m + 1];
    }
  }

  /** copy3 */
  method Copy3(inp: array<Byte>, at: nat, out: array<Byte>, m: nat, off: nat)
    requires inp != out && at + 3 <= inp.Length && off > 0 && m + off <= out.Length
    modifies inp
    ensures inp[..] == old(inp[..at]) + Bytes(out[..m + off], off, 3) + old(inp[at + 3..])
  {
    hide Bytes, CopyMatch;
    BytesAre(out[..m + off], off);
    inp[at] := out[m];
    if off == 1 {
      inp[at + 2], inp[at + 1] := out[m], out[m];
    } else if off == 2 {
      inp[at + 1] := out[m + 1];
      inp[at + 2] := out[m];
    } else {
      inp[at + 1] := out[m + 1];
      inp[at + 2] := out[m + 2];
    }
  }

  /** Writes the two or three bytes of a match over the stream. */
  method PutBytes(inp: array<Byte>, at: nat, out: array<Byte>, op: nat, dist: nat, n: nat)
    requires inp != out && 2 <= n <= 3 && at + n <= inp.Length && 0 < dist <= op <= out.Length
    modifies inp
    ensures inp[..] == old(inp[..at]) + Bytes(out[..op], dist, n) + old(inp[at + n..])
  {
    hide CopyMatch, Bytes;
    assert op - dist + dist == op;
    if n == 2 {
      Copy2(inp, at, out, op - dist, dist);
    } else {
      Copy3(inp, at, out, op - dist, dist);
    }
  }

  /** o_m1_a, o_m3_a */
  method Extend(inp: array<Byte>, litp: nat, ip: nat, out: array<Byte>, op: nat, dist: nat, n: nat)
    requires inp != out && 2 <= n <= 3 && litp + 2 <= ip && ip + n <= inp.Length && 0 < dist <= op <= out.Length
    modifies inp
    ensures inp[..] == Extended(old(inp[..]), litp, ip, Bytes(out[..op], dist, n))
  {
    hide CopyMatch, Bytes;
    ghost var cur := inp[..];
    inp[litp] := WithLow(inp[litp], 3);
    assert inp[..ip] == cur[..litp] + [WithLow(cur[litp], 3)] + cur[litp + 1..ip] && inp[ip + n..] == cur[ip + n..];
    PutBytes(inp, ip, out, op, dist, n);
  }

  /** memmove(at + 1, at, n) */
  method MoveUp(inp: array<Byte>, at: nat, n: nat)
    requires at + n < inp.Length
    modifies inp
    ensures inp[..] == old(inp[..at + 1]) + old(inp[at..at + n]) + old(inp[at + n + 1..])
  {
    var k := n;
    while k > 0
      invariant 0 <= k <= n
      invariant forall j :: 0 <= j <= at + k && j < inp.Length ==> inp[j] == old(inp[j])
      invariant forall j :: at + k < j <= at + n ==> inp[j] == old(inp[j - 1])
      invariant forall j :: at + n < j < inp.Length ==> inp[j] == old(inp[j])
    {
      inp[at + k] := inp[at + k - 1];
      k := k - 1;
    }
  }

  /** o_m1_b, o_m3_b */
  method Merge(inp: array<Byte>, litp: nat, ip: nat, out: array<Byte>, op: nat, dist: nat, n: nat, c: Byte)
    requires inp != out && 2 <= n <= 3 && litp + 2 <= ip && ip + n < inp.Length && 0 < dist <= op <= out.Length
    modifies inp
    ensures inp[..] == MergedRun(old(inp[..]), litp, ip, Bytes(out[..op], dist, n), c)
  {
    hide CopyMatch, Bytes, MergedRun, WithLow;
    ghost var cur, w := inp[..], Bytes(out[..op], dist, n);
    inp[litp] := WithLow(inp[litp], 0);
    ghost var low := inp[..];
    assert low == cur[litp := WithLow(cur[litp], 0)];
    PutBytes(inp, ip + 1, out, op, dist, n);
    ghost var mid := inp[..];
    assert mid == low[..ip + 1] + w + low[ip + 1 + |w|..];
    MoveUp(inp, litp + 2, ip - litp - 2);
    ghost var moved := inp[..];
    assert moved == mid[..litp + 3] + mid[litp + 2..ip] + mid[ip + 1..];
    inp[litp + 2] := c;
    assert inp[..] == moved[litp + 2 := c];
    MergedRunIs(cur, low, mid, moved, inp[..], litp, ip, w, c);
  }

  lemma MergedRunIs(cur: seq<Byte>, low: seq<Byte>, mid: seq<Byte>, moved: seq<Byte>, last: seq<Byte>, litp: nat, ip: nat, w: seq<Byte>, c: Byte)
    requires litp + 2 <= ip && ip + |w| < |cur| && low == cur[litp := WithLow(cur[litp], 0)]
    requires mid == low[..ip + 1] + w + low[ip + 1 + |w|..]
    requires moved == mid[..litp + 3] + mid[litp + 2..ip] + mid[ip + 1..] && last == moved[litp + 2 := c]
    ensures last == MergedRun(cur, litp, ip, w, c)
  {
    var r := MergedRun(cur, litp, ip, w, c);
    forall j | 0 <= j < |cur| ensures last[j] == r[j] {
      if j > litp + 2 {
        assert j <= ip ==> moved[j] == mid[j - 1];
      }
    }
  }

  /** o_m2 */
  method Grow(inp: array<Byte>, litp: nat, ip: nat, out: array<Byte>, op: nat, dist: nat, c: Byte)
    requires inp != out && litp < ip && ip + 3 <= inp.Length && 0 < dist <= op <= out.Length
    modifies inp
    ensures inp[..] == Grown(old(inp[..]), litp, ip, Bytes(out[..op], dist, 3), c)
  {
    hide CopyMatch, Bytes;
    ghost var cur := inp[..];
    PutBytes(inp, ip, out, op, dist, 3);
    inp[litp] := c;
    assert inp[..ip] == cur[..litp] + [c] + cur[litp + 1..ip];
    assert inp[..] == inp[..ip] + inp[ip..];
  }

  // ---- one instruction ----

  /** What has been put out is never taken back. */
  lemma {:induction false} DecodeGrows(s: seq<Byte>, mode: Mode, out: seq<Byte>)
    requires Decode(s, mode, out).Done?
    ensures |out| <= |Decode(s, mode, out).out|
    decreases |s|
  {
    hide Parse, CopyMatch;
    match Step(s, mode, out)
    case Next(k, mode', out') =>
      assert |out| <= |out'|;
      DecodeGrows(s[k..], mode', out');
    case _ =>
  }

  /** What decodes has a whole instruction in front. */
  lemma StepKinds(s: seq<Byte>, mode: Mode, out: seq<Byte>)
    requires Decode(s, mode, out).Done?
    ensures var i, r := Parse(s, mode), Step(s, mode, out);
            && s != [] && i != Broken
            && (if i.End? then Decode(s, mode, out) == Done(out, |s| - i.size) else r.Next?)
  {
    assert s == [] ==> Parse(s, mode) == Broken;
    hide Parse, CopyMatch;
  }

  lemma CopyBounds(s: seq<Byte>, mode: Mode, out: seq<Byte>, i: Instr)
    requires i == Parse(s, mode) && i.Copy? && Step(s, mode, out).Next?
    ensures i.dist <= |out| && i.size + Low(s[i.size - 2]) <= |s|
  {
    hide Parse, CopyMatch;
  }

  lemma CopyFacts(s: seq<Byte>, mode: Mode, out: seq<Byte>, i: Instr) returns (lits: seq<Byte>)
    requires i == Parse(s, mode) && i.Copy? && Step(s, mode, out).Next?
    ensures i.dist <= |out| && |lits| == Low(s[i.size - 2]) && i.size + |lits| <= |s| && lits == s[i.size..i.size + |lits|]
    ensures Step(s, mode, out) == Next(i.size + |lits|, if lits == [] then Top else AfterShort, CopyMatch(out, i.dist, i.len) + lits)
  {
    hide Parse, CopyMatch, Step;
    CopyBounds(s, mode, out, i);
    lits := s[i.size..i.size + Low(s[i.size - 2])];
    StepOfCopy(s, mode, out, lits);
  }

  /** A stream that decodes has a whole instruction at ip, and room for what it puts out. */
  lemma InstrAhead(cur: seq<Byte>, ip: nat, mode: Mode, out: seq<Byte>, end: Result)
    requires Stands(cur, ip, mode, out, end) && end.Done?
    ensures ip < |cur| && Parse(cur[ip..], mode) != Broken && |out| <= |end.out|
    ensures var i, r := Parse(cur[ip..], mode), Step(cur[ip..], mode, out);
            if i.End? then end == Done(out, |cur| - ip - i.size)
            else r.Next? && ip + r.used <= |cur| && |r.out| <= |end.out| && Stands(cur, ip + r.used, r.mode, r.out, end)
  {
    hide Parse, Step, Decode, CopyMatch, Reach, DecodeStream;
    StepKinds(cur[ip..], mode, out);
    DecodeGrows(cur[ip..], mode, out);
    if !Parse(cur[ip..], mode).End? {
      StandsNext(cur, ip, mode, out, end);
      var r := Step(cur[ip..], mode, out);
      DecodeGrows(cur[ip + r.used..], r.mode, r.out);
    }
  }

  /** After a copy without literals another instruction follows. */
  lemma MoreAhead(cur: seq<Byte>, ip: nat, mode: Mode, out: seq<Byte>, end: Result, i: Instr)
    requires Stands(cur, ip, mode, out, end) && end.Done? && i == Parse(cur[ip..], mode) && i.Copy?
    ensures i.dist <= |out| && |out| + i.len <= |end.out| && ip + i.size <= |cur|
    ensures Low(cur[ip + i.size - 2]) == 0 ==> Replaceable(cur, ip, mode, out, i.dist, i.len, i.size)
  {
    hide Parse, Step, Decode, CopyMatch, Stands;
    InstrAhead(cur, ip, mode, out, end);
    var r := Step(cur[ip..], mode, out);
    var lits := CopyFacts(cur[ip..], mode, out, i);
    Cuts(cur, ip, i.size - 2, i.size, i.size);
    if Low(cur[ip + i.size - 2]) == 0 {
      InstrAhead(cur, ip + r.used, r.mode, r.out, end);
    }
  }

  /** The copy at ip as it is: it becomes the instruction behind. */
  lemma PlainBehind(cur: seq<Byte>, ip: nat, mode: Mode, out: seq<Byte>, end: Result, i: Instr, lit: nat)
    requires Stands(cur, ip, mode, out, end) && end.Done? && i == Parse(cur[ip..], mode) && i.Copy? && (ip == 0 ==> mode == Top && out == [])
    requires ip + i.size <= |cur| && lit == Low(cur[ip + i.size - 2])
    ensures i.dist <= |out| && ip + i.size + lit <= |cur|
    ensures var q, mode' := ip + i.size + lit, if lit == 0 then Top else AfterShort;
            var out' := CopyMatch(out, i.dist, i.len) + cur[ip + i.size..q];
            && |out'| <= |end.out| && Stands(cur, q, mode', out', end)
            && Behind(Back(ip, mode, out), cur, ip + i.size - 2, lit, q, mode', out')
  {
    hide Parse, CopyMatch, Step, Stands, Behind, Low;
    InstrAhead(cur, ip, mode, out, end);
    var r := Step(cur[ip..], mode, out);
    var lits := CopyFacts(cur[ip..], mode, out, i);
    Cuts(cur, ip, i.size - 2, i.size, i.size + |lits|);
    StandsReach(cur, ip, mode, out, end);
    MakeBehind(cur, ip, mode, out, i, r, lit);
  }

  lemma Cuts(cur: seq<Byte>, ip: nat, k: nat, a: nat, b: nat)
    requires k < a <= b && ip + b <= |cur|
    ensures cur[ip..][k] == cur[ip + k] && cur[ip..][a..b] == cur[ip + a..ip + b]
  {
  }

  lemma StandsReach(cur: seq<Byte>, ip: nat, mode: Mode, out: seq<Byte>, end: Result)
    requires Stands(cur, ip, mode, out, end)
    ensures ip <= |cur| && Reach(cur[..ip], mode, out) && Plain(cur[..ip], cur[ip..])
  {
  }

  lemma MakeBehind(cur: seq<Byte>, ip: nat, mode: Mode, out: seq<Byte>, i: Instr, r: Result, lit: nat)
    requires ip <= |cur| && i == Parse(cur[ip..], mode) && i.Copy? && r == Step(cur[ip..], mode, out) && r.Next?
    requires lit <= 3 && r.used == i.size + lit && Reach(cur[..ip], mode, out) && Plain(cur[..ip], cur[ip..])
    requires ip == 0 ==> mode == Top && out == []
    ensures Behind(Back(ip, mode, out), cur, ip + i.size - 2, lit, ip + r.used, r.mode, r.out)
  {
    hide Parse, Step, Reach;
  }

  /** Where the optimiser stands, and what litp and lit describe (litp is -1 at the start). */
  ghost predicate Ok(cur: seq<Byte>, ip: nat, mode: Mode, out: seq<Byte>, litp: int, lit: nat, b: Back, end: Result)
  {
    && Stands(cur, ip, mode, out, end) && end.Done?
    && (ip == 0 ==> mode == Top && out == [])
    && (litp >= 0 ==> Behind(b, cur, litp, lit, ip, mode, out))
  }

  /** What the facts say after an instruction that was passed or rewritten; so many instructions are gone. */
  ghost predicate Noted(cur: seq<Byte>, ip: nat, mode: Mode, litp: int, b: Back, s: Noting, total: nat)
  {
    Told(cur, ip, mode, litp, b, s.behind, s.here) && s.here.count + Count(cur[ip..], mode) == total
  }

  /** The facts in front of the instruction passed last, and behind it. */
  datatype Noting = Noting(behind: Facts, here: Facts)

  /** A copy that stays as it is. */
  method KeepCopy(inp: array<Byte>, ip: nat, out: array<Byte>, op: nat, mode: Mode, i: Instr, ghost end: Result,
                  ghost litp: int, ghost b: Back, ghost s: Noting, ghost total: nat)
      returns (ip': nat, op': nat, mode': Mode, litp': int, lit': nat, ghost b': Back, ghost s': Noting)
    requires inp != out && ip <= inp.Length && op <= out.Length && i == Parse(inp[ip..], mode) && i.Copy?
    requires Stands(inp[..], ip, mode, out[..op], end) && end.Done? && |end.out| <= out.Length && (ip == 0 ==> mode == Top && op == 0)
    requires Noted(inp[..], ip, mode, litp, b, s, total)
    requires LeftOver(inp[ip..], mode, s.here.lit) && ip + i.size < inp.Length ==> inp[ip + i.size] < 16
    modifies out
    ensures ip < ip' && op' <= out.Length && litp' >= 0
    ensures Ok(inp[..], ip', mode', out[..op'], litp', lit', b', end) && Noted(inp[..], ip', mode', litp', b', s', total)
  {
    hide Parse, CopyMatch, Stands, Behind, Noted, LeftOver;
    ghost var cur, o := inp[..], out[..op];
    assert inp[ip..] == cur[ip..];
    hide Step, Low;
    lit' := Low(inp[ip + i.size - 2]);
    PlainBehind(cur, ip, mode, o, end, i, lit');
    assert |CopyMatch(o, i.dist, i.len)| == |o| + i.len;
    CopyOut(out, op, i.dist, i.len);
    CopyLiterals(inp, ip + i.size, out, op + i.len, lit');
    ip', op', litp' := ip + i.size + lit', op + i.len + lit', ip + i.size - 2;
    mode' := if lit' == 0 then Top else AfterShort;
    b' := Back(ip, mode, o);
    assert cur[ip + i.size..ip'] == inp[ip + i.size..ip + i.size + lit'];
    s' := KeepNotes(cur, ip, mode, o, litp, b, s, total, end, i, lit', litp');
  }

  lemma KeepNotes(cur: seq<Byte>, ip: nat, mode: Mode, out: seq<Byte>, litp: int, b: Back, s: Noting, total: nat, end: Result, i: Instr, lit: nat, litp': nat) returns (s': Noting)
    requires Stands(cur, ip, mode, out, end) && end.Done? && Noted(cur, ip, mode, litp, b, s, total)
    requires i == Parse(cur[ip..], mode) && i.Copy? && ip + i.size + lit <= |cur| && lit == Low(cur[ip + i.size - 2])
    requires LeftOver(cur[ip..], mode, s.here.lit) && ip + i.size < |cur| ==> cur[ip + i.size] < 16
    ensures Noted(cur, ip + i.size + lit, if lit == 0 then Top else AfterShort, litp', Back(ip, mode, out), s', total)
  {
    hide Parse, CopyMatch, Step, Decode, Reach, FactsReach, Scan;
    var q := ip + i.size + lit;
    assert cur[ip..][i.size - 2] == cur[ip + i.size - 2];
    assert Take(cur[ip..], mode) == Taken(q - ip, if lit == 0 then Top else AfterShort);
    hide Take;
    ToldNext(cur, ip, mode, out, litp, b, s.behind, s.here, q, if lit == 0 then Top else AfterShort, litp');
    s' := Noting(s.here, Pass(cur[ip..], mode, s.here));
  }

  /** The state of the optimiser in front of a copy that litp and lit allow to be replaced. */
  ghost predicate CanReplace(cur: seq<Byte>, ip: nat, mode: Mode, out: seq<Byte>, litp: nat, lit: nat, b: Back, end: Result, dist: nat, len: nat, size: nat)
  {
    && Stands(cur, ip, mode, out, end) && end.Done? && |out| + len <= |end.out|
    && Behind(b, cur, litp, lit, ip, mode, out) && litp + 2 <= ip
    && Replaceable(cur, ip, mode, out, dist, len, size)
  }

  /** The match becomes literals of the copy before it. */
  method DoExtend(inp: array<Byte>, ip: nat, out: array<Byte>, op: nat, mode: Mode, litp: nat, lit: nat, dist: nat, n: nat, ghost b: Back, ghost end: Result, ghost s: Noting, ghost total: nat)
      returns (ghost s': Noting)
    requires inp != out && op <= out.Length && end.Done? && |end.out| <= out.Length && 2 <= n <= 3
    requires CanReplace(inp[..], ip, mode, out[..op], litp, lit, b, end, dist, n, n) && lit + n == 3 && inp[ip + n] >= 16
    requires Noted(inp[..], ip, mode, litp, b, s, total)
    modifies inp, out
    ensures op + n <= out.Length && Ok(inp[..], ip + n, AfterShort, out[..op + n], litp, 3, b, end)
    ensures total >= 1 && Noted(inp[..], ip + n, AfterShort, litp, b, s', total - 1)
  {
    hide Parse, CopyMatch, Stands, Behind, Extended, Bytes, Told, Pass, Scan;
    ghost var cur, o := inp[..], out[..op];
    ExtendTold(cur, ip, mode, o, litp, lit, b, s.behind, s.here, dist, n, Bytes(o, dist, n));
    s' := Noting(s.behind, Pass(Extended(cur, litp, ip, Bytes(o, dist, n))[b.p..], b.mode, s.behind));
    ExtendKeeps(b, cur, litp, lit, ip, mode, o, end, dist, n);
    Extend(inp, litp, ip, out, op, dist, n);
    CopyOut(out, op, dist, n);
  }

  /** The match and the run after it become one run with the literals before them. */
  method DoMerge(inp: array<Byte>, ip: nat, out: array<Byte>, op: nat, mode: Mode, litp: nat, lit: nat, dist: nat, n: nat, ghost b: Back, ghost end: Result, ghost s: Noting, ghost total: nat)
      returns (ip': nat, op': nat, lit': nat, ghost b': Back, ghost s': Noting)
    requires inp != out && op <= out.Length && end.Done? && |end.out| <= out.Length && 2 <= n <= 3 && lit <= 3
    requires CanReplace(inp[..], ip, mode, out[..op], litp, lit, b, end, dist, n, n)
    requires 1 <= inp[ip + n] && lit + n + inp[ip + n] < 16
    requires Noted(inp[..], ip, mode, litp, b, s, total)
    modifies inp, out
    ensures ip < ip' && op' <= out.Length && Ok(inp[..], ip', AfterRun, out[..op'], litp + 2, lit', b', end)
    ensures total >= 1 && Noted(inp[..], ip', AfterRun, litp + 2, b', s', total - 1)
  {
    hide Parse, CopyMatch, Stands, Behind, Bytes, MergedRun, Told, Pass, Scan;
    ghost var cur, o := inp[..], out[..op];
    var t: int := inp[ip + n];
    ip', op', lit' := ip + n + 4 + t, op + n + 3 + t, lit + n + t + 3;
    b' := MergeAll(cur, ip, mode, o, litp, lit, dist, n, b, end);
    s' := MergeNotes(cur, ip, mode, o, litp, lit, b, s, total, dist, n, Bytes(o, dist, n), end, b', ip', CopyMatch(o, dist, n) + MergedRun(cur, litp, ip, Bytes(o, dist, n), lit + n + t)[ip + n + 1..ip']);
    Merge(inp, litp, ip, out, op, dist, n, lit' - 3);
    CopyOut(out, op, dist, n);
    CopyLiterals(inp, ip + n + 1, out, op + n, t + 3);
  }

  lemma MergeNotes(cur: seq<Byte>, ip: nat, mode: Mode, out: seq<Byte>, litp: nat, lit: nat, b: Back, s: Noting, total: nat, dist: nat, n: nat, w: seq<Byte>, end: Result,
                   b': Back, q: nat, out': seq<Byte>) returns (s': Noting)
    requires Noted(cur, ip, mode, litp, b, s, total) && CanReplace(cur, ip, mode, out, litp, lit, b, end, dist, n, n) && |w| == n && lit <= 3
    requires 1 <= cur[ip + n] && lit + n + cur[ip + n] < 16 && q == ip + n + 4 + cur[ip + n] <= |cur|
    requires Ok(MergedRun(cur, litp, ip, w, lit + n + cur[ip + n]), q, AfterRun, out', litp + 2, lit + n + cur[ip + n] + 3, b', end)
    ensures total >= 1 && Noted(MergedRun(cur, litp, ip, w, lit + n + cur[ip + n]), q, AfterRun, litp + 2, b', s', total - 1)
  {
    var c: Byte := lit + n + cur[ip + n];
    var cur' := MergedRun(cur, litp, ip, w, c);
    BehindPlain(b', cur', litp + 2, c + 3, q, AfterRun, out');
    hide Parse, Stands, Behind, MergedRun, Told, Pass, Scan;
    MergeTold(cur, ip, mode, out, litp, lit, b, s.behind, s.here, dist, n, w, c, q, b');
    s' := Noting(Pass(cur'[b.p..], b.mode, s.behind), Pass(cur'[litp + 2..], Top, Pass(cur'[b.p..], b.mode, s.behind)));
  }

  /** MergeKeeps, with the literals of the run taken from the rewritten stream. */
  lemma MergeAll(cur: seq<Byte>, ip: nat, mode: Mode, out: seq<Byte>, litp: nat, lit: nat, dist: nat, n: nat, b: Back, end: Result)
      returns (b': Back)
    requires CanReplace(cur, ip, mode, out, litp, lit, b, end, dist, n, n) && 2 <= n <= 3 && lit <= 3
    requires 1 <= cur[ip + n] && lit + n + cur[ip + n] < 16
    ensures var c := lit + n + cur[ip + n];
            var cur', q := MergedRun(cur, litp, ip, Bytes(out, dist, n), c), ip + n + 4 + cur[ip + n];
            && q <= |cur| && ip + n + 1 <= q
            && var out' := CopyMatch(out, dist, n) + cur'[ip + n + 1..q];
            && |out'| <= |end.out| && |out'| == |out| + n + (q - ip - n - 1)
            && Ok(cur', q, AfterRun, out', litp + 2, c + 3, b', end)
  {
    hide Parse, CopyMatch, Stands, Behind, Bytes;
    b' := MergeKeeps(b, cur, litp, lit, ip, mode, out, end, dist, n);
    var r := cur[ip + n] as int;
    var cur', q := MergedRun(cur, litp, ip, Bytes(out, dist, n), lit + n + r), ip + n + 4 + r;
    MergedSuffix(cur, litp, ip, Bytes(out, dist, n), lit + n + r, q);
    hide MergedRun;
    StandsFits(cur', q, AfterRun, CopyMatch(out, dist, n) + cur[ip + n + 1..q], end);
  }

  lemma MergedSuffix(cur: seq<Byte>, litp: nat, ip: nat, w: seq<Byte>, c: Byte, q: nat)
    requires litp + 2 <= ip && ip + |w| < q <= |cur|
    ensures MergedRun(cur, litp, ip, w, c)[ip + |w| + 1..q] == cur[ip + |w| + 1..q]
  {
  }

  /** The match and the run after it are added to the run before them. */
  method DoGrow(inp: array<Byte>, ip: nat, out: array<Byte>, op: nat, mode: Mode, litp: nat, lit: nat, dist: nat, ghost b: Back, ghost end: Result, ghost s: Noting, ghost total: nat)
      returns (ip': nat, op': nat, lit': nat, ghost b': Back, ghost s': Noting)
    requires inp != out && op <= out.Length && end.Done? && |end.out| <= out.Length && lit > 3
    requires CanReplace(inp[..], ip, mode, out[..op], litp, lit, b, end, dist, 3, 2)
    requires 1 <= inp[ip + 2] && lit + 3 + inp[ip + 2] < 16
    requires Noted(inp[..], ip, mode, litp, b, s, total)
    modifies inp, out
    ensures ip < ip' && op' <= out.Length && Ok(inp[..], ip', AfterRun, out[..op'], litp, lit', b', end)
    ensures total >= 2 && Noted(inp[..], ip', AfterRun, litp, b', s', total - 2)
  {
    hide Parse, CopyMatch, Stands, Behind, Bytes, Told, Pass, Scan;
    ghost var cur, o := inp[..], out[..op];
    b' := GrowKeeps(b, cur, litp, lit, ip, mode, o, end, dist);
    var t: int := inp[ip + 2];
    ip', op', lit' := ip + 6 + t, op + 6 + t, lit + 3 + t + 3;
    s' := GrowNotes(cur, ip, mode, o, litp, lit, b, s, total, dist, Bytes(o, dist, 3), end, b', ip', CopyMatch(o, dist, 3) + cur[ip + 3..ip']);
    Grow(inp, litp, ip, out, op, dist, lit' - 3);
    assert inp[ip + 3..ip'] == cur[ip + 3..ip'];
    hide Grown;
    StandsFits(inp[..], ip', AfterRun, CopyMatch(o, dist, 3) + cur[ip + 3..ip'], end);
    CopyOut(out, op, dist, 3);
    CopyLiterals(inp, ip + 3, out, op + 3, t + 3);
  }

  lemma GrowNotes(cur: seq<Byte>, ip: nat, mode: Mode, out: seq<Byte>, litp: nat, lit: nat, b: Back, s: Noting, total: nat, dist: nat, w: seq<Byte>, end: Result,
                  b': Back, q: nat, out': seq<Byte>) returns (s': Noting)
    requires Noted(cur, ip, mode, litp, b, s, total) && CanReplace(cur, ip, mode, out, litp, lit, b, end, dist, 3, 2) && |w| == 3 && lit > 3
    requires 1 <= cur[ip + 2] && lit + 3 + cur[ip + 2] < 16 && q == ip + 6 + cur[ip + 2] <= |cur|
    requires Behind(b', Grown(cur, litp, ip, w, lit + 3 + cur[ip + 2]), litp, lit + 6 + cur[ip + 2], q, AfterRun, out')
    ensures total >= 2 && Noted(Grown(cur, litp, ip, w, lit + 3 + cur[ip + 2]), q, AfterRun, litp, b', s', total - 2)
  {
    var c: Byte := lit + 3 + cur[ip + 2];
    var cur' := Grown(cur, litp, ip, w, c);
    BehindPlain(b', cur', litp, c + 3, q, AfterRun, out');
    hide Parse, Stands, Behind, Grown, Told, Pass, Scan;
    GrowTold(cur, ip, mode, out, litp, lit, b, s.behind, s.here, dist, w, c, q, b');
    s' := Noting(s.behind, Pass(cur'[litp..], Top, s.behind));
  }

  lemma StandsFits(cur: seq<Byte>, ip: nat, mode: Mode, out: seq<Byte>, end: Result)
    requires Stands(cur, ip, mode, out, end) && end.Done?
    ensures |out| <= |end.out|
  {
    hide Decode, Reach;
    DecodeGrows(cur[ip..], mode, out);
  }

  /** How often each rewrite was made: o_m1_a to o_m3_b. */
  datatype Counters = Counters(m1a: nat, m1b: nat, m2: nat, m3a: nat, m3b: nat)

  /** The instructions they remove. */
  function Removed(o: Counters): (n: nat)
  {
    o.m1a + o.m1b + 2 * o.m2 + o.m3a + o.m3b
  }

  /** A copy instruction: one of the five rewrites, or none. It is rewritten exactly when that saves instructions. */
  method DoCopy(inp: array<Byte>, ip: nat, out: array<Byte>, op: nat, mode: Mode, litp: int, lit: nat, i: Instr, o: Counters,
                ghost b: Back, ghost end: Result, ghost s: Noting, ghost total: nat)
      returns (ip': nat, op': nat, mode': Mode, litp': int, lit': nat, o': Counters, ghost b': Back, ghost s': Noting)
    requires inp != out && ip <= inp.Length && op <= out.Length && i == Parse(inp[ip..], mode) && i.Copy?
    requires Ok(inp[..], ip, mode, out[..op], litp, lit, b, end) && |end.out| <= out.Length
    requires Noted(inp[..], ip, mode, litp, b, s, total)
    modifies inp, out
    ensures ip < ip' && op' <= out.Length && litp' >= 0
    ensures Ok(inp[..], ip', mode', out[..op'], litp', lit', b', end)
    ensures Removed(o') == Removed(o) + (if litp < 0 then 0 else Saved(old(inp[ip..]), mode, lit))
    ensures Removed(o') <= total + Removed(o) && Noted(inp[..], ip', mode', litp', b', s', total + Removed(o) - Removed(o'))
    ensures Removed(o') == Removed(o) ==> inp[..] == old(inp[..])
  {
    hide Parse, CopyMatch, Stands, Behind, Told, Count;
    ghost var cur, data := inp[..], out[..op];
    assert inp[ip..] == cur[ip..];
    MoreAhead(cur, ip, mode, data, end, i);
    ParseShape(cur[ip..], mode);
    CopyNotes(cur, ip, mode, data, litp, lit, b, s, i);
    o' := o;
    var t: int := inp[ip];
    if litp >= 0 && Low(inp[ip + i.size - 2]) == 0 {
      BehindShape(b, cur, litp, lit, ip, mode, data);
      var next: int := inp[ip + i.size];
      if t < 16 && mode == AfterShort {
        if lit == 1 && next >= 16 {
          s' := DoExtend(inp, ip, out, op, mode, litp, lit, i.dist, 2, b, end, s, total);
          return ip + 2, op + 2, AfterShort, litp, 3, o.(m1a := o.m1a + 1), b, s';
        } else if 0 < next < 16 && lit + 2 + next < 16 {
          ip', op', lit', b', s' := DoMerge(inp, ip, out, op, mode, litp, lit, i.dist, 2, b, end, s, total);
          return ip', op', AfterRun, litp + 2, lit', o.(m1b := o.m1b + 1), b', s';
        }
      } else if t >= 64 {
        if i.len == 3 && lit > 3 && 0 < next < 16 && lit + 3 + next < 16 {
          ip', op', lit', b', s' := DoGrow(inp, ip, out, op, mode, litp, lit, i.dist, b, end, s, total);
          return ip', op', AfterRun, litp, lit', o.(m2 := o.m2 + 1), b', s';
        }
      } else if t >= 16 && i.len == 3 {
        if lit == 0 && next >= 16 {
          s' := DoExtend(inp, ip, out, op, mode, litp, lit, i.dist, 3, b, end, s, total);
          return ip + 3, op + 3, AfterShort, litp, 3, o.(m3a := o.m3a + 1), b, s';
        } else if lit <= 3 && 0 < next < 16 && lit + 3 + next < 16 {
          ip', op', lit', b', s' := DoMerge(inp, ip, out, op, mode, litp, lit, i.dist, 3, b, end, s, total);
          return ip', op', AfterRun, litp + 2, lit', o.(m3b := o.m3b + 1), b', s';
        }
      }
    }
    ip', op', mode', litp', lit', b', s' := KeepCopy(inp, ip, out, op, mode, i, end, litp, b, s, total);
  }

  /** What the facts and the bytes at ip say about the copy there. */
  lemma CopyNotes(cur: seq<Byte>, ip: nat, mode: Mode, out: seq<Byte>, litp: int, lit: nat, b: Back, s: Noting, i: Instr)
    requires ip <= |cur| && Told(cur, ip, mode, litp, b, s.behind, s.here) && (litp >= 0 ==> Behind(b, cur, litp, lit, ip, mode, out))
    requires i == Parse(cur[ip..], mode) && i.Copy? && ip + i.size <= |cur|
    ensures s.here.lit == if litp >= 0 && lit <= 3 then lit else -1
    ensures cur[ip..][0] == cur[ip] && cur[ip..][i.size - 2] == cur[ip + i.size - 2]
    ensures ip + i.size < |cur| ==> cur[ip..][i.size] == cur[ip + i.size]
  {
    if litp >= 0 {
      LitTold(cur, ip, mode, out, litp, lit, b, s.behind, s.here);
    }
  }

  /** How many bytes the copies that can be replaced take. */
  lemma ParseShape(s: seq<Byte>, mode: Mode)
    requires Parse(s, mode).Copy?
    ensures s[0] < 16 && mode == AfterShort ==> Parse(s, mode).len == 2 && Parse(s, mode).size == 2
    ensures s[0] >= 64 ==> Parse(s, mode).size == 2
    ensures 16 <= s[0] < 64 ==> (Parse(s, mode).len == 3 ==> Parse(s, mode).size == 3) && (Parse(s, mode).len == Parse(s, mode).size ==> Parse(s, mode).len == 3)
    ensures s[0] >= 64 ==> Parse(s, mode).len >= 3
    ensures s[0] < 16 && mode != AfterShort ==> Parse(s, mode).len == 3 && Parse(s, mode).size == 2
  {
    LongIsLonger(s, 1, 31);
    LongIsLonger(s, 1, 7);
  }

  lemma {:induction false} LongIsLonger(s: seq<Byte>, at: nat, base: nat)
    ensures ReadLong(s, at, base).Long? ==> ReadLong(s, at, base).value - base >= ReadLong(s, at, base).size - at
    decreases |s| - at
  {
    if at < |s| && s[at] == 0 {
      LongIsLonger(s, at + 1, base + 255);
    }
  }

  lemma BehindShape(b: Back, cur: seq<Byte>, litp: nat, lit: nat, ip: nat, mode: Mode, out: seq<Byte>)
    requires Behind(b, cur, litp, lit, ip, mode, out)
    ensures litp + 2 <= ip && (mode == AfterShort ==> lit <= 3)
  {
    hide Parse, CopyMatch, Reach;
  }

  /** A literal run. */
  method DoRun(inp: array<Byte>, ip: nat, out: array<Byte>, op: nat, i: Instr, ghost end: Result, ghost litp: int, ghost b: Back, ghost s: Noting, ghost total: nat)
      returns (ip': nat, op': nat, ghost b': Back, ghost s': Noting)
    requires inp != out && ip <= inp.Length && op <= out.Length && i == Parse(inp[ip..], Top) && i.Run?
    requires Stands(inp[..], ip, Top, out[..op], end) && end.Done? && |end.out| <= out.Length && (ip == 0 ==> op == 0)
    requires Noted(inp[..], ip, Top, litp, b, s, total)
    modifies out
    ensures ip < ip' && op' <= out.Length
    ensures Ok(inp[..], ip', AfterRun, out[..op'], ip, i.n, b', end) && Noted(inp[..], ip', AfterRun, ip, b', s', total)
  {
    hide Parse, Stands, Behind, Noted;
    ghost var cur, o := inp[..], out[..op];
    assert inp[ip..] == cur[ip..];
    RunBehind(cur, ip, o, end, i);
    ip', op' := ip + i.size + i.n, op + i.n;
    CopyLiterals(inp, ip + i.size, out, op, i.n);
    b' := Back(ip, Top, o);
    s' := RunNotes(cur, ip, o, litp, b, s, total, end, i);
  }

  lemma RunNotes(cur: seq<Byte>, ip: nat, out: seq<Byte>, litp: int, b: Back, s: Noting, total: nat, end: Result, i: Instr) returns (s': Noting)
    requires Stands(cur, ip, Top, out, end) && Noted(cur, ip, Top, litp, b, s, total)
    requires i == Parse(cur[ip..], Top) && i.Run? && ip + i.size + i.n <= |cur|
    ensures Noted(cur, ip + i.size + i.n, AfterRun, ip, Back(ip, Top, out), s', total)
  {
    hide Parse, Decode, Reach, FactsReach, Scan;
    var q := ip + i.size + i.n;
    assert Take(cur[ip..], Top) == Taken(q - ip, AfterRun) && !LeftOver(cur[ip..], Top, s.here.lit);
    hide Take, LeftOver;
    ToldNext(cur, ip, Top, out, litp, b, s.behind, s.here, q, AfterRun, ip);
    s' := Noting(s.here, Pass(cur[ip..], Top, s.here));
  }

  lemma RunBehind(cur: seq<Byte>, ip: nat, out: seq<Byte>, end: Result, i: Instr)
    requires Stands(cur, ip, Top, out, end) && end.Done? && i == Parse(cur[ip..], Top) && i.Run? && (ip == 0 ==> out == [])
    ensures ip + i.size + i.n <= |cur|
    ensures var q := ip + i.size + i.n;
            var out' := out + cur[ip + i.size..q];
            && |out'| <= |end.out| && Stands(cur, q, AfterRun, out', end)
            && Behind(Back(ip, Top, out), cur, ip, i.n, q, AfterRun, out')
  {
    hide Parse, Stands, Reach;
    InstrAhead(cur, ip, Top, out, end);
    var r := Step(cur[ip..], Top, out);
    Cuts(cur, ip, 0, i.size, i.size + i.n);
    StandsReach(cur, ip, Top, out, end);
  }

  datatype ExitCode = OK | InputNotConsumed

  /** The literals a stream may start with. */
  method DoStart(inp: array<Byte>, out: array<Byte>, ghost end: Result) returns (ip: nat, op: nat, mode: Mode)
    requires inp != out && DecodeStream(inp[..]) == end && end.Done? && |end.out| <= out.Length
    modifies out
    ensures ip <= inp.Length && op <= out.Length && (ip == 0 ==> mode == Top && op == 0)
    ensures Stands(inp[..], ip, mode, out[..op], end)
    ensures FactsReach(inp[..ip], mode, NoFacts)
  {
    hide Decode, FactsReach;
    ghost var cur := inp[..];
    ip, op, mode := 0, 0, Top;
    if inp[0] > 17 {
      var t: nat := inp[0] - 17;
      StartsWithLiterals(cur[..1 + t]);
      FactsStartLiterals(cur[..1 + t]);
      assert cur[..1 + t][1..] == cur[1..1 + t];
      DecodeGrows(cur[1 + t..], if t < 4 then AfterShort else AfterRun, cur[1..1 + t]);
      CopyLiterals(inp, 1, out, 0, t);
      ip, op, mode := 1 + t, t, if t < 4 then AfterShort else AfterRun;
      assert out[..op] == inp[1..1 + t];
    } else {
      StartsPlain();
      FactsStart();
      assert cur[..0] == [] && cur[0..] == cur;
    }
  }

  /** lzo1x_optimize: the stream it leaves has the same length and decodes to the same data, with the
      same bytes left over; out holds that data. No match is left over that should have become literals,
      the rewrites remove exactly the instructions that are missing, and without any the stream is as it was. */
  method Optimize(inp: array<Byte>, out: array<Byte>) returns (code: ExitCode, outLen: nat, o: Counters)
    requires inp != out && DecodeStream(inp[..]).Done? && |DecodeStream(inp[..]).out| <= out.Length
    modifies inp, out
    ensures DecodeStream(inp[..]) == old(DecodeStream(inp[..]))
    ensures outLen <= out.Length && out[..outLen] == DecodeStream(inp[..]).out
    ensures code == OK <==> DecodeStream(inp[..]).left == 0
    ensures Tidy(inp[..])
    ensures Instructions(inp[..]) + Removed(o) == old(Instructions(inp[..]))
    ensures Removed(o) == 0 ==> inp[..] == old(inp[..])
  {
    hide Parse, CopyMatch, Stands, Behind, Decode, DecodeStream, Noted, Instructions, Tidy, FactsReach;
    ghost var end, total := DecodeStream(inp[..]), Instructions(inp[..]);
    var ip, op, mode := DoStart(inp, out, end);
    var litp: int, lit: nat := -1, 0;
    o := Counters(0, 0, 0, 0, 0);
    ghost var b, s := Back(0, Top, []), Noting(NoFacts, NoFacts);
    StartNotes(inp[..], ip, mode, out[..op], end, b, s);
    while true
      invariant 0 <= ip <= inp.Length && 0 <= op <= out.Length
      invariant Ok(inp[..], ip, mode, out[..op], litp, lit, b, end)
      invariant Removed(o) <= total && Noted(inp[..], ip, mode, litp, b, s, total - Removed(o))
      invariant Removed(o) == 0 ==> inp[..] == old(inp[..])
      decreases inp.Length - ip
    {
      InstrAhead(inp[..], ip, mode, out[..op], end);
      assert inp[ip..] == inp[..][ip..];
      var i := ParseAt(inp, ip, mode);
      match i {
        case Run(n, q) =>
          ghost var litp0 := litp;
          litp, lit := ip, n;
          ip, op, b, s := DoRun(inp, ip, out, op, i, end, litp0, b, s, total - Removed(o));
          mode := AfterRun;
        case Copy(_, _, _) =>
          ip, op, mode, litp, lit, o, b, s := DoCopy(inp, ip, out, op, mode, litp, lit, i, o, b, end, s, total - Removed(o));
        case End(q) =>
          StandsDecodes(inp[..], ip, mode, out[..op], end);
          EndNotes(inp[..], ip, mode, out[..op], end, litp, b, s, total - Removed(o));
          return if ip + q == inp.Length then OK else InputNotConsumed, op, o;
      }
      OkInside(inp[..], ip, mode, out[..op], litp, lit, b, end);
    }
  }

  lemma StartNotes(cur: seq<Byte>, ip: nat, mode: Mode, out: seq<Byte>, end: Result, b: Back, s: Noting)
    requires Stands(cur, ip, mode, out, end) && FactsReach(cur[..ip], mode, NoFacts) && s.here == NoFacts
    ensures Noted(cur, ip, mode, -1, b, s, Instructions(cur))
  {
    hide Reach, Decode, Scan, ScanStream;
    assert cur[..ip] + cur[ip..] == cur;
    assert ScanStream(cur[..ip] + cur[ip..]) == Scan(cur[ip..], mode, NoFacts);
  }

  /** At the end of the stream the facts are those of the whole stream. */
  lemma EndNotes(cur: seq<Byte>, ip: nat, mode: Mode, out: seq<Byte>, end: Result, litp: int, b: Back, s: Noting, total: nat)
    requires Stands(cur, ip, mode, out, end) && Noted(cur, ip, mode, litp, b, s, total) && Parse(cur[ip..], mode).End?
    ensures Tidy(cur) && Instructions(cur) == total
  {
    CountIs(cur[ip..], mode, s.here);
    assert cur[..ip] + cur[ip..] == cur;
    assert ScanStream(cur[..ip] + cur[ip..]) == Scan(cur[ip..], mode, s.here);
    hide Reach, Decode, ScanStream, Parse;
    assert cur[ip..][0] == cur[ip];
  }

  lemma OkInside(cur: seq<Byte>, ip: nat, mode: Mode, out: seq<Byte>, litp: int, lit: nat, b: Back, end: Result)
    requires Ok(cur, ip, mode, out, litp, lit, b, end)
    ensures ip <= |cur|
  {
  }
}
