/** How lzo1x_999 writes what its search has chosen, runs of literals and matches. The search itself is not
    modelled: any choice it may make is allowed. */
module LzoCompress {
  import opened Bits
  import opened Inflate
  import opened Lzo
  import opened LzoRewrite
  import LzoOptimize

  const M2_MIN_LEN := 3
  const M2_MAX_LEN := 8
  const M3_MAX_LEN := 33
  const M4_MAX_LEN := 9
  const M1_MAX_OFFSET := 0x400
  const M2_MAX_OFFSET := 0x800
  const M3_MAX_OFFSET := 0x4000
  const M4_MAX_OFFSET := 0xbfff
  const MX_MAX_OFFSET := M1_MAX_OFFSET + M2_MAX_OFFSET
  const M3_MARKER: nat := 32
  const M4_MARKER: nat := 16

  /** What code_match demands of a match behind `lit` literals. */
  predicate Codable(len: nat, off: nat, lit: nat)
  {
    off >= 1 && if len == 2 then off <= M1_MAX_OFFSET && 0 < lit < 4 else len >= 3 && off <= M4_MAX_OFFSET
  }

  /** How a decoder reads a byte below 16 behind that many literals. */
  function ModeAfter(lit: nat): (m: Mode)
  {
    if lit == 0 then Top else if lit < 4 then AfterShort else AfterRun
  }

  // ---- what is written ----

  /** The rest of a length: a zero for each 255. */
  function LongCode(n: nat): (b: seq<Byte>)
    requires n > 0
    ensures |b| == 1 + (n - 1) / 255
  {
    if n > 255 then [0] + LongCode(n - 255) else [n]
  }

  function LengthCode(marker: nat, len: nat, max: nat): (b: seq<Byte>)
    requires len >= 3 && max >= 2 && marker + max - 2 < 256
    ensures |b| == if len <= max then 1 else 2 + (len - max - 1) / 255
  {
    if len <= max then [marker + len - 2] else [marker] + LongCode(len - max)
  }

  function OffsetCode(d: nat): (b: seq<Byte>)
    ensures |b| == 2 && Low(b[0]) == 0
  {
    [d % 64 * 4, d / 64 % 256]
  }

  function FarCode(len: nat, off: nat): (b: seq<Byte>)
    requires len >= 3 && 1 <= off <= M4_MAX_OFFSET
  {
    if off <= M3_MAX_OFFSET then LengthCode(M3_MARKER, len, M3_MAX_LEN) + OffsetCode(off - 1)
    else LengthCode(M4_MARKER + (off - 0x4000) / 0x4000 * 8, len, M4_MAX_LEN) + OffsetCode(off - 0x4000)
  }

  function MatchCode(len: nat, off: nat, lit: nat): (b: seq<Byte>)
    requires Codable(len, off, lit)
  {
    if len == 2 then [(off - 1) % 4 * 4, (off - 1) / 4]
    else if len <= M2_MAX_LEN && off <= M2_MAX_OFFSET then [(len - 1) * 32 + (off - 1) % 8 * 4, (off - 1) / 8]
    else if len == M2_MIN_LEN && off <= MX_MAX_OFFSET && lit >= 4 then [(off - 1 - M2_MAX_OFFSET) % 4 * 4, (off - 1 - M2_MAX_OFFSET) / 4]
    else FarCode(len, off)
  }

  function RunCode(n: nat): (b: seq<Byte>)
    requires n >= 4
    ensures |b| == if n <= 18 then 1 else 2 + (n - 19) / 255
  {
    if n <= 18 then [n - 3] else [0] + LongCode(n - 18)
  }

  /** The stream with the header of a run behind it; up to three literals are counted in the match before them. */
  function Header(s: seq<Byte>, n: nat): (r: seq<Byte>)
    requires n > 0 && (s == [] || |s| >= 2)
    ensures r != []
  {
    if s == [] && n <= 238 then [17 + n] else if n <= 3 then SetCount(s, n) else s + RunCode(n)
  }

  // ---- how it is read ----

  lemma {:induction false} LongRead(s: seq<Byte>, pre: seq<Byte>, n: nat, base: nat, rest: seq<Byte>)
    requires n > 0 && s == pre + LongCode(n) + rest
    ensures ReadLong(s, |pre|, base) == Long(base + n, |pre| + |LongCode(n)|)
    decreases n
  {
    if n > 255 {
      assert s == pre + [0] + LongCode(n - 255) + rest;
      LongRead(s, pre + [0], n - 255, base + 255, rest);
    }
  }

  /** The first byte's low bits, or what follows it, give the length. */
  lemma LengthRead(marker: nat, len: nat, max: nat, m: nat, rest: seq<Byte>)
    requires len >= 3 && m == max - 1 && if marker == M3_MARKER then m == 32 else m == 8 && (marker == M4_MARKER || marker == M4_MARKER + 8)
    ensures var s := LengthCode(marker, len, max) + rest;
            s[0] - s[0] % m == marker && ReadLength(s, s[0] % m, max - 2) == Long(len - 2, |LengthCode(marker, len, max)|)
  {
    var s := LengthCode(marker, len, max) + rest;
    if len > max {
      assert s == [marker] + LongCode(len - max) + rest;
      LongRead(s, [marker], len - max, max - 2, rest);
    }
  }

  lemma OffsetRead(d: nat)
    ensures var b := OffsetCode(d); b[0] / 4 + 64 * (b[1] as int) == d % 0x4000
  {
  }

  lemma FarParse(s: seq<Byte>, mode: Mode, marker: nat, len: nat, d: nat, q: nat)
    requires len >= 3 && 1 <= q && q + 2 <= |s| && s[q] / 4 + 64 * (s[q + 1] as int) == d % 0x4000 && d < 0x8000
    requires s[0] - s[0] % (if marker == M3_MARKER then 32 else 8) == marker
    requires if marker == M3_MARKER then d < 0x4000 else d > 0 && marker == M4_MARKER + d / 0x4000 * 8
    requires ReadLength(s, s[0] % (if marker == M3_MARKER then 32 else 8), if marker == M3_MARKER then 31 else 7) == Long(len - 2, q)
    ensures Parse(s, mode) == Copy(len, if marker == M3_MARKER then 1 + d else 0x4000 + d, q + 2)
  {
    hide ReadLength;
  }

  lemma FarRead(len: nat, off: nat, mode: Mode, rest: seq<Byte>)
    requires len >= 3 && 1 <= off <= M4_MAX_OFFSET
    ensures var b := FarCode(len, off); |b| >= 3 && Low(b[|b| - 2]) == 0 && Parse(b + rest, mode) == Copy(len, off, |b|)
  {
    hide LengthCode, OffsetCode, ReadLength, Parse;
    var near := off <= M3_MAX_OFFSET;
    var k := if near then M3_MARKER else M4_MARKER + (off - 0x4000) / 0x4000 * 8;
    var max := if near then M3_MAX_LEN else M4_MAX_LEN;
    var d := if near then off - 1 else off - 0x4000;
    var l, o := LengthCode(k, len, max), OffsetCode(d);
    var b := FarCode(len, off);
    assert b == l + o;
    OffsetRead(d);
    LengthRead(k, len, max, max - 1, o + rest);
    var s := b + rest;
    assert s == l + (o + rest) && s[|l|] == o[0] && s[|l| + 1] == o[1];
    FarParse(s, mode, k, len, d, |l|);
  }

  lemma ShortRead(d: nat, mode: Mode, rest: seq<Byte>)
    requires d < 1024 && mode != Top
    ensures Parse([d % 4 * 4, d / 4] + rest, mode) == (if mode == AfterRun then Copy(3, 0x801 + d, 2) else Copy(2, 1 + d, 2))
  {
  }

  lemma NearRead(len: nat, d: nat, mode: Mode, rest: seq<Byte>)
    requires 3 <= len <= M2_MAX_LEN && d < M2_MAX_OFFSET
    ensures Parse([(len - 1) * 32 + d % 8 * 4, d / 8] + rest, mode) == Copy(len, 1 + d, 2) && Low((len - 1) * 32 + d % 8 * 4) == 0
  {
    var b: Byte := (len - 1) * 32 + d % 8 * 4;
    assert b / 32 == len - 1 && b / 4 % 8 == d % 8;
  }

  /** A written match is read as that match, with no literals behind it. */
  lemma MatchRead(len: nat, off: nat, lit: nat, rest: seq<Byte>)
    requires Codable(len, off, lit)
    ensures var b := MatchCode(len, off, lit);
            |b| >= 2 && Low(b[|b| - 2]) == 0 && Parse(b + rest, ModeAfter(lit)) == Copy(len, off, |b|)
  {
    hide FarCode, Parse;
    if len == 2 {
      ShortRead(off - 1, AfterShort, rest);
    } else if len <= M2_MAX_LEN && off <= M2_MAX_OFFSET {
      NearRead(len, off - 1, ModeAfter(lit), rest);
    } else if len == M2_MIN_LEN && off <= MX_MAX_OFFSET && lit >= 4 {
      ShortRead(off - 1 - M2_MAX_OFFSET, AfterRun, rest);
    } else {
      FarRead(len, off, ModeAfter(lit), rest);
    }
  }

  lemma RunRead(n: nat, rest: seq<Byte>)
    requires n >= 4
    ensures Parse(RunCode(n) + rest, Top) == Run(n, |RunCode(n)|) && RunCode(n)[0] < 16
  {
    if n > 18 {
      assert RunCode(n) + rest == [0] + LongCode(n - 18) + rest;
      LongRead(RunCode(n) + rest, [0], n - 18, 15, rest);
    }
  }

  // ---- where the stream stands ----

  /** The last match: where it starts, what a decoder has and expects there, and what it copies. */
  datatype Spot = Spot(at: nat, mode: Mode, before: seq<Byte>, len: nat, dist: nat)

  /** The stream is empty, or ends with a match behind which no literals are counted yet. */
  ghost predicate Written(s: seq<Byte>, data: seq<Byte>, p: Spot)
  {
    if s == [] then data == []
    else
      && 0 < p.at && p.at + 2 <= |s| && Reach(s[..p.at], p.mode, p.before)
      && 0 < p.dist <= |p.before| && CopyMatch(p.before, p.dist, p.len) == data
      && Parse(s[p.at..], p.mode) == Copy(p.len, p.dist, |s| - p.at) && Low(s[|s| - 2]) == 0
  }

  lemma Settled(s: seq<Byte>, data: seq<Byte>, p: Spot)
    requires Written(s, data, p)
    ensures Reach(s, Top, data)
  {
    hide Parse, CopyMatch, Step, Reach;
    if s == [] {
      StartsPlain();
    } else {
      var h, none: seq<Byte> := s[p.at..], [];
      assert h + (none + none) == h && s[..p.at] + h == s && data + none == data;
      CopyStep(h, none, none, p.mode, p.before, Copy(p.len, p.dist, |h|));
      StepReaches(s[..p.at], p.mode, p.before, h);
      assert h[..|h|] == h;
    }
  }

  /** Up to three literals behind a match. */
  lemma FewStored(s: seq<Byte>, data: seq<Byte>, p: Spot, lits: seq<Byte>)
    requires Written(s, data, p) && s != [] && 1 <= |lits| <= 3
    ensures Reach(SetCount(s, |lits|) + lits, AfterShort, data + lits)
  {
    hide Parse, CopyMatch, Step, Reach, Low;
    var h, n := s[p.at..], |lits|;
    var h' := SetCount(h, n);
    assert h + [] == h && h' + (lits + []) == h' + lits;
    CountSet(h, n, [], lits, p.mode);
    assert (h' + lits)[|h| - 2] == h'[|h'| - 2];
    CopyStep(h', lits, [], p.mode, p.before, Copy(p.len, p.dist, |h|));
    StepReaches(s[..p.at], p.mode, p.before, h' + lits);
    assert (h' + lits)[..|h'| + n] == h' + lits;
    assert s[..p.at] + (h' + lits) == SetCount(s, n) + lits;
  }

  lemma ManyStored(s: seq<Byte>, data: seq<Byte>, lits: seq<Byte>)
    requires Reach(s, Top, data) && |lits| >= 4
    ensures Reach(s + RunCode(|lits|) + lits, AfterRun, data + lits)
  {
    hide Parse, Reach, RunCode;
    var c := RunCode(|lits|);
    var h := c + lits;
    RunRead(|lits|, lits);
    assert h[|c|..|c| + |lits|] == lits && h[..|h|] == h && h[0] == c[0];
    StepReaches(s, Top, data, h);
    assert s + h == s + c + lits;
  }

  lemma RunStored(s: seq<Byte>, data: seq<Byte>, p: Spot, lits: seq<Byte>)
    requires Written(s, data, p) && lits != []
    ensures Reach(Header(s, |lits|) + lits, ModeAfter(|lits|), data + lits)
  {
    hide Parse, CopyMatch, Reach, RunCode;
    if s == [] && |lits| <= 238 {
      var first := [17 + |lits|] + lits;
      StartsWithLiterals(first);
      assert first[1..] == lits == data + lits;
    } else if |lits| <= 3 {
      FewStored(s, data, p, lits);
    } else {
      Settled(s, data, p);
      ManyStored(s, data, lits);
    }
  }

  lemma MatchWritten(s: seq<Byte>, data: seq<Byte>, lit: nat, len: nat, off: nat)
    requires s != [] && Reach(s, ModeAfter(lit), data) && Codable(len, off, lit) && off <= |data|
    ensures Written(s + MatchCode(len, off, lit), CopyMatch(data, off, len), Spot(|s|, ModeAfter(lit), data, len, off))
  {
    hide Parse, CopyMatch, Reach, MatchCode;
    var b := MatchCode(len, off, lit);
    MatchRead(len, off, lit, []);
    assert b + [] == b && (s + b)[..|s|] == s && (s + b)[|s|..] == b && (s + b)[|s + b| - 2] == b[|b| - 2];
  }

  lemma EndWritten(s: seq<Byte>, mode: Mode, data: seq<Byte>)
    requires Reach(s, mode, data)
    ensures DecodeStream(s + [M4_MARKER + 1, 0, 0]) == Done(data, 0)
  {
    hide DecodeStream;
    var e: seq<Byte> := [M4_MARKER + 1, 0, 0];
    assert Plain(s, e);
    assert Parse(e, mode) == End(3);
  }

  // ---- the search's choices ----

  /** A match, and how many literals stand before it. */
  datatype Choice = Choice(lit: nat, len: nat, off: nat)

  /** The stream starts with a literal, and a far match of three bytes is not worth coding behind a run. */
  predicate Allowed(c: Choice, start: bool)
  {
    && Codable(c.len, c.off, c.lit) && (start ==> c.lit > 0)
    && (c.len == M2_MIN_LEN && c.off > MX_MAX_OFFSET ==> c.lit < 4)
  }

  /** From `at` on the choices are true of the input. */
  ghost predicate Chosen(inp: seq<Byte>, choices: seq<Choice>, at: nat)
  {
    at <= |inp|
    && (choices != [] ==>
          var c := choices[0];
          && Allowed(c, at == 0) && c.off <= at + c.lit && Repeats(inp, at + c.lit, c.off, c.len)
          && Chosen(inp, choices[1..], at + c.lit + c.len))
  }

  /** The stream with a run behind it, if there is one. */
  ghost function WithRun(s: seq<Byte>, lits: seq<Byte>): (r: seq<Byte>)
    requires s == [] ==> lits != []
    requires s == [] || |s| >= 2
    ensures |r| >= 2
  {
    if lits == [] then s else Header(s, |lits|) + lits
  }

  ghost function WithChoice(s: seq<Byte>, inp: seq<Byte>, at: nat, c: Choice): (r: seq<Byte>)
    requires s == [] ==> c.lit > 0
    requires (s == [] || |s| >= 2) && at + c.lit <= |inp| && Codable(c.len, c.off, c.lit)
    ensures |r| >= 2
  {
    WithRun(s, inp[at..at + c.lit]) + MatchCode(c.len, c.off, c.lit)
  }

  /** The whole stream: what is written so far, the choices from `at` on, the last literals and the end. */
  ghost function Packed(s: seq<Byte>, inp: seq<Byte>, choices: seq<Choice>, at: nat): (r: seq<Byte>)
    requires Chosen(inp, choices, at) && (s == [] ==> at == 0) && (s == [] || |s| >= 2)
    decreases choices
  {
    if choices != [] then
      Packed(WithChoice(s, inp, at, choices[0]), inp, choices[1..], at + choices[0].lit + choices[0].len)
    else (if at < |inp| then WithRun(s, inp[at..]) else s) + [M4_MARKER + 1, 0, 0]
  }

  // ---- how much is written ----

  function MaxCompressedSize(n: nat): (m: nat)
  {
    n + n / 16 + 64 + 3
  }

  function RunSize(start: bool, n: nat): (m: nat)
  {
    n + if start && n <= 238 then 1 else if n <= 3 then 0 else if n <= 18 then 1 else 2 + (n - 19) / 255
  }

  /** The stream so far is at most a sixteenth longer than the data, once the first byte is paid for. */
  predicate Small(op: nat, at: nat)
  {
    (op == 0 <==> at == 0) && 16 * op <= 17 * at + if op == 0 then 0 else 16
  }

  lemma MatchSize(c: Choice, start: bool)
    requires Allowed(c, start)
    ensures |MatchCode(c.len, c.off, c.lit)| <= if c.lit < 4 then c.len else c.len - 1
  {
  }

  lemma StillSmall(op: nat, at: nat, c: Choice, n: nat)
    requires Small(op, at) && Allowed(c, at == 0) && at + c.lit + c.len <= n
    ensures Codable(c.len, c.off, c.lit) && c.off >= 1
    ensures var m := |MatchCode(c.len, c.off, c.lit)|;
            && (op == 0 ==> c.lit > 0) && m >= 2 && op + RunSize(op == 0, c.lit) + m <= MaxCompressedSize(n)
            && Small(op + RunSize(op == 0, c.lit) + m, at + c.lit + c.len)
  {
    hide MatchCode;
    MatchSize(c, at == 0);
    MatchRead(c.len, c.off, c.lit, []);
  }

  // ---- writing ----

  method LongOut(n: nat, out: array<Byte>, op: nat) returns (op': nat)
    requires n > 0 && op + |LongCode(n)| <= out.Length
    modifies out
    ensures op' == op + |LongCode(n)| && out[..op'] == old(out[..op]) + LongCode(n)
  {
    var t: nat := n;
    op' := op;
    while t > 255
      invariant 0 < t && op <= op' && op' + |LongCode(t)| == op + |LongCode(n)|
      invariant out[..op'] + LongCode(t) == old(out[..op]) + LongCode(n)
    {
      ghost var before := out[..op'];
      out[op'] := 0;
      assert out[..op' + 1] == before + [0];
      op', t := op' + 1, t - 255;
    }
    ghost var before := out[..op'];
    out[op'] := t;
    op' := op' + 1;
    assert out[..op'] == before + [t];
  }

  /** The header of a run; the two bits that are set with |= are zero. */
  method RunHeader(t: nat, out: array<Byte>, op: nat) returns (op': nat)
    requires t > 0 && op + RunSize(op == 0, t) <= out.Length && (op != 0 ==> op >= 2 && Low(out[op - 2]) == 0)
    modifies out
    ensures op' + t == op + RunSize(op == 0, t)
    ensures out[..op'] == Header(old(out[..op]), t)
  {
    hide RunCode;
    op' := op;
    if op == 0 && t <= 238 {
      out[0] := 17 + t;
      op' := 1;
    } else if t <= 3 {
      out[op - 2] := out[op - 2] + t;
    } else {
      op' := RunOut(t, out, op);
    }
  }

  method RunOut(t: nat, out: array<Byte>, op: nat) returns (op': nat)
    requires t >= 4 && op + |RunCode(t)| <= out.Length
    modifies out
    ensures op' == op + |RunCode(t)| && out[..op'] == old(out[..op]) + RunCode(t)
  {
    hide LongCode;
    ghost var s := out[..op];
    out[op] := if t <= 18 then t - 3 else 0;
    op' := op + 1;
    assert out[..op'] == s + [out[op]];
    if t > 18 {
      op' := LongOut(t - 18, out, op');
    }
  }

  /** STORE_RUN */
  method StoreRun(inp: array<Byte>, ii: nat, t: nat, out: array<Byte>, op: nat) returns (op': nat)
    requires inp != out && t > 0 && ii + t <= inp.Length && op + RunSize(op == 0, t) <= out.Length
    requires op != 0 ==> op >= 2 && Low(out[op - 2]) == 0
    modifies out
    ensures op' == op + RunSize(op == 0, t) && out[..op'] == Header(old(out[..op]), t) + inp[ii..ii + t]
  {
    hide Header, RunSize;
    op' := RunHeader(t, out, op);
    LzoOptimize.CopyLiterals(inp, ii, out, op', t);
    op' := op' + t;
  }

  method TwoBytes(a: Byte, b: Byte, out: array<Byte>, op: nat) returns (op': nat)
    requires op + 2 <= out.Length
    modifies out
    ensures op' == op + 2 && out[..op'] == old(out[..op]) + [a, b]
  {
    out[op], out[op + 1] := a, b;
    op' := op + 2;
  }

  method LengthOut(marker: nat, len: nat, max: nat, out: array<Byte>, op: nat) returns (op': nat)
    requires len >= 3 && max >= 2 && marker + max - 2 < 256 && op + |LengthCode(marker, len, max)| <= out.Length
    modifies out
    ensures op' == op + |LengthCode(marker, len, max)| && out[..op'] == old(out[..op]) + LengthCode(marker, len, max)
  {
    hide LongCode;
    ghost var s := out[..op];
    out[op] := if len <= max then marker + len - 2 else marker;
    op' := op + 1;
    assert out[..op'] == s + [out[op]];
    if len > max {
      op' := LongOut(len - max, out, op');
    }
  }

  /** code_match */
  method CodeMatch(mLen: nat, mOff: nat, r1Lit: nat, out: array<Byte>, op: nat) returns (op': nat)
    requires op > 0 && Codable(mLen, mOff, r1Lit) && op + |MatchCode(mLen, mOff, r1Lit)| <= out.Length
    modifies out
    ensures op' == op + |MatchCode(mLen, mOff, r1Lit)| && out[..op'] == old(out[..op]) + MatchCode(mLen, mOff, r1Lit)
  {
    hide LengthCode;
    var off := mOff - 1;
    if mLen == 2 {
      op' := TwoBytes(off % 4 * 4, off / 4, out, op);
    } else if mLen <= M2_MAX_LEN && mOff <= M2_MAX_OFFSET {
      op' := TwoBytes((mLen - 1) * 32 + off % 8 * 4, off / 8, out, op);
    } else if mLen == M2_MIN_LEN && mOff <= MX_MAX_OFFSET && r1Lit >= 4 {
      off := mOff - (1 + M2_MAX_OFFSET);
      op' := TwoBytes(off % 4 * 4, off / 4, out, op);
    } else {
      op' := FarMatch(mLen, mOff, out, op);
    }
  }

  /** *op++ = d << 2; *op++ = d >> 6; into bytes */
  method OffsetOut(d: nat, out: array<Byte>, op: nat) returns (op': nat)
    requires op + 2 <= out.Length
    modifies out
    ensures op' == op + 2 && out[..op'] == old(out[..op]) + OffsetCode(d)
  {
    op' := TwoBytes(d * 4 % 256, d / 64 % 256, out, op);
  }

  method FarMatch(mLen: nat, mOff: nat, out: array<Byte>, op: nat) returns (op': nat)
    requires mLen >= 3 && 1 <= mOff <= M4_MAX_OFFSET && op + |FarCode(mLen, mOff)| <= out.Length
    modifies out
    ensures op' == op + |FarCode(mLen, mOff)| && out[..op'] == old(out[..op]) + FarCode(mLen, mOff)
  {
    hide LengthCode, OffsetCode;
    if mOff <= M3_MAX_OFFSET {
      var off := mOff - 1;
      op' := LengthOut(M3_MARKER, mLen, M3_MAX_LEN, out, op);
      op' := OffsetOut(off, out, op');
    } else {
      var off := mOff - 0x4000;
      var k := off / 0x4000 % 2 * 8;
      op' := LengthOut(M4_MARKER + k, mLen, M4_MAX_LEN, out, op);
      op' := OffsetOut(off, out, op');
    }
  }

  predicate EndsWithMatch(s: seq<Byte>)
  {
    s != [] ==> |s| >= 2 && Low(s[|s| - 2]) == 0
  }

  lemma MatchAtEnd(s: seq<Byte>, data: seq<Byte>, p: Spot)
    requires Written(s, data, p)
    ensures EndsWithMatch(s)
  {
  }

  /** code_run */
  method CodeRun(inp: array<Byte>, ii: nat, lit: nat, out: array<Byte>, op: nat, ghost p: Spot) returns (op': nat)
    requires inp != out && ii + lit <= inp.Length && op + RunSize(op == 0, lit) <= out.Length && Written(out[..op], inp[..ii], p)
    requires op == 0 ==> lit > 0
    modifies out
    ensures op' == op + RunSize(op == 0, lit) && op' > 0 && Reach(out[..op'], ModeAfter(lit), inp[..ii + lit])
    ensures EndsWithMatch(old(out[..op])) && out[..op'] == WithRun(old(out[..op]), inp[ii..ii + lit])
  {
    hide Written, Header, Reach;
    MatchAtEnd(out[..op], inp[..ii], p);
    op' := op;
    if lit > 0 {
      RunStored(out[..op], inp[..ii], p, inp[ii..ii + lit]);
      op' := StoreRun(inp, ii, lit, out, op);
      assert inp[..ii] + inp[ii..ii + lit] == inp[..ii + lit];
    } else {
      Settled(out[..op], inp[..ii], p);
    }
  }

  /** One choice: code_run and code_match. */
  method CodeChoice(inp: array<Byte>, at: nat, c: Choice, out: array<Byte>, op: nat, ghost p: Spot) returns (op': nat, ghost p': Spot)
    requires inp != out && Allowed(c, at == 0) && Small(op, at) && op <= out.Length && MaxCompressedSize(inp.Length) <= out.Length
    requires c.off <= at + c.lit && at + c.lit + c.len <= inp.Length
    requires Repeats(inp[..], at + c.lit, c.off, c.len) && Written(out[..op], inp[..at], p)
    modifies out
    ensures op' <= out.Length && Small(op', at + c.lit + c.len) && Written(out[..op'], inp[..at + c.lit + c.len], p')
    ensures EndsWithMatch(old(out[..op])) && out[..op'] == WithChoice(old(out[..op]), inp[..], at, c)
  {
    hide Written, MatchCode, Reach, CopyMatch, Repeats, Codable, Allowed, Small, MaxCompressedSize, RunSize, WithRun, Low, ModeAfter, EndsWithMatch;
    StillSmall(op, at, c, inp.Length);
    op' := CodeRun(inp, at, c.lit, out, op, p);
    p' := Spot(op', ModeAfter(c.lit), inp[..at + c.lit], c.len, c.off);
    MatchWritten(out[..op'], inp[..at + c.lit], c.lit, c.len, c.off);
    op' := CodeMatch(c.len, c.off, c.lit, out, op');
    CopyIsInput(inp[..], at + c.lit, c.off, c.len);
    assert inp[..][..at + c.lit] == inp[..at + c.lit] && inp[..][..at + c.lit + c.len] == inp[..at + c.lit + c.len];
  }

  /** The next choice, and what is left. */
  lemma PackedNext(s: seq<Byte>, inp: seq<Byte>, choices: seq<Choice>, i: nat, at: nat)
    requires i < |choices| && Chosen(inp, choices[i..], at) && (s == [] <==> at == 0) && EndsWithMatch(s)
    ensures var c := choices[i];
            && Allowed(c, at == 0) && c.off <= at + c.lit && at + c.lit + c.len <= |inp| && Repeats(inp, at + c.lit, c.off, c.len)
            && Chosen(inp, choices[i + 1..], at + c.lit + c.len)
            && Packed(s, inp, choices[i..], at) == Packed(WithChoice(s, inp, at, c), inp, choices[i + 1..], at + c.lit + c.len)
  {
    hide Repeats, Codable, WithChoice, Low, M2_MIN_LEN, MX_MAX_OFFSET;
    var rest := choices[i..];
    assert rest[0] == choices[i] && rest[1..] == choices[i + 1..];
    assert Chosen(inp, rest, at);
  }

  lemma PackedLast(s: seq<Byte>, inp: seq<Byte>, at: nat)
    requires at <= |inp| && (s == [] <==> at == 0) && EndsWithMatch(s)
    ensures Chosen(inp, [], at)
    ensures Packed(s, inp, [], at) == (if at < |inp| then WithRun(s, inp[at..]) else s) + [M4_MARKER + 1, 0, 0]
  {
  }

  lemma NothingWritten(s: seq<Byte>, data: seq<Byte>)
    requires s == [] && data == []
    ensures Written(s, data, Spot(0, Top, [], 0, 0))
  {
  }

  /** lzo1x_999_compress_internal: whatever the search chooses, the stream fits the buffer that lzop sets aside for
      it and decodes to exactly the input. */
  method Compress(inp: array<Byte>, choices: seq<Choice>, out: array<Byte>) returns (op: nat)
    requires inp != out && Chosen(inp[..], choices, 0) && out.Length >= MaxCompressedSize(inp.Length)
    modifies out
    ensures op <= inp.Length + inp.Length / 16 + 5 && DecodeStream(out[..op]) == Done(inp[..], 0)
    ensures out[..op] == Packed([], inp[..], choices, 0)
  {
    hide Written, Repeats, Reach, DecodeStream, Allowed, WithChoice, Packed, Chosen, Low, Codable;
    var at: nat, i: nat := 0, 0;
    op := 0;
    NothingWritten(out[..op], inp[..at]);
    ghost var p := Spot(0, Top, [], 0, 0);
    while i < |choices|
      invariant 0 <= i <= |choices| && at <= inp.Length && Chosen(inp[..], choices[i..], at)
      invariant op <= out.Length && Small(op, at) && Written(out[..op], inp[..at], p)
      invariant EndsWithMatch(out[..op]) && Packed(out[..op], inp[..], choices[i..], at) == Packed([], inp[..], choices, 0)
    {
      var c := choices[i];
      PackedNext(out[..op], inp[..], choices, i, at);
      op, p := CodeChoice(inp, at, c, out, op, p);
      MatchAtEnd(out[..op], inp[..at + c.lit + c.len], p);
      at, i := at + c.lit + c.len, i + 1;
    }
    var lit := inp.Length - at;
    assert choices[i..] == [];
    PackedLast(out[..op], inp[..], at);
    if lit > 0 {
      op := CodeRun(inp, at, lit, out, op, p);
    } else {
      Settled(out[..op], inp[..at], p);
    }
    assert inp[..at + lit] == inp[..];
    EndWritten(out[..op], ModeAfter(lit), inp[..]);
    op := EndOut(out, op);
  }

  method EndOut(out: array<Byte>, op: nat) returns (op': nat)
    requires op + 3 <= out.Length
    modifies out
    ensures op' == op + 3 && out[..op'] == old(out[..op]) + [M4_MARKER + 1, 0, 0]
  {
    out[op], out[op + 1], out[op + 2] := M4_MARKER + 1, 0, 0;
    op' := op + 3;
  }
}
