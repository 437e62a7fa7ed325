/** A decoder for LZO1X streams, as lzo1x_decompress_safe reads them. It works on the bytes
    that remain; every reader says how many it takes. */
module Lzo {
  import opened Bits
  import opened Inflate

  /** What an instruction byte below 16 means depends on what came before it. */
  datatype Mode = Top | AfterRun | AfterShort

  /** One instruction of `size` bytes, not counting literals. */
  datatype Instr = Run(n: nat, size: nat) | Copy(len: nat, dist: nat, size: nat) | End(size: nat) | Broken

  datatype Long = Long(value: nat, size: nat) | NoLong

  /** A length continued over zero bytes, each worth 255. */
  function ReadLong(s: seq<Byte>, at: nat, base: nat): (r: Long)
    ensures r.Long? ==> at < r.size <= |s| && r.value > base
    decreases |s| - at
  {
    if at >= |s| then NoLong
    else if s[at] == 0 then ReadLong(s, at + 1, base + 255)
    else Long(base + s[at], at + 1)
  }

  /** A length of which the low bits are t, continued after the first byte if they are zero. */
  function ReadLength(s: seq<Byte>, t: nat, base: nat): (r: Long)
    requires |s| >= 1
    ensures r.Long? ==> 1 <= r.size <= |s| && r.value > 0 && (t > 0 ==> r == Long(t, 1))
  {
    if t == 0 then ReadLong(s, 1, base) else Long(t, 1)
  }

  function Dist(base: nat, low: nat, high: nat): (d: nat)
  {
    base + low + high
  }

  function Parse(s: seq<Byte>, mode: Mode): (r: Instr)
    ensures r.Run? ==> mode == Top && 1 <= r.size <= |s| && r.n >= 4
    ensures r.Copy? ==> 2 <= r.size <= |s| && r.len >= 2 && r.dist >= 1
    ensures r.End? ==> 2 <= r.size <= |s|
  {
    if s == [] then Broken
    else if s[0] >= 64 then
      if |s| < 2 then Broken else Copy(s[0] / 32 + 1, Dist(1, s[0] / 4 % 8, 8 * (s[1] as int)), 2)
    else if s[0] >= 32 then
      match ReadLength(s, s[0] % 32, 31)
      case NoLong => Broken
      case Long(t, q) => if |s| < q + 2 then Broken else Copy(t + 2, Dist(1, s[q] / 4, 64 * (s[q + 1] as int)), q + 2)
    else if s[0] >= 16 then
      match ReadLength(s, s[0] % 8, 7)
      case NoLong => Broken
      case Long(t, q) =>
        if |s| < q + 2 then Broken
        else
          var d := Dist(16384 * (s[0] as int / 8 % 2), s[q] / 4, 64 * (s[q + 1] as int));
          if d == 0 then End(q + 2) else Copy(t + 2, d + 16384, q + 2)
    else if mode == Top then
      match ReadLength(s, s[0], 15)
      case NoLong => Broken
      case Long(t, q) => Run(t + 3, q)
    else if |s| < 2 then Broken
    else if mode == AfterRun then Copy(3, Dist(0x801, s[0] / 4, 4 * (s[1] as int)), 2)
    else Copy(2, Dist(1, s[0] / 4, 4 * (s[1] as int)), 2)
  }

  /** The two bits that count a copy's literals. */
  function Low(b: Byte): (n: nat)
    ensures n < 4
  {
    b % 4
  }

  /** Next: `used` bytes taken, and the state after them. Done: the data, and how many bytes are left. */
  datatype Result = Next(used: nat, mode: Mode, out: seq<Byte>) | Done(out: seq<Byte>, left: nat) | Fail

  /** One instruction and its literals; a copy's literals are counted in the low bits of its last byte but one. */
  function Step(s: seq<Byte>, mode: Mode, out: seq<Byte>): (r: Result)
    ensures r.Next? ==> 1 <= r.used <= |s|
  {
    match Parse(s, mode)
    case Broken => Fail
    case End(q) => Done(out, |s| - q)
    case Run(n, q) => if q + n <= |s| then Next(q + n, AfterRun, out + s[q..q + n]) else Fail
    case Copy(len, dist, q) =>
      var nl := Low(s[q - 2]);
      if dist <= |out| && q + nl <= |s| then
        Next(q + nl, if nl == 0 then Top else AfterShort, CopyMatch(out, dist, len) + s[q..q + nl])
      else Fail
  }

  function Decode(s: seq<Byte>, mode: Mode, out: seq<Byte>): (r: Result)
    ensures !r.Next?
    decreases |s|
  {
    match Step(s, mode, out)
    case Next(k, mode', out') => Decode(s[k..], mode', out')
    case r => r
  }

  /** A whole stream; a first byte above 17 starts with literals. */
  function DecodeStream(s: seq<Byte>): (r: Result)
    ensures !r.Next?
  {
    if s == [] then Fail
    else if s[0] > 17 then
      var t := s[0] - 17;
      if 1 + t <= |s| then Decode(s[1 + t..], if t < 4 then AfterShort else AfterRun, s[1..1 + t]) else Fail
    else Decode(s, Top, [])
  }

  // ---- what an instruction depends on ----

  lemma {:induction false} ReadLongAgain(s: seq<Byte>, s': seq<Byte>, at: nat, base: nat)
    requires ReadLong(s, at, base).Long? && ReadLong(s, at, base).size <= |s'|
    requires s[..ReadLong(s, at, base).size] == s'[..ReadLong(s, at, base).size]
    ensures ReadLong(s', at, base) == ReadLong(s, at, base)
    decreases |s| - at
  {
    var n := ReadLong(s, at, base).size;
    assert s[..n][at] == s'[..n][at];
    if s[at] == 0 {
      ReadLongAgain(s, s', at + 1, base + 255);
    }
  }

  lemma ReadLengthAgain(s: seq<Byte>, s': seq<Byte>, t: nat, base: nat)
    requires |s| >= 1 && ReadLength(s, t, base).Long? && ReadLength(s, t, base).size <= |s'|
    requires s[..ReadLength(s, t, base).size] == s'[..ReadLength(s, t, base).size]
    ensures ReadLength(s', t, base) == ReadLength(s, t, base)
  {
    if t == 0 {
      ReadLongAgain(s, s', 1, base);
    }
  }

  /** The same instruction but for the two low bits of its last byte but one. */
  predicate SameInstr(s: seq<Byte>, s': seq<Byte>, size: nat)
  {
    && 2 <= size <= |s| && size <= |s'|
    && s[..size - 2] == s'[..size - 2]
    && s[size - 2] / 4 == s'[size - 2] / 4
    && s[size - 1] == s'[size - 1]
  }

  lemma ShortAgain(s: seq<Byte>, s': seq<Byte>, mode: Mode)
    requires Parse(s, mode).Copy? && SameInstr(s, s', Parse(s, mode).size) && (s[0] < 16 || s[0] >= 64)
    ensures Parse(s', mode) == Parse(s, mode)
  {
    assert Parse(s, mode).size == 2;
    Quarters(s[0], s'[0]);
  }

  lemma Quarters(a: Byte, b: Byte)
    requires a / 4 == b / 4
    ensures a >= 16 <==> b >= 16
    ensures a >= 64 <==> b >= 64
    ensures a / 32 == b / 32
  {
  }

  lemma LongerAgain(s: seq<Byte>, s': seq<Byte>, mode: Mode)
    requires Parse(s, mode).Copy? && SameInstr(s, s', Parse(s, mode).size) && 16 <= s[0] < 64
    ensures Parse(s', mode) == Parse(s, mode)
  {
    var q := Parse(s, mode).size - 2;
    assert q >= 1 && s[..q][0] == s'[..q][0];
    if s[0] >= 32 {
      ReadLengthAgain(s, s', s[0] % 32, 31);
    } else {
      ReadLengthAgain(s, s', s[0] % 8, 7);
    }
  }

  /** A copy instruction's meaning does not depend on the two bits that count its literals, nor on
      anything behind it. */
  lemma CopyAgain(s: seq<Byte>, s': seq<Byte>, mode: Mode)
    requires Parse(s, mode).Copy? && SameInstr(s, s', Parse(s, mode).size)
    ensures Parse(s', mode) == Parse(s, mode)
  {
    if 16 <= s[0] < 64 {
      LongerAgain(s, s', mode);
    } else {
      ShortAgain(s, s', mode);
    }
  }

  lemma RunAgain(s: seq<Byte>, s': seq<Byte>)
    requires Parse(s, Top).Run? && Parse(s, Top).size <= |s'| && s[..Parse(s, Top).size] == s'[..Parse(s, Top).size]
    ensures Parse(s', Top) == Parse(s, Top)
  {
    var q := Parse(s, Top).size;
    assert s[..q][0] == s'[..q][0];
    ReadLengthAgain(s, s', s[0], 15);
  }

  /** A step depends only on the bytes it takes. */
  lemma StepAgain(s: seq<Byte>, s': seq<Byte>, mode: Mode, out: seq<Byte>)
    requires Step(s, mode, out).Next? && Step(s, mode, out).used <= |s'|
    requires s[..Step(s, mode, out).used] == s'[..Step(s, mode, out).used]
    ensures Step(s', mode, out) == Step(s, mode, out)
  {
    hide Parse, CopyMatch;
    var k := Step(s, mode, out).used;
    var i := Parse(s, mode);
    assert forall j :: 0 <= j < k ==> s[j] == s[..k][j] == s'[j];
    assert s[..i.size] == s[..k][..i.size] == s'[..i.size];
    if i.Run? {
      RunAgain(s, s');
    } else {
      assert s[..i.size - 2] == s'[..i.size - 2];
      CopyAgain(s, s', mode);
    }
    assert s[i.size..k] == s[..k][i.size..] == s'[i.size..k];
  }

  /** A stream that does not start with literals, as far as can be told from s behind pre. */
  predicate Plain(pre: seq<Byte>, s: seq<Byte>)
  {
    pre == [] && s != [] ==> s[0] <= 17
  }

  /** Decoding any stream that starts with pre comes to this state behind pre. */
  ghost predicate Reach(pre: seq<Byte>, mode: Mode, out: seq<Byte>)
  {
    forall s :: Plain(pre, s) ==> DecodeStream(pre + s) == Decode(s, mode, out)
  }

  lemma StepReaches(pre: seq<Byte>, mode: Mode, out: seq<Byte>, s: seq<Byte>)
    requires Reach(pre, mode, out) && Step(s, mode, out).Next? && Plain(pre, s)
    ensures var r := Step(s, mode, out); Reach(pre + s[..r.used], r.mode, r.out)
  {
    hide Step, DecodeStream;
    var r := Step(s, mode, out);
    var pre' := pre + s[..r.used];
    forall u | Plain(pre', u) ensures DecodeStream(pre' + u) == Decode(u, r.mode, r.out) {
      var s' := s[..r.used] + u;
      assert pre' + u == pre + s' && Plain(pre, s');
      assert DecodeStream(pre + s') == Decode(s', mode, out);
      assert s'[..r.used] == s[..r.used] && s'[r.used..] == u;
      StepAgain(s, s', mode, out);
    }
  }

  lemma StartsPlain()
    ensures Reach([], Top, [])
  {
    hide Decode;
    forall s | Plain([], s) ensures DecodeStream([] + s) == Decode(s, Top, []) {
      assert [] + s == s;
      if s == [] {
        assert Decode([], Top, []) == Fail by { NothingLeft(); }
      }
    }
  }

  lemma NothingLeft()
    ensures Decode([], Top, []) == Fail
  {
  }

  /** Where a stream that starts with literals stands behind them. */
  lemma StartsWithLiterals(first: seq<Byte>)
    requires |first| >= 2 && first[0] == |first| - 1 + 17
    ensures Reach(first, if |first| < 5 then AfterShort else AfterRun, first[1..])
  {
    hide Decode;
    var mode := if |first| < 5 then AfterShort else AfterRun;
    forall u | Plain(first, u) ensures DecodeStream(first + u) == Decode(u, mode, first[1..]) {
      var s := first + u;
      assert s[1..|first|] == first[1..] && s[|first|..] == u;
    }
  }
}
