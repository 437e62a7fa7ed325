/** The bit-string routines of the compressor: a 32-bit accumulator in front of
    an output buffer that is written out whenever it fills. */
module BitSinks {
  import opened Bits

  const OUTBUFSIZ := 8192
  const BUF_SIZE := 32

  /** Zero bits up to the next byte boundary. */
  function Padding(n: nat): (b: seq<bool>)
    ensures (n + |b|) % 8 == 0 && |b| < 8
  {
    if n % 8 == 0 then [] else ToBits(0, 8 - n % 8)
  }

  class BitSink {
    ghost var sent: seq<bool>  // the bit string sent so far
    var written: seq<Byte>     // everything handed to write() so far
    const outbuf: array<Byte>
    var outcnt: nat
    var biBuf: nat
    var biValid: nat

    ghost predicate Valid()
      reads this, outbuf
    {
      && BufferOk()
      && biValid < BUF_SIZE
      && biBuf < Pow2(biValid)
      && sent == BytesBits(Out()) + ToBits(biBuf, biValid)
    }

    ghost predicate BufferOk()
      reads this, outbuf
    {
      outbuf.Length == OUTBUFSIZ && outcnt < OUTBUFSIZ
    }

    /** All whole bytes produced so far, flushed or not. */
    ghost function Out(): (s: seq<Byte>)
      reads this, outbuf
      requires outcnt <= outbuf.Length
    {
      written + outbuf[..outcnt]
    }

    constructor ()
      ensures Valid() && sent == [] && Out() == []
      ensures fresh(outbuf)
    {
      outbuf := new Byte[OUTBUFSIZ](i => 0);
      written, outcnt, biBuf, biValid, sent := [], 0, 0, 0, [];
    }

    method FlushOutbuf()
      requires outcnt <= outbuf.Length
      modifies this`written, this`outcnt
      ensures outcnt == 0 && Out() == old(Out())
    {
      if outcnt == 0 {
        return;
      }
      written := written + outbuf[..outcnt];
      outcnt := 0;
    }

    method Put8bit(c: Byte)
      requires BufferOk()
      modifies this`written, this`outcnt, outbuf
      ensures BufferOk() && Out() == old(Out()) + [c]
    {
      ghost var before := Out();
      outbuf[outcnt] := c;
      outcnt := outcnt + 1;
      assert outbuf[..outcnt] == old(outbuf[..outcnt]) + [c];
      assert Out() == before + [c];
      if outcnt == OUTBUFSIZ {
        FlushOutbuf();
      }
    }

    method Put16bit(w: nat)
      requires BufferOk() && w < 65536
      modifies this`written, this`outcnt, outbuf
      ensures BufferOk() && Out() == old(Out()) + [w % 256, w / 256]
    {
      ghost var before := Out();
      var start := outcnt;
      outbuf[start] := w % 256;
      if start < OUTBUFSIZ - 2 {
        outbuf[start + 1] := w / 256;
        outcnt := start + 2;
        assert outbuf[..outcnt] == old(outbuf[..outcnt]) + [w % 256, w / 256];
        return;
      }
      outcnt := start + 1;
      assert outbuf[..outcnt] == old(outbuf[..outcnt]) + [w % 256];
      if outcnt == OUTBUFSIZ {
        FlushOutbuf();
      }
      Put8bit(w / 256);
      assert before + [w % 256] + [w / 256] == before + [w % 256, w / 256];
    }

    method Put32bit(n: nat)
      requires BufferOk() && n < TWO32
      modifies this`written, this`outcnt, outbuf
      ensures BufferOk()
      ensures BytesBits(Out()) == BytesBits(old(Out())) + ToBits(n, 32)
      ensures Out() == old(Out()) + Le32(n)
    {
      ghost var before := Out();
      Put16bit(n % 65536);
      Put16bit(n / 65536);
      Word32(before, n);
      assert before + Le32(n) == before + [n % 65536 % 256, n % 65536 / 256] + [n / 65536 % 256, n / 65536 / 256];
    }

    /** Appends the low `length` bits of `value`. */
    method SendBits(value: nat, length: nat)
      requires Valid()
      requires length <= 16 && value < Pow2(length)
      modifies this, outbuf
      ensures Valid()
      ensures sent == old(sent) + ToBits(value, length)
      ensures old(Out()) <= Out()
    {
      hide ToBits, BytesBits, Or, ShiftIn, Shr;
      var newBuf := Or(biBuf, ShiftIn(value, biValid), 32);
      var len := length + biValid;
      ghost var bytes := BytesBits(Out());
      if len >= BUF_SIZE {
        var rest := Shr(value, BUF_SIZE - biValid);
        SpillSplits(bytes, value, length, biBuf, biValid);
        Put32bit(newBuf);
        newBuf := rest;
        len := len - BUF_SIZE;
      } else {
        NoSpill(bytes, value, length, biBuf, biValid);
      }
      biBuf := newBuf;
      biValid := len;
      sent := BytesBits(Out()) + ToBits(biBuf, biValid);
    }

    /** Pads with zero bits to a byte boundary and empties the accumulator. */
    method BiWindup()
      requires Valid()
      modifies this, outbuf
      ensures Valid() && biValid == 0
      ensures sent == old(sent) + Padding(|old(sent)|)
      ensures sent == BytesBits(Out())
      ensures old(Out()) <= Out()
    {
      hide BytesBits, ToBits, Pow2, Padding;
      var bits := biBuf;
      var cnt: int := biValid;
      ghost var left := biValid + |Padding(biValid)|;
      ghost var n := left / 8;
      PadSent(Out(), biBuf, biValid);
      sent := sent + Padding(|sent|);
      while cnt > 0
        invariant BufferOk() && sent == old(sent) + Padding(|old(sent)|)
        invariant 0 <= n && left == 8 * n && cnt <= left && (n > 0 ==> left < cnt + 8)
        invariant BytesBits(Out()) + ToBits(bits, left) == sent
        invariant old(Out()) <= Out()
      {
        ByteOff(Out(), bits, left);
        Put8bit(bits % 256);
        bits := bits / 256;
        cnt := cnt - 8;
        left, n := left - 8, n - 1;
      }
      biBuf := 0;
      biValid := 0;
      NothingHeld(Out(), bits);
    }

    /** A stored block's body: LEN, NLEN and the bytes themselves, byte aligned. */
    method CopyBlock(buf: seq<Byte>)
      requires Valid()
      requires |buf| < TWO32
      modifies this, outbuf
      ensures Valid() && biValid == 0
      ensures sent == old(sent) + Padding(|old(sent)|) + StoredBody(buf)
      ensures old(Out()) <= Out()
    {
      hide BytesBits, Or, Padding;
      BiWindup();
      assert biBuf == 0;
      // (uint16_t)len | ((~len) << 16), in 32 bits
      var v := Or(|buf| % 65536, (TWO32 - 1 - |buf|) * 65536 % TWO32, 32);
      LenAndComplement(|buf|);
      ghost var aligned := sent;
      assert aligned == BytesBits(Out());
      Put32bit(v);
      BytesBitsAppend(Out(), buf);
      PutBytes(buf);
      sent := BytesBits(Out()) + ToBits(biBuf, biValid);
      Regroup4(aligned, ToBits(|buf| % 65536, 16), ToBits(65535 - |buf| % 65536, 16), BytesBits(buf));
    }

    method PutBytes(buf: seq<Byte>)
      requires BufferOk()
      modifies this`written, this`outcnt, outbuf
      ensures BufferOk() && Out() == old(Out()) + buf
    {
      var i := 0;
      while i < |buf|
        invariant 0 <= i <= |buf|
        invariant BufferOk() && Out() == old(Out()) + buf[..i]
      {
        Put8bit(buf[i]);
        assert buf[..i + 1] == buf[..i] + [buf[i]];
        i := i + 1;
      }
      assert buf[..i] == buf;
    }
  }

  /** LEN, its one's complement, and the data. */
  function StoredBody(buf: seq<Byte>): (b: seq<bool>)
  {
    ToBits(|buf| % 65536, 16) + ToBits(65535 - |buf| % 65536, 16) + BytesBits(buf)
  }

  lemma Shl8(v: nat)
    ensures Shl(v, 8) == 256 * v && Pow2(8) == 256
  {
    Shl4(v);
    ShlShl(v, 4, 4);
    Shl4(Shl(v, 4));
  }

  lemma Shl4(v: nat)
    ensures Shl(v, 4) == 16 * v
  {
  }

  lemma Shl16(v: nat)
    ensures Shl(v, 16) == 65536 * v && Pow2(16) == 65536
  {
    hide Shl, Pow2;
    Shl8(v);
    ShlShl(v, 8, 8);
    Shl8(Shl(v, 8));
    Pow2IsShl(16);
    Shl8(1);
    ShlShl(1, 8, 8);
    Shl8(256);
  }

  lemma Shl32(v: nat, n: nat)
    requires n == 32
    ensures Shl(v, n) == TWO32 * v && Pow2(n) == TWO32
  {
    hide Shl, Pow2;
    Shl16(v);
    ShlShl(v, 16, 16);
    Shl16(Shl(v, 16));
    Pow2IsShl(n);
    Shl16(1);
    ShlShl(1, 16, 16);
    Shl16(65536);
  }

  /** Four bytes, least significant first. */
  function Le32(n: nat): (b: seq<Byte>)
    requires n < TWO32
    ensures |b| == 4
  {
    [n % 65536 % 256, n % 65536 / 256] + [n / 65536 % 256, n / 65536 / 256]
  }

  lemma Word32(before: seq<Byte>, n: nat)
    requires n < TWO32
    ensures BytesBits(before + [n % 65536 % 256, n % 65536 / 256] + [n / 65536 % 256, n / 65536 / 256])
         == BytesBits(before) + ToBits(n, 32)
  {
    hide ToBits, BytesBits;
    var a, b := n % 65536, n / 65536;
    TwoBytes(a);
    TwoBytes(b);
    BytesBitsAppend(before, [a % 256, a / 256]);
    BytesBitsAppend(before + [a % 256, a / 256], [b % 256, b / 256]);
    Shl16(b);
    ToBitsJoin(a, b, 16, 16);
  }

  lemma TwoBytes(w: nat)
    requires w < 65536
    ensures BytesBits([w % 256, w / 256]) == ToBits(w, 16)
  {
    OneByte(w % 256);
    OneByte(w / 256);
    BytesBitsAppend([w % 256], [w / 256]);
    Shl8(w / 256);
    ToBitsJoin(w % 256, w / 256, 8, 8);
  }

  lemma OneByte(b: Byte)
    ensures BytesBits([b]) == ToBits(b, 8)
  {
    BytesBitsAt([b], 0);
    assert BytesBits([b])[0..8] == BytesBits([b]);
  }

  /** value << valid, in 32 bits. */
  function ShiftIn(value: nat, valid: nat): (r: nat)
  {
    Shl(value, valid) % TWO32
  }

  lemma Below32(n: nat)
    requires n <= 32
    ensures Pow2(n) <= TWO32
  {
    Pow2Monotone(n, 32);
    Shl32(0, 32);
  }

  /** The accumulator has room: or-ing the value in appends its bits. */
  lemma JoinBits(value: nat, length: nat, buf: nat, valid: nat)
    requires value < Pow2(length) && buf < Pow2(valid) && length + valid <= 32
    ensures var r := Or(buf, ShiftIn(value, valid), 32);
            r < Pow2(length + valid) && ToBits(r, valid + length) == ToBits(buf, valid) + ToBits(value, length)
  {
    hide Shl, Pow2, ToBits, Or;
    ShlBelow(value, length, valid);
    Below32(length + valid);
    assert ShiftIn(value, valid) == Shl(value, valid);
    Pow2Monotone(length, 32 - valid);
    OrDisjoint(buf, value, valid, 32);
    ToBitsJoin(buf, value, valid, length);
  }

  lemma NoSpill(bytes: seq<bool>, value: nat, length: nat, buf: nat, valid: nat)
    requires value < Pow2(length) && buf < Pow2(valid) && length + valid < 32
    ensures var r := Or(buf, ShiftIn(value, valid), 32);
            && r < Pow2(length + valid)
            && bytes + ToBits(r, length + valid) == bytes + ToBits(buf, valid) + ToBits(value, length)
  {
    JoinBits(value, length, buf, valid);
  }

  /** Bits shifted out of the 32-bit word do not matter to it. */
  lemma ShiftDrops(low: nat, rest: nat, k: nat, valid: nat)
    requires k + valid == 32
    ensures ShiftIn(low + Shl(rest, k), valid) == ShiftIn(low, valid)
  {
    ShlSum(low, Shl(rest, k), valid);
    ShlShl(rest, k, valid);
    Shl32(rest, k + valid);
    Mod32(Shl(low, valid), rest);
  }

  lemma Mod32(a: nat, k: nat)
    ensures (a + TWO32 * k) % TWO32 == a % TWO32
  {
  }

  /** The accumulator fills: 32 bits go out, the rest of the value stays. */
  lemma SpillSplits(bytes: seq<bool>, value: nat, length: nat, buf: nat, valid: nat)
    requires value < Pow2(length) && length <= 16 && buf < Pow2(valid) && valid < 32 && length + valid >= 32
    ensures var word := Or(buf, ShiftIn(value, valid), 32);
            var rest := Shr(value, 32 - valid);
            && word < TWO32
            && rest < Pow2(length + valid - 32)
            && bytes + ToBits(word, 32) + ToBits(rest, length + valid - 32)
               == bytes + ToBits(buf, valid) + ToBits(value, length)
  {
    hide Shl, Shr, Pow2, ToBits, Or, ShiftIn;
    var k := 32 - valid;
    var rest := Shr(value, k);
    ShrSplit(value, k);
    var low := value - Shl(rest, k);
    ShiftDrops(low, rest, k, valid);
    JoinBits(low, k, buf, valid);
    Below32(32);
    ToBitsSplit(value, k, length - k);
    ToBitsMod(low, rest, k);
    ShrFits(value, length, k);
  }

  /** Padding the whole string is padding the accumulator. */
  lemma PadSent(out: seq<Byte>, buf: nat, valid: nat)
    requires buf < Pow2(valid)
    ensures var sent := BytesBits(out) + ToBits(buf, valid);
            sent + Padding(|sent|) == BytesBits(out) + ToBits(buf, valid + |Padding(valid)|)
  {
    Mod8(|out|, valid);
    ToBitsJoin(buf, 0, valid, |Padding(valid)|);
    ShlZero(valid);
  }

  lemma NothingHeld(out: seq<Byte>, bits: nat)
    ensures BytesBits(out) + ToBits(bits, 0) == BytesBits(out) == BytesBits(out) + ToBits(0, 0) && 0 < Pow2(0)
  {
  }

  lemma Regroup4(a: seq<bool>, b: seq<bool>, c: seq<bool>, d: seq<bool>)
    ensures a + (b + c) + d + [] == a + (b + c + d)
  {
  }

  lemma Mod8(k: nat, n: nat)
    ensures (8 * k + n) % 8 == n % 8
  {
  }

  /** One byte moves from the accumulator to the output. */
  lemma ByteOff(out: seq<Byte>, bits: nat, n: nat)
    requires n >= 8
    ensures BytesBits(out) + ToBits(bits, n) == BytesBits(out + [bits % 256]) + ToBits(bits / 256, n - 8)
  {
    var b: Byte := bits % 256;
    Shl8(bits / 256);
    ToBitsJoin(b, bits / 256, 8, n - 8);
    BytesBitsAppend(out, [b]);
    OneByte(b);
  }

  lemma LenAndComplement(len: nat)
    requires len < TWO32
    ensures var v := Or(len % 65536, (TWO32 - 1 - len) * 65536 % TWO32, 32);
            v < TWO32 && ToBits(v, 32) == ToBits(len % 65536, 16) + ToBits(65535 - len % 65536, 16)
  {
    hide Shl, Pow2, ToBits, Or;
    var l := len % 65536;
    var c := 65535 - l;
    ComplementShift(len);
    Shl32(0, 32);
    OrDisjoint(l, c, 16, 32);
    ToBitsJoin(l, c, 16, 16);
  }

  lemma ComplementShift(len: nat)
    requires len < TWO32
    ensures (TWO32 - 1 - len) * 65536 % TWO32 == Shl(65535 - len % 65536, 16)
    ensures Pow2(16) == 65536
  {
    var l, q := len % 65536, len / 65536;
    var c := 65535 - l;
    Shl16(c);
    assert (TWO32 - 1 - len) * 65536 == c * 65536 + TWO32 * (65535 - q) by {
      assert len == 65536 * q + l;
    }
    Mod32(c * 65536, 65535 - q);
  }
}
