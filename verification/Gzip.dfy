/** zip: the gzip container around the compressed data (section 2.3 of RFC 1952). */
module Gzip {
  import opened Bits
  import opened Inflate
  import opened BitSinks
  import opened CodeLengths
  import opened Tally
  import opened Block
  import opened Reading
  import opened Chains
  import opened WindowEnd
  import opened Matching
  import opened Deflating

  const HEADER := 10

  /** A reader for one member without optional header fields: magic, method 8, no flags, ten bytes
      of header, the compressed data, the checksum and the size modulo 2^32. The checksum starts
      from all ones and is stored complemented. */
  ghost function ReadMember(step: (nat, Byte) -> nat, bytes: seq<Byte>): (r: Read<seq<Byte>>)
  {
    if !Header(bytes) then Bad
    else
      match ReadBlocks(BytesBits(bytes), 8 * HEADER, [])
      case Bad => Bad
      case Got(out, p) =>
        var q := (p + 7) / 8;
        if |bytes| == q + 8 && Number32(bytes[q..q + 4]) == TWO32 - 1 - Checksum(step, TWO32 - 1, out) && Number32(bytes[q + 4..]) == |out| % TWO32 then
          Got(out, |bytes|)
        else Bad
  }

  /** Four bytes, least significant first. */
  function Number32(b: seq<Byte>): (n: nat)
    requires |b| == 4
  {
    b[0] + 256 * (b[1] as int) + 65536 * (b[2] as int) + 16777216 * (b[3] as int)
  }

  lemma Number32Is(n: nat)
    requires n < TWO32
    ensures Number32(Le32(n)) == n
  {
  }

  /** The header this program writes: no flags, no time, the flag of the slowest level, and Unix. */
  function HeaderBytes(slow: bool): (h: seq<Byte>)
    ensures |h| == HEADER && Header(h)
  {
    [0x1f, 0x8b, 8, 0] + [0, 0, 0, 0] + [if slow then 2 else 0, 3]
  }

  predicate Header(bytes: seq<Byte>)
  {
    |bytes| >= HEADER && bytes[..4] == [0x1f, 0x8b, 8, 0]
  }

  function Trailer(step: (nat, Byte) -> nat, out: seq<Byte>): (t: seq<Byte>)
  {
    Le32(TWO32 - 1 - Checksum(step, TWO32 - 1, out)) + Le32(|out| % TWO32)
  }

  lemma PrefixBits(a: seq<Byte>, b: seq<Byte>)
    requires a <= b
    ensures BytesBits(a) <= BytesBits(b)
  {
    hide BytesBits;
    assert b == a + b[|a|..];
    BytesBitsAppend(a, b[|a|..]);
  }

  lemma PrefixBytes(a: seq<Byte>, b: seq<Byte>)
    requires BytesBits(a) <= BytesBits(b)
    ensures a <= b
  {
    BytesBitsSize(a);
    BytesBitsSize(b);
    forall i | 0 <= i < |a| ensures a[i] == b[i] {
      BytesBitsAt(a, i);
      BytesBitsAt(b, i);
      SamePart(BytesBits(a), BytesBits(b), 8 * i);
      assert Pow2(8) == 256;
      FromToBits(a[i], 8);
      FromToBits(b[i], 8);
    }
  }

  lemma SamePart(a: seq<bool>, b: seq<bool>, k: nat)
    requires a <= b && k + 8 <= |a|
    ensures a[k..k + 8] == b[k..k + 8]
  {
  }

  /** The compressed data ends at the last byte before the trailer. */
  lemma DataEnds(body: seq<Byte>, mid: seq<bool>)
    requires BytesBits(body) == mid + Padding(|mid|)
    ensures (|mid| + 7) / 8 == |body|
  {
    BytesBitsSize(body);
    assert |mid| + |Padding(|mid|)| == 8 * |body|;
  }

  lemma BlocksRead(start: seq<bool>, body: seq<Byte>, mid: seq<bool>, out: seq<Byte>, bytes: seq<Byte>)
    requires Decodes(start, mid, out) && BytesBits(body) == mid + Padding(|mid|) && body <= bytes
    ensures ReadBlocks(BytesBits(bytes), |start|, []) == Got(out, |mid|)
  {
    hide ReadBlocks, Padding, BytesBits;
    PrefixBits(body, bytes);
    assert mid <= BytesBits(body) <= BytesBits(bytes);
  }

  /** Header, data and trailer make a member that reads back as the input. */
  lemma MemberReads(step: (nat, Byte) -> nat, start: seq<bool>, body: seq<Byte>, mid: seq<bool>, out: seq<Byte>)
    requires Decodes(start, mid, out) && |start| == 8 * HEADER && BytesBits(body) == mid + Padding(|mid|) && Header(body)
    ensures var bytes := body + Trailer(step, out);
            ReadMember(step, bytes) == Got(out, |bytes|)
  {
    hide Padding, BytesBits, Decodes, Trailer, ReadBlocks, Number32;
    var t, bytes := Trailer(step, out), body + Trailer(step, out);
    TrailerIs(step, out);
    assert bytes[|body|..|body| + 4] == t[..4] && bytes[|body| + 4..] == t[4..];
    assert bytes[..4] == body[..4] && body <= bytes;
    BlocksRead(start, body, mid, out, bytes);
    DataEnds(body, mid);
  }

  lemma TrailerIs(step: (nat, Byte) -> nat, out: seq<Byte>)
    ensures var t := Trailer(step, out);
            |t| == 8 && Number32(t[..4]) == TWO32 - 1 - Checksum(step, TWO32 - 1, out) && Number32(t[4..]) == |out| % TWO32
  {
    hide Le32, Number32, Checksum;
    var crc, size := TWO32 - 1 - Checksum(step, TWO32 - 1, out), |out| % TWO32;
    Number32Is(crc);
    Number32Is(size);
    assert Trailer(step, out)[..4] == Le32(crc) && Trailer(step, out)[4..] == Le32(size);
  }

  /** The ten bytes of header; lm_init, which comes between them, does not write. */
  method PutHeader(sink: BitSink, slow: bool)
    requires sink.Valid() && sink.Out() == [] && sink.sent == []
    modifies sink, sink.outbuf
    ensures sink.Valid() && sink.BufferOk() && |sink.sent| == 8 * HEADER && sink.sent == BytesBits(sink.Out())
    ensures sink.Out() == HeaderBytes(slow)
  {
    assert Le32(0x00088b1f) == [0x1f, 0x8b, 8, 0] && Le32(0) == [0, 0, 0, 0];
    assert sink.biValid == 0;
    hide BytesBits, Le32;
    sink.Put32bit(0x00088b1f);
    sink.Put32bit(0);
    sink.Put16bit(if slow then 0x302 else 0x300);
    sink.sent := BytesBits(sink.Out());
    ghost var out := sink.Out();
    assert |BytesBits(out)| == 80 by { BytesBitsSize(out); }
    assert BytesBits(out) + ToBits(sink.biBuf, 0) == BytesBits(out);
  }

  lemma BytesBitsSize(s: seq<Byte>)
    ensures |BytesBits(s)| == 8 * |s|
  {
  }

  /** The input of its length that makes the assertion of longest_match fail, and the search leave the window if any
      does; every read returns all it can, and the window starts out cleared. At every level max_lazy_match is
      between these bounds. */
  ghost predicate Tight(src: Source, window: array<Byte>, cfg: Config)
    reads window
  {
    var n := |src.data|;
    && MayBeShort(n) && src.data == Worst(n) && src.Plenty() && MIN_MATCH <= cfg.maxLazy <= MAX_MATCH
    && window.Length >= WINDOW_SIZE && forall i :: 0 <= i < WINDOW_SIZE ==> window[i] == 0
  }

  /** zip: for every input, every way of reading it and every choice of the heuristics, the output
      is a gzip member that reads back as exactly the bytes read. The search leaves the window, and the
      assertion before it fails, only after inputs of certain lengths; and for each of these lengths there is one. */
  method Zip(src: Source, window: array<Byte>, cfg: Config, guess: nat -> bool, slow: bool)
    returns (out: seq<Byte>, ghost pastEnd: bool, ghost tooShort: bool)
    requires window.Length == WINDOW_SIZE + MAX_MATCH && src.Ok() && src.pos == 0
    modifies src, window
    ensures src.Ok() && src.Ended()
    ensures ReadMember(src.step, out) == Got(src.data[..src.pos], |out|)
    ensures HeaderBytes(slow) <= out
    ensures (tooShort ==> MayBeShort(src.pos)) && (pastEnd ==> MayLeave(src.pos))
    ensures old(Tight(src, window, cfg)) ==> tooShort && pastEnd == MayLeave(|src.data|)
  {
    hide Tight, Left,  BitSink.Valid, BlockCoder.Valid, Decodes, BytesBits, Padding, ReadMember, Header, HeaderBytes, Trailer;
    var sink := new BitSink();
    PutHeader(sink, slow);
    ghost var header := sink.Out();
    ghost var mid: seq<bool>;
    mid, pastEnd, tooShort := DeflateFile(src, window, cfg, guess, sink);
    ghost var body := sink.Out();
    BodyStarts(header, body, mid, src.data[..src.pos]);
    PutTrailer(sink, src);
    out := sink.written;
    MemberReads(src.step, BytesBits(header), body, mid, src.data[..src.pos]);
  }

  lemma BodyStarts(header: seq<Byte>, body: seq<Byte>, mid: seq<bool>, out: seq<Byte>)
    requires Decodes(BytesBits(header), mid, out) && BytesBits(body) == mid + Padding(|mid|)
    requires Header(header)
    ensures Header(body) && header <= body
  {
    hide ReadBlocks, Padding, BytesBits;
    assert BytesBits(header) <= mid <= BytesBits(body);
    PrefixBytes(header, body);
    assert body[..4] == header[..4];
  }

  /** The checksum and the size. */
  method PutTrailer(sink: BitSink, src: Source)
    requires sink.BufferOk() && src.Ok() && (src as object) != (sink as object)
    modifies sink, sink.outbuf
    ensures sink.written == old(sink.Out()) + Trailer(src.step, src.data[..src.pos])
  {
    hide BytesBits, Le32, Checksum;
    sink.Put32bit(TWO32 - 1 - src.crc);
    sink.Put32bit(src.isize % TWO32);
    sink.FlushOutbuf();
    assert sink.Out() == sink.written;
  }

  /** Before lm_init the window is as that input asks for. */
  lemma StartsInZeros(m: Matcher, cfg: Config)
    requires Tight(m.src, m.window, cfg) && m.base == 0
    ensures m.Zeros()
  {
    hide Worst, Left;
    WorstIs(|m.src.data|);
  }

  lemma StartsOnTrack(d: Deflater)
    requires d.m.Zeros() && d.m.Reads() && d.m.base == d.m.strstart == 0
    requires MAX_SAFE < Left(|d.m.src.data|) <= WINDOW_SIZE - 2 && d.m.src.data == Worst(|d.m.src.data|)
    requires MIN_MATCH <= d.cfg.maxLazy <= MAX_MATCH
    ensures d.OnTrack(MIN_MATCH - 1)
  {
    hide Worst, ZeroTail;
  }

  /** lm_init */
  method NewMatcher(src: Source, window: array<Byte>, ghost cfg: Config) returns (m: Matcher)
    requires window.Length == WINDOW_SIZE + MAX_MATCH && src.Ok() && src.pos == 0
    modifies src, window
    ensures m.src == src && m.window == window && fresh(m) && fresh(m.head) && fresh(m.prev)
    ensures m.WindowOk() && m.Linked(0) && m.HashReady(0) && m.base == m.strstart == 0 && m.blockStart == 0 && m.Sized()
    ensures m.lookahead >= MIN_LOOKAHEAD || m.eofile
    ensures old(Tight(src, window, cfg)) ==> m.Zeros() && m.Reads()
  {
    hide Checksum, Shows, ZeroTail, Matcher.HashReady, Matcher.Linked, Matcher.WindowOk, Left, Worst, Matcher.Reads;
    m := new Matcher(src, window);
    if Tight(src, window, cfg) {
      StartsInZeros(m, cfg);
    }
    m.LmInit();
  }

  /** ct_init and lm_init. */
  method NewDeflater(src: Source, window: array<Byte>, cfg: Config, guess: nat -> bool, sink: BitSink) returns (d: Deflater)
    requires window.Length == WINDOW_SIZE + MAX_MATCH && src.Ok() && src.pos == 0 && sink.Valid() && sink.outbuf.Length == OUTBUFSIZ
    modifies src, window
    ensures d.m.src == src && d.m.window == window && d.sink == sink && d.start == sink.sent
    ensures fresh(d) && fresh(d.m) && fresh(d.m.head) && fresh(d.m.prev) && fresh(d.blk.Repr())
    ensures d.Apart() && d.CoderOk() && d.MatcherOk(0) && d.m.base == d.m.strstart == 0 && d.m.blockStart == 0
    ensures d.m.lookahead >= MIN_LOOKAHEAD || d.m.eofile
    ensures d.blk.buf.toks == [] && d.blk.buf.lastLit == 0
    ensures old(Tight(src, window, cfg)) ==> d.OnTrack(MIN_MATCH - 1)
  {
    hide BytesBits, Pow2, ToBits, LFreq, DFreq, FlagsHeld, LitsHeld, DistsHeld, Table;
    hide Matcher.HashReady, Matcher.Linked, Matcher.WindowOk, Matcher.Zeros, Matcher.Reads, Left, Worst, Deflater.OnTrack;
    var m := NewMatcher(src, window, cfg);
    var blk := new BlockCoder();
    d := new Deflater(m, blk, sink, cfg, guess);
    if old(Tight(src, window, cfg)) {
      StartsOnTrack(d);
    }
  }

  lemma AllRead(src: Source)
    requires src.Ended()
    ensures src.Plenty() ==> src.pos == |src.data|
  {
  }

  /** ct_init, lm_init and deflate, behind whatever has been sent. */
  method DeflateFile(src: Source, window: array<Byte>, cfg: Config, guess: nat -> bool, sink: BitSink)
    returns (ghost mid: seq<bool>, ghost pastEnd: bool, ghost tooShort: bool)
    requires window.Length == WINDOW_SIZE + MAX_MATCH && src.Ok() && src.pos == 0 && sink.Valid() && sink.outbuf.Length == OUTBUFSIZ
    modifies src, window, sink, sink.outbuf
    ensures src.Ok() && src.Ended() && sink.BufferOk()
    ensures Decodes(old(sink.sent), mid, src.data[..src.pos])
    ensures sink.sent == mid + Padding(|mid|) && sink.sent == BytesBits(sink.Out())
    ensures (tooShort ==> MayBeShort(src.pos)) && (pastEnd ==> MayLeave(src.pos))
    ensures old(Tight(src, window, cfg)) ==> tooShort && pastEnd == MayLeave(|src.data|)
  {
    hide Left, Deflater.OnTrack, Worst, Source.Plenty;
    hide BitSink.Valid, Decodes, BytesBits, Padding, Source.Ok, Source.Ended, Deflater.Apart, Deflater.CoderOk, Deflater.MatcherOk, BlockCoder.Repr;
    var d := NewDeflater(src, window, cfg, guess, sink);
    mid := d.Deflate();
    pastEnd, tooShort := d.m.pastEnd, d.m.tooShort;
    AllRead(src);
  }
}
