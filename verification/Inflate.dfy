/** A decoder for the DEFLATE format, written from section 3.2 of RFC 1951. It reads
    a bit string from a position; every reader returns its value and the next position. */
module Inflate {
  import opened Bits

  datatype Read<+T> = Got(value: T, pos: nat) | Bad

  const MAX_BITS := 15
  const END_BLOCK := 256

  /** n bits, least significant first (section 3.1.1). */
  function ReadBits(bits: seq<bool>, pos: nat, n: nat): (r: Read<nat>)
  {
    if pos + n <= |bits| then Got(FromBits(bits[pos..pos + n]), pos + n) else Bad
  }

  // ---- canonical Huffman codes (section 3.2.2) ----

  /** How many symbols have code length len. */
  function CountLen(lens: seq<nat>, len: nat): (n: nat)
    ensures n <= |lens|
  {
    if lens == [] then 0
    else CountLen(lens[..|lens| - 1], len) + (if lens[|lens| - 1] == len then 1 else 0)
  }

  /** The smallest code of length len; symbols of length 0 are not coded. */
  function FirstCode(lens: seq<nat>, len: nat): (c: nat)
    decreases len
  {
    if len == 0 then 0
    else 2 * (FirstCode(lens, len - 1) + (if len == 1 then 0 else CountLen(lens, len - 1)))
  }

  /** Codes of one length are consecutive, in symbol order. */
  function Code(lens: seq<nat>, s: nat): (c: nat)
    requires s < |lens|
  {
    FirstCode(lens, lens[s]) + CountLen(lens[..s], lens[s])
  }

  /** Codewords are packed most significant bit first (section 3.1.1). */
  function Codeword(lens: seq<nat>, s: nat): (b: seq<bool>)
    requires s < |lens|
  {
    MsbBits(Code(lens, s), lens[s])
  }

  ghost predicate CodedAt(lens: seq<nat>, s: nat, bits: seq<bool>, pos: nat)
  {
    && s < |lens| && lens[s] > 0
    && pos + lens[s] <= |bits|
    && bits[pos..pos + lens[s]] == Codeword(lens, s)
  }

  ghost function ReadSymbol(lens: seq<nat>, bits: seq<bool>, pos: nat): (r: Read<nat>)
    ensures r.Got? ==> pos < r.pos <= |bits| && r.value < |lens|
  {
    if exists s: nat :: CodedAt(lens, s, bits, pos) then
      var s: nat :| CodedAt(lens, s, bits, pos);
      Got(s, pos + lens[s])
    else Bad
  }

  /** Kraft sum in units of 2^-15: a complete code sums to 2^15. */
  function Kraft(lens: seq<nat>): (k: nat)
  {
    if lens == [] then 0
    else Kraft(lens[..|lens| - 1]) + KraftTerm(lens[|lens| - 1])
  }

  function KraftTerm(len: nat): (k: nat)
  {
    if 0 < len <= MAX_BITS then Pow2(MAX_BITS - len) else 0
  }

  predicate Complete(lens: seq<nat>)
  {
    && (forall i :: 0 <= i < |lens| ==> lens[i] <= MAX_BITS)
    && Kraft(lens) == Pow2(MAX_BITS)
  }

  // ---- compressed data (section 3.2.5) ----

  const LENGTH_BASE: seq<nat> :=
    [3, 4, 5, 6, 7, 8, 9, 10, 11, 13, 15, 17, 19, 23, 27, 31, 35, 43, 51, 59, 67, 83, 99, 115, 131, 163, 195, 227, 258]
  const LENGTH_EXTRA: seq<nat> :=
    [0, 0, 0, 0, 0, 0, 0, 0, 1, 1, 1, 1, 2, 2, 2, 2, 3, 3, 3, 3, 4, 4, 4, 4, 5, 5, 5, 5, 0]
  const DIST_BASE: seq<nat> :=
    [1, 2, 3, 4, 5, 7, 9, 13, 17, 25, 33, 49, 65, 97, 129, 193, 257, 385, 513, 769, 1025, 1537, 2049, 3073,
     4097, 6145, 8193, 12289, 16385, 24577]
  const DIST_EXTRA: seq<nat> :=
    [0, 0, 0, 0, 1, 1, 2, 2, 3, 3, 4, 4, 5, 5, 6, 6, 7, 7, 8, 8, 9, 9, 10, 10, 11, 11, 12, 12, 13, 13]

  /** Copies len bytes from dist back, one at a time, so that the copy may overlap itself. */
  function CopyMatch(out: seq<Byte>, dist: nat, len: nat): (r: seq<Byte>)
    requires 0 < dist <= |out|
    ensures |r| == |out| + len && out <= r
    decreases len
  {
    if len == 0 then out else CopyMatch(out + [out[|out| - dist]], dist, len - 1)
  }

  /** The n bytes at a are those dist before them. */
  ghost predicate Repeats(s: seq<Byte>, a: nat, dist: nat, n: nat)
  {
    dist <= a && a + n <= |s| && forall j :: a <= j < a + n ==> s[j] == s[j - dist]
  }

  /** A match in the input, played by a decoder, reproduces the input. */
  lemma {:induction false} CopyIsInput(data: seq<Byte>, a: nat, dist: nat, len: nat)
    requires 0 < dist <= a && Repeats(data, a, dist, len)
    ensures CopyMatch(data[..a], dist, len) == data[..a + len]
    decreases len
  {
    if len > 0 {
      var out := data[..a];
      assert data[a] == data[a - dist];
      assert out + [out[|out| - dist]] == data[..a + 1];
      CopyIsInput(data, a + 1, dist, len - 1);
    }
  }

  /** Base value plus extra bits of a length or distance code. */
  function ReadExtra(base: seq<nat>, extra: seq<nat>, code: int, bits: seq<bool>, pos: nat): (r: Read<nat>)
    ensures r.Got? ==> pos <= r.pos <= |bits| || (r.pos == pos)
  {
    if 0 <= code < |base| && code < |extra| then
      match ReadBits(bits, pos, extra[code])
      case Got(x, p) => Got(base[code] + x, p)
      case Bad => Bad
    else Bad
  }

  /** Length then distance, after a length symbol. */
  ghost function ReadMatch(dlens: seq<nat>, s: nat, bits: seq<bool>, pos: nat): (r: Read<(nat, nat)>)
    ensures r.Got? ==> pos < r.pos
  {
    match ReadExtra(LENGTH_BASE, LENGTH_EXTRA, s - 257, bits, pos)
    case Bad => Bad
    case Got(len, p1) =>
      match ReadSymbol(dlens, bits, p1)
      case Bad => Bad
      case Got(d, p2) =>
        match ReadExtra(DIST_BASE, DIST_EXTRA, d, bits, p2)
        case Bad => Bad
        case Got(dist, p3) => Got((len, dist), p3)
  }

  /** Symbols up to and including end-of-block, appended to what is already decoded. */
  ghost function ReadSymbols(llens: seq<nat>, dlens: seq<nat>, bits: seq<bool>, pos: nat, out: seq<Byte>): (r: Read<seq<Byte>>)
    decreases |bits| - pos
    ensures r.Got? ==> pos < r.pos
  {
    match ReadSymbol(llens, bits, pos)
    case Bad => Bad
    case Got(s, p) =>
      if s < END_BLOCK then ReadSymbols(llens, dlens, bits, p, out + [s])
      else if s == END_BLOCK then Got(out, p)
      else
        match ReadMatch(dlens, s, bits, p)
        case Bad => Bad
        case Got((len, dist), q) =>
          if 0 < dist <= |out| && q <= |bits| then ReadSymbols(llens, dlens, bits, q, CopyMatch(out, dist, len))
          else Bad
  }

  // ---- block formats (sections 3.2.4, 3.2.6 and 3.2.7) ----

  function ReadBytes(bits: seq<bool>, pos: nat, n: nat): (r: Read<seq<Byte>>)
    requires pos + 8 * n <= |bits|
  {
    Got(seq(n, i requires 0 <= i < n => ByteAt(bits, pos + 8 * i)), pos + 8 * n)
  }

  function ByteAt(bits: seq<bool>, pos: nat): (b: Byte)
    requires pos + 8 <= |bits|
  {
    var v := FromBits(bits[pos..pos + 8]);
    assert Pow2(8) == 256;
    v
  }

  function ReadStored(bits: seq<bool>, pos: nat, out: seq<Byte>): (r: Read<seq<Byte>>)
  {
    var start := (pos + 7) / 8 * 8;
    match ReadBits(bits, start, 16)
    case Bad => Bad
    case Got(len, p) =>
      match ReadBits(bits, p, 16)
      case Bad => Bad
      case Got(nlen, q) =>
        if nlen == 65535 - len && q + 8 * len <= |bits| then
          var r := ReadBytes(bits, q, len);
          Got(out + r.value, r.pos)
        else Bad
  }

  function FixedLitLens(): (lens: seq<nat>)
  {
    seq(144, i => 8) + seq(112, i => 9) + seq(24, i => 7) + seq(8, i => 8)
  }

  function FixedDistLens(): (lens: seq<nat>)
  {
    seq(32, i => 5)
  }

  const CODE_LENGTH_ORDER: seq<nat> := [16, 17, 18, 0, 8, 7, 9, 6, 10, 5, 11, 4, 12, 3, 13, 2, 14, 1, 15]

  /** The first n code-length code lengths, three bits each, put in their places. */
  function ReadCodeLengthLens(bits: seq<bool>, pos: nat, n: nat, k: nat, lens: seq<nat>): (r: Read<seq<nat>>)
    requires k <= n <= 19 && |lens| == 19
    ensures r.Got? ==> |r.value| == 19
    decreases n - k
  {
    if k == n then Got(lens, pos)
    else
      match ReadBits(bits, pos, 3)
      case Bad => Bad
      case Got(v, p) => ReadCodeLengthLens(bits, p, n, k + 1, lens[CODE_LENGTH_ORDER[k] := v])
  }

  function Repeat(v: nat, n: nat): (s: seq<nat>)
    ensures |s| == n && forall i :: 0 <= i < n ==> s[i] == v
  {
    seq(n, i => v)
  }

  /** Code lengths until there are `total` of them; 16 repeats the previous one, 17 and 18 are runs of zeros. */
  ghost function ReadLens(cl: seq<nat>, bits: seq<bool>, pos: nat, acc: seq<nat>, total: nat): (r: Read<seq<nat>>)
    decreases |bits| - pos
  {
    if |acc| >= total then
      if |acc| == total then Got(acc, pos) else Bad
    else
      match ReadSymbol(cl, bits, pos)
      case Bad => Bad
      case Got(s, p) =>
        if s < 16 then ReadLens(cl, bits, p, acc + [s], total)
        else
          var n := if s == 16 then 2 else if s == 17 then 3 else 7;
          match ReadBits(bits, p, n)
          case Bad => Bad
          case Got(x, q) =>
            if s == 16 then
              if acc == [] then Bad else ReadLens(cl, bits, q, acc + Repeat(acc[|acc| - 1], 3 + x), total)
            else if s == 17 then ReadLens(cl, bits, q, acc + Repeat(0, 3 + x), total)
            else ReadLens(cl, bits, q, acc + Repeat(0, 11 + x), total)
  }

  /** HLIT, HDIST, HCLEN, the code-length code, both alphabets, then the data. A set of
      lengths that is not a complete code is rejected. */
  ghost function ReadDynamic(bits: seq<bool>, pos: nat, out: seq<Byte>): (r: Read<seq<Byte>>)
    ensures r.Got? ==> pos < r.pos
  {
    if pos + 14 > |bits| then Bad else
    var hlit := 257 + FromBits(bits[pos..pos + 5]);
    var hdist := 1 + FromBits(bits[pos + 5..pos + 10]);
    var hclen := 4 + FromBits(bits[pos + 10..pos + 14]);
    if hclen > 19 then Bad else
    match ReadCodeLengthLens(bits, pos + 14, hclen, 0, seq(19, i => 0))
    case Bad => Bad
    case Got(cl, p) =>
      if !Complete(cl) then Bad else
      match ReadLens(cl, bits, p, [], hlit + hdist)
      case Bad => Bad
      case Got(lens, q) =>
        if |lens| == hlit + hdist && Complete(lens[..hlit]) && Complete(lens[hlit..]) && pos < q then
          ReadSymbols(lens[..hlit], lens[hlit..], bits, q, out)
        else Bad
  }

  ghost function ReadBlock(kind: nat, bits: seq<bool>, pos: nat, out: seq<Byte>): (r: Read<seq<Byte>>)
  {
    if kind == 0 then ReadStored(bits, pos, out)
    else if kind == 1 then ReadSymbols(FixedLitLens(), FixedDistLens(), bits, pos, out)
    else if kind == 2 then ReadDynamic(bits, pos, out)
    else Bad
  }

  /** Blocks up to the one marked final (section 3.2.3). */
  ghost function ReadBlocks(bits: seq<bool>, pos: nat, out: seq<Byte>): (r: Read<seq<Byte>>)
    decreases |bits| - pos
  {
    if pos + 3 > |bits| then Bad else
    var final, kind := bits[pos], FromBits(bits[pos + 1..pos + 3]);
    match ReadBlock(kind, bits, pos + 3, out)
    case Bad => Bad
    case Got(out', p) =>
      if final then Got(out', p)
      else if pos < p then ReadBlocks(bits, p, out')
      else Bad
  }
}
