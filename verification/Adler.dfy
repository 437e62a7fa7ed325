/** lzo_adler32: the Adler-32 checksum with the modulo delayed (sections 2.2 and 8.2 of RFC 1950). */
module Adler {
  import opened Bits

  const BASE := 65521
  const NMAX := 5552

  /** The two sums, reduced after every byte. */
  datatype Sums = Sums(s1: nat, s2: nat) {
    predicate Valid() { s1 < BASE && s2 < BASE }

    function Word(): (w: nat)
      requires Valid()
      ensures w < TWO32 && w % 65536 == s1 && w / 65536 % 65536 == s2
    {
      s2 * 65536 + s1
    }
  }

  function Add(a: Sums, b: Byte): (r: Sums)
    ensures r.Valid()
  {
    var s1 := (a.s1 + b) % BASE;
    Sums(s1, (a.s2 + s1) % BASE)
  }

  /** The checksum as it is defined. */
  function Adler32(a: Sums, buf: seq<Byte>): (r: Sums)
    requires a.Valid()
    ensures r.Valid()
  {
    if buf == [] then a else Add(Adler32(a, buf[..|buf| - 1]), buf[|buf| - 1])
  }

  /** Two pieces in turn are checksummed like their concatenation. */
  lemma {:induction false} Adler32Append(a: Sums, x: seq<Byte>, y: seq<Byte>)
    requires a.Valid()
    ensures Adler32(a, x + y) == Adler32(Adler32(a, x), y)
  {
    if y == [] {
      assert x + y == x;
    } else {
      assert (x + y)[..|x + y| - 1] == x + y[..|y| - 1];
      Adler32Append(a, x, y[..|y| - 1]);
    }
  }

  /** The largest second sum after j bytes without reduction. */
  function Most(j: nat): (m: nat)
  {
    if j == 0 then BASE - 1 else Most(j - 1) + (BASE - 1) + 255 * j
  }

  lemma {:induction false} MostIs(j: nat)
    ensures 2 * Most(j) == 2 * (BASE - 1) * (j + 1) + 255 * (j * (j + 1))
  {
    if j > 0 {
      MostIs(j - 1);
      assert j * (j + 1) == (j - 1) * j + 2 * j;
    }
  }

  lemma {:induction false} MostGrows(i: nat, j: nat)
    requires i <= j
    ensures Most(i) <= Most(j)
  {
    if i < j {
      MostGrows(i, j - 1);
    }
  }

  /** Addition of 32-bit words. */
  function Add32(x: nat, y: nat): (r: nat)
    ensures r < TWO32 && (x + y < TWO32 ==> r == x + y)
  {
    (x + y) % TWO32
  }

  /** The inner loop's sums, in 32-bit arithmetic. */
  function Sums32(s1: nat, s2: nat, buf: seq<Byte>): (r: (nat, nat))
  {
    if buf == [] then (s1, s2)
    else
      var p := Sums32(s1, s2, buf[..|buf| - 1]);
      var t := Add32(p.0, buf[|buf| - 1]);
      (t, Add32(p.1, t))
  }

  lemma MostAtNmax()
    ensures Most(NMAX) < TWO32 && Most(NMAX + 1) == 4296171735
  {
    MostIs(NMAX);
    MostIs(NMAX + 1);
    assert NMAX * (NMAX + 1) == 30830256;
    assert (NMAX + 1) * (NMAX + 2) == 30841362;
  }

  function Full(j: nat): (s: seq<Byte>)
    ensures |s| == j
  {
    seq(j, i => 255)
  }

  /** Bytes of 255 from the largest halves reach the largest sums. */
  lemma {:induction false} FullAdler(j: nat)
    ensures var r := Adler32(Sums(BASE - 1, BASE - 1), Full(j)); r.s1 == (BASE - 1 + 255 * j) % BASE && r.s2 == Most(j) % BASE
  {
    if j > 0 {
      FullAdler(j - 1);
      assert Full(j)[..j - 1] == Full(j - 1);
      AddAgrees(Adler32(Sums(BASE - 1, BASE - 1), Full(j - 1)), BASE - 1 + 255 * (j - 1), Most(j - 1), 255);
    }
  }

  lemma {:induction false} FullSums(j: nat)
    requires j <= NMAX
    ensures Sums32(BASE - 1, BASE - 1, Full(j)) == (BASE - 1 + 255 * j, Most(j)) && Most(j) < TWO32
  {
    MostAtNmax();
    MostGrows(j, NMAX);
    if j > 0 {
      FullSums(j - 1);
      assert Full(j)[..j - 1] == Full(j - 1);
    }
  }

  /** NMAX is the largest number of bytes for which 32 bits are enough: with one more, bytes of 255 from the largest
      halves make the second sum wrap around, and what is left of it is not the checksum. */
  lemma NmaxIsLargest()
    ensures Sums32(BASE - 1, BASE - 1, Full(NMAX + 1)).1 % BASE == 25061
    ensures Adler32(Sums(BASE - 1, BASE - 1), Full(NMAX + 1)).s2 == 25286
  {
    hide Adler32, Most;
    MostAtNmax();
    FullSums(NMAX);
    MostNext(NMAX);
    assert Full(NMAX + 1)[..NMAX] == Full(NMAX);
    FullAdler(NMAX + 1);
  }

  /** Sums without reduction agree with the reduced ones modulo BASE. */
  lemma AddAgrees(a: Sums, s1: nat, s2: nat, b: Byte)
    requires a.Valid() && s1 % BASE == a.s1 && s2 % BASE == a.s2
    ensures var r := Add(a, b); (s1 + b) % BASE == r.s1 && (s2 + (s1 + b)) % BASE == r.s2
  {
    ModAdd(s1, b);
    ModAdd(s2, s1 + b);
    ModAdd(s1 + b, s2 % BASE);
  }

  lemma ModAdd(x: nat, y: nat)
    ensures (x + y) % BASE == (x % BASE + y) % BASE
  {
    var q := x / BASE;
    assert x + y == BASE * q + (x % BASE + y);
    ModShift(q, x % BASE + y);
  }

  lemma {:induction false} ModShift(q: nat, y: nat)
    ensures (BASE * q + y) % BASE == y % BASE
  {
    if q > 0 {
      ModShift(q - 1, y);
      assert BASE * q + y == BASE * (q - 1) + y + BASE;
    }
  }

  lemma MostNext(j: nat)
    ensures Most(j + 1) == Most(j) + (BASE - 1) + 255 * (j + 1) && Most(0) == BASE - 1
  {
  }

  lemma Adler32Next(a: Sums, buf: seq<Byte>, at: nat, j: nat)
    requires a.Valid() && at + j < |buf|
    ensures Adler32(a, buf[at..at + (j + 1)]) == Add(Adler32(a, buf[at..at + j]), buf[at + j])
  {
    hide Add;
    var s := buf[at..at + (j + 1)];
    assert s[..|s| - 1] == buf[at..at + j] && s[|s| - 1] == buf[at + j];
  }

  /** The unreduced sums stand for the checksum of the first j bytes from `at`. */
  predicate Tracks(a: Sums, buf: seq<Byte>, at: nat, j: nat, s1: nat, s2: nat)
    requires a.Valid() && at + j <= |buf|
  {
    s1 % BASE == Adler32(a, buf[at..at + j]).s1 && s2 % BASE == Adler32(a, buf[at..at + j]).s2
  }

  lemma TracksStart(a: Sums, buf: seq<Byte>, at: nat)
    requires a.Valid() && at <= |buf|
    ensures Tracks(a, buf, at, 0, a.s1, a.s2)
  {
    assert buf[at..at + 0] == [];
  }

  lemma TracksNext(a: Sums, buf: seq<Byte>, at: nat, j: nat, s1: nat, s2: nat)
    requires a.Valid() && at + j < |buf| && Tracks(a, buf, at, j, s1, s2)
    ensures Tracks(a, buf, at, j + 1, s1 + buf[at + j], s2 + (s1 + buf[at + j]))
  {
    hide Adler32, Add;
    AddAgrees(Adler32(a, buf[at..at + j]), s1, s2, buf[at + j]);
    Adler32Next(a, buf, at, j);
  }

  /** How large the unreduced sums can be after j bytes. */
  predicate Within(j: nat, s1: nat, s2: nat)
  {
    s1 <= BASE - 1 + 255 * j && s2 <= Most(j)
  }

  /** No wrap-around in the next step. */
  lemma WithinNext(j: nat, s1: nat, s2: nat, b: Byte)
    requires Within(j, s1, s2) && j < NMAX
    ensures Within(j + 1, s1 + b, s2 + (s1 + b))
    ensures s1 + b < TWO32 && s2 + (s1 + b) < TWO32
  {
    hide Most;
    MostAtNmax();
    MostNext(j);
    MostGrows(j + 1, NMAX);
  }

  lemma Sums32Next(s1: nat, s2: nat, buf: seq<Byte>, at: nat, j: nat)
    requires at + j < |buf|
    ensures var p := Sums32(s1, s2, buf[at..at + j]);
            Sums32(s1, s2, buf[at..at + (j + 1)]) == (Add32(p.0, buf[at + j]), Add32(p.1, Add32(p.0, buf[at + j])))
  {
    hide Add32;
    var t := buf[at..at + (j + 1)];
    assert t[..|t| - 1] == buf[at..at + j] && t[|t| - 1] == buf[at + j];
  }

  /** The inner loop: k bytes in 32-bit arithmetic. For k up to NMAX nothing wraps around and the sums stand for
      the checksum. */
  method AddBytes(s10: nat, s20: nat, buf: seq<Byte>, at: nat, k: nat) returns (s1: nat, s2: nat)
    requires s10 < BASE && s20 < BASE && at + k <= |buf|
    ensures (s1, s2) == Sums32(s10, s20, buf[at..at + k])
    ensures k <= NMAX ==> Tracks(Sums(s10, s20), buf, at, k, s1, s2)
    ensures s1 < TWO32 && s2 < TWO32
  {
    s1, s2 := s10, s20;
    var j := 0;
    ghost var a := Sums(s10, s20);
    TracksStart(a, buf, at);
    assert Within(0, s1, s2);
    assert buf[at..at + 0] == [];
    hide Tracks, Within, Add32, Sums32;
    while j < k
      invariant 0 <= j <= k && s1 < TWO32 && s2 < TWO32
      invariant (s1, s2) == Sums32(s10, s20, buf[at..at + j])
      invariant j <= NMAX ==> Tracks(a, buf, at, j, s1, s2) && Within(j, s1, s2)
    {
      if j < NMAX {
        WithinNext(j, s1, s2, buf[at + j]);
        TracksNext(a, buf, at, j, s1, s2);
      }
      Sums32Next(s10, s20, buf, at, j);
      s1 := Add32(s1, buf[at + j]);
      s2 := Add32(s2, s1);
      j := j + 1;
    }
  }

  datatype Buffer = Null | Data(bytes: seq<Byte>)

  /** The sums are the checksum of the first `at` bytes. */
  predicate Reduced(a: Sums, buf: seq<Byte>, at: nat, s1: nat, s2: nat)
    requires a.Valid() && at <= |buf|
  {
    Sums(s1, s2) == Adler32(a, buf[..at])
  }

  lemma ReducedStart(a: Sums, buf: seq<Byte>)
    requires a.Valid()
    ensures Reduced(a, buf, 0, a.s1, a.s2)
  {
    assert buf[..0] == [];
  }

  lemma ReducedNext(a: Sums, buf: seq<Byte>, at: nat, k: nat, s1: nat, s2: nat, t1: nat, t2: nat)
    requires a.Valid() && at + k <= |buf| && Reduced(a, buf, at, s1, s2) && Sums(s1, s2).Valid()
    requires Tracks(Sums(s1, s2), buf, at, k, t1, t2)
    ensures Reduced(a, buf, at + k, t1 % BASE, t2 % BASE)
  {
    hide Adler32;
    Adler32Append(a, buf[..at], buf[at..at + k]);
    assert buf[..at] + buf[at..at + k] == buf[..at + k];
  }

  lemma ReducedAll(a: Sums, buf: seq<Byte>, s1: nat, s2: nat)
    requires a.Valid() && Reduced(a, buf, |buf|, s1, s2) && s1 < BASE && s2 < BASE
    ensures s2 * 65536 + s1 == Adler32(a, buf).Word()
  {
    hide Adler32;
    assert buf[..|buf|] == buf;
  }

  /** lzo_adler32: equals the definition for every buffer and every start with both halves below BASE. */
  method LzoAdler32(adler: nat, buf: Buffer) returns (r: nat)
    requires adler < TWO32 && adler % 65536 < BASE && adler / 65536 < BASE
    ensures buf.Null? ==> r == 1
    ensures buf.Data? ==> r == Adler32(Sums(adler % 65536, adler / 65536), buf.bytes).Word()
  {
    hide Adler32, Reduced, Tracks, Sums.Word;
    var s1: nat, s2: nat := adler % 65536, adler / 65536 % 65536;
    if buf.Null? {
      return 1;
    }
    var at, len := 0, |buf.bytes|;
    ghost var a := Sums(s1, s2);
    ReducedStart(a, buf.bytes);
    while len > 0
      invariant at + len == |buf.bytes| && 0 <= at && 0 <= len && s1 < BASE && s2 < BASE
      invariant Reduced(a, buf.bytes, at, s1, s2)
    {
      var k := if len < NMAX then len else NMAX;
      len := len - k;
      var t1, t2 := AddBytes(s1, s2, buf.bytes, at, k);
      ReducedNext(a, buf.bytes, at, k, s1, s2, t1, t2);
      s1, s2 := t1 % BASE, t2 % BASE;
      at := at + k;
    }
    ReducedAll(a, buf.bytes, s1, s2);
    r := s2 * 65536 + s1;
  }
}
