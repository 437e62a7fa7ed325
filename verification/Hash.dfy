/** UPDATE_HASH: the running hash of three consecutive bytes. */
module Hash {
  import opened Bits

  const HASH_BITS := 13
  const HASH_SIZE := 8192
  const H_SHIFT := 5

  /** Bitwise exclusive or, kept to n bits. */
  function Xor(a: nat, b: nat, n: nat): (r: nat)
    ensures r < Pow2(n)
  {
    FromBits(seq(n, i requires 0 <= i < n => Bit(a, i) != Bit(b, i)))
  }

  /** ((h << H_SHIFT) ^ c) & HASH_MASK */
  function Update(h: nat, c: Byte): (r: nat)
    ensures r < HASH_SIZE
  {
    assert Pow2(5) == 32 && Pow2(HASH_BITS) == HASH_SIZE;
    Xor(Shl(h, H_SHIFT), c, HASH_BITS)
  }

  /** The hash of three bytes, from a cleared state. */
  function Hash3(x: Byte, y: Byte, z: Byte): (r: nat)
    ensures r < HASH_SIZE
  {
    Update(Update(Update(0, x), y), z)
  }

  lemma {:induction false} BitOfFromBits(b: seq<bool>, i: nat)
    requires i < |b|
    ensures Bit(FromBits(b), i) == b[i]
  {
    if i > 0 {
      BitOfFromBits(b[1..], i - 1);
    }
  }

  lemma {:induction false} BitShl(v: nat, m: nat, i: nat)
    ensures Bit(Shl(v, m), i) == (i >= m && Bit(v, i - m))
  {
    if m > 0 {
      if i > 0 {
        BitShl(v, m - 1, i - 1);
      }
    }
  }

  lemma UpdateBit(h: nat, c: Byte, i: nat)
    requires i < HASH_BITS
    ensures Bit(Update(h, c), i) == ((i >= H_SHIFT && Bit(h, i - H_SHIFT)) != Bit(c, i))
  {
    hide FromBits, Bit, Shl;
    var b := seq(HASH_BITS, i requires 0 <= i < HASH_BITS => Bit(Shl(h, H_SHIFT), i) != Bit(c, i));
    BitOfFromBits(b, i);
    BitShl(h, H_SHIFT, i);
  }

  /** Words of n bits that agree on every bit are equal. */
  lemma SameBits(a: nat, b: nat, n: nat)
    requires a < Pow2(n) && b < Pow2(n) && forall i :: 0 <= i < n ==> Bit(a, i) == Bit(b, i)
    ensures a == b
  {
    FromToBits(a, n);
    FromToBits(b, n);
    assert ToBits(a, n) == ToBits(b, n);
  }

  /** Three updates leave no trace of the earlier state. */
  lemma Forgets(g: nat, x: Byte, y: Byte, z: Byte)
    ensures Update(Update(Update(g, x), y), z) == Hash3(x, y, z)
  {
    hide Update, Bit;
    var a, b := Update(Update(g, x), y), Update(Update(0, x), y);
    forall i | 0 <= i < HASH_BITS ensures Bit(Update(a, z), i) == Bit(Update(b, z), i) {
      UpdateBit(a, z, i);
      UpdateBit(b, z, i);
      if i >= 5 {
        UpdateBit(Update(g, x), y, i - 5);
        UpdateBit(Update(0, x), y, i - 5);
        if i >= 10 {
          UpdateBit(g, x, i - 10);
          UpdateBit(0, x, i - 10);
        }
      }
    }
    HashFits();
    SameBits(Update(a, z), Update(b, z), HASH_BITS);
  }

  lemma HashFits()
    ensures Pow2(HASH_BITS) == HASH_SIZE && Pow2(8) == 256
  {
    assert Pow2(5) == 32 && Pow2(8) == 256;
  }

  /** Equal hashes of strings that agree on two bytes agree on the third: it need not be compared. */
  lemma ThirdByte(x: Byte, y: Byte, z: Byte, z': Byte)
    requires Hash3(x, y, z) == Hash3(x, y, z')
    ensures z == z'
  {
    hide Update, Bit;
    var h := Update(Update(0, x), y);
    forall i | 0 <= i < 8 ensures Bit(z, i) == Bit(z', i) {
      UpdateBit(h, z, i);
      UpdateBit(h, z', i);
    }
    HashFits();
    SameBits(z, z', 8);
  }

  /** h has seen x and then y last. */
  ghost predicate Primed(h: nat, x: Byte, y: Byte)
  {
    exists g: nat :: h == Update(Update(g, x), y)
  }

  lemma PrimedNext(h: nat, x: Byte, y: Byte, z: Byte)
    requires Primed(h, x, y)
    ensures Update(h, z) == Hash3(x, y, z) && Primed(Update(h, z), y, z)
  {
    hide Update;
    var g: nat :| h == Update(Update(g, x), y);
    Forgets(g, x, y, z);
    assert Update(h, z) == Update(Update(Update(g, x), y), z);
  }
}
