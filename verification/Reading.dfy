/** Reading back what was sent: a bit string standing at a position. */
module Reading {
  import opened Bits
  import opened Inflate
  import opened Codes

  /** x stands in bits at pos. */
  ghost predicate At(bits: seq<bool>, pos: nat, x: seq<bool>)
  {
    pos + |x| <= |bits| && bits[pos..pos + |x|] == x
  }

  lemma AtSplit(bits: seq<bool>, pos: nat, x: seq<bool>, y: seq<bool>)
    requires At(bits, pos, x + y)
    ensures At(bits, pos, x) && At(bits, pos + |x|, y)
  {
    var both := bits[pos..pos + |x + y|];
    assert both[..|x|] == x && both[|x|..] == y;
    assert bits[pos..pos + |x|] == both[..|x|];
    assert bits[pos + |x|..pos + |x| + |y|] == both[|x|..];
  }

  lemma NumberRead(bits: seq<bool>, pos: nat, v: nat, n: nat)
    requires At(bits, pos, ToBits(v, n)) && v < Pow2(n)
    ensures ReadBits(bits, pos, n) == Got(v, pos + n)
  {
    FromToBits(v, n);
  }

  predicate Decodable(lens: seq<nat>)
  {
    Bounded(lens) && Kraft(lens) <= Pow2(MAX_BITS)
  }

  lemma CodewordRead(lens: seq<nat>, s: nat, bits: seq<bool>, pos: nat)
    requires Decodable(lens) && s < |lens| && lens[s] > 0 && At(bits, pos, Codeword(lens, s))
    ensures ReadSymbol(lens, bits, pos) == Got(s, pos + lens[s])
  {
    assert |Codeword(lens, s)| == lens[s];
    assert CodedAt(lens, s, bits, pos);
    SymbolDecodes(lens, s, bits, pos);
  }
}
