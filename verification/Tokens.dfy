/** The tokens handed to ct_tally, what they stand for, and the bits they are sent as. */
module Tokens {
  import opened Bits
  import opened Inflate
  import opened Codes
  import opened Sums
  import opened BitLengths
  import opened Reading
  import opened Tables

  datatype Token = Literal(byte: Byte) | Match(dist: nat, len: nat) {
    predicate Valid()
    {
      Match? ==> 1 <= dist <= 32768 && 3 <= len <= 258
    }
  }

  predicate AllValid(toks: seq<Token>)
  {
    forall i :: 0 <= i < |toks| ==> toks[i].Valid()
  }

  // ---- meaning ----

  /** A token applied to the bytes before it; a match must not reach back too far. */
  predicate CanPlay(out: seq<Byte>, t: Token)
  {
    t.Match? ==> 0 < t.dist <= |out|
  }

  function PlayOne(out: seq<Byte>, t: Token): (r: seq<Byte>)
    requires CanPlay(out, t)
  {
    match t
    case Literal(b) => out + [b]
    case Match(dist, len) => CopyMatch(out, dist, len)
  }

  /** All tokens can be played after `out`, giving `result`. */
  predicate Plays(out: seq<Byte>, toks: seq<Token>, result: seq<Byte>)
    decreases |toks|
  {
    if toks == [] then result == out
    else CanPlay(out, toks[0]) && Plays(PlayOne(out, toks[0]), toks[1..], result)
  }

  lemma {:induction false} PlaysAppend(out: seq<Byte>, a: seq<Token>, mid: seq<Byte>, b: seq<Token>, result: seq<Byte>)
    requires Plays(out, a, mid) && Plays(mid, b, result)
    ensures Plays(out, a + b, result)
    decreases |a|
  {
    if a == [] {
      assert a + b == b;
    } else {
      assert (a + b)[0] == a[0] && (a + b)[1..] == a[1..] + b;
      PlaysAppend(PlayOne(out, a[0]), a[1..], mid, b, result);
    }
  }

  lemma PlaysSnoc(out: seq<Byte>, a: seq<Token>, mid: seq<Byte>, t: Token)
    requires Plays(out, a, mid) && CanPlay(mid, t)
    ensures Plays(out, a + [t], PlayOne(mid, t))
  {
    assert [t][1..] == [];
    assert Plays(mid, [t], PlayOne(mid, t));
    PlaysAppend(out, a, mid, [t], PlayOne(mid, t));
  }

  // ---- symbols ----

  function LSym(tb: CodeTables, t: Token): (s: nat)
    requires tb.Ok() && t.Valid()
  {
    match t
    case Literal(b) => b
    case Match(_, len) => assert tb.LengthOk(len - 3); 257 + tb.lengthCode[len - 3]
  }

  function DSym(tb: CodeTables, t: Token): (s: nat)
    requires tb.Ok() && t.Valid() && t.Match?
  {
    tb.DCode(t.dist - 1)
  }

  /** Both of a token's symbols have codes. */
  predicate Coded(tb: CodeTables, llens: seq<nat>, dlens: seq<nat>, t: Token)
    requires tb.Ok()
  {
    && t.Valid()
    && LSym(tb, t) < |llens| && llens[LSym(tb, t)] > 0
    && (t.Match? ==> DSym(tb, t) < |dlens| && dlens[DSym(tb, t)] > 0)
  }

  /** What the extra bits of the length code add to its base. */
  function LengthOffset(tb: CodeTables, t: Token): (x: nat)
    requires tb.Ok() && t.Valid() && t.Match?
    ensures 257 <= LSym(tb, t) < 257 + LENGTH_CODES
    ensures LENGTH_BASE[LSym(tb, t) - 257] + x == t.len && x < Pow2(LENGTH_EXTRA[LSym(tb, t) - 257])
  {
    LengthEntry(tb, t.len - 3);
    OffsetOf(tb, t.len - 3)
  }

  function OffsetOf(tb: CodeTables, l: nat): (x: nat)
    requires tb.LengthOk(l)
    ensures LENGTH_BASE[tb.lengthCode[l]] + x == l + 3 && x < Pow2(LENGTH_EXTRA[tb.lengthCode[l]])
  {
    var lc := tb.lengthCode[l];
    if LENGTH_EXTRA[lc] == 0 then 0 else l - tb.baseLength[lc]
  }

  lemma LengthEntry(tb: CodeTables, l: nat)
    requires tb.Ok() && l < 256
    ensures tb.LengthOk(l) && l < |tb.lengthCode| && tb.lengthCode[l] < LENGTH_CODES
  {
    hide Pow2, CodeTables.DistOk;
  }

  function DistOffset(tb: CodeTables, t: Token): (x: nat)
    requires tb.Ok() && t.Valid() && t.Match?
    ensures DSym(tb, t) < D_CODES
    ensures DIST_BASE[DSym(tb, t)] + x == t.dist && x < Pow2(DIST_EXTRA[DSym(tb, t)])
  {
    assert tb.DistOk(t.dist - 1);
    t.dist - 1 - tb.baseDist[DSym(tb, t)]
  }

  /** A codeword followed by its extra bits. */
  function ExtendedBits(lens: seq<nat>, s: nat, x: nat, w: nat): (b: seq<bool>)
    requires s < |lens|
    ensures |b| == lens[s] + w
  {
    Codeword(lens, s) + ToBits(x, w)
  }

  function LengthBits(tb: CodeTables, llens: seq<nat>, t: Token): (b: seq<bool>)
    requires tb.Ok() && t.Match? && t.Valid() && LSym(tb, t) < |llens|
  {
    var x := LengthOffset(tb, t);
    ExtendedBits(llens, LSym(tb, t), x, LENGTH_EXTRA[LSym(tb, t) - 257])
  }

  function DistBits(tb: CodeTables, dlens: seq<nat>, t: Token): (b: seq<bool>)
    requires tb.Ok() && t.Match? && t.Valid() && DSym(tb, t) < |dlens|
  {
    var x := DistOffset(tb, t);
    ExtendedBits(dlens, DSym(tb, t), x, DIST_EXTRA[DSym(tb, t)])
  }

  /** Length code, extra length bits, distance code, extra distance bits. */
  function MatchBits(tb: CodeTables, llens: seq<nat>, dlens: seq<nat>, t: Token): (b: seq<bool>)
    requires tb.Ok() && t.Match? && Coded(tb, llens, dlens, t)
  {
    LengthBits(tb, llens, t) + DistBits(tb, dlens, t)
  }

  function TokenBits(tb: CodeTables, llens: seq<nat>, dlens: seq<nat>, t: Token): (b: seq<bool>)
    requires tb.Ok() && Coded(tb, llens, dlens, t)
  {
    match t
    case Literal(b) => Codeword(llens, b)
    case Match(_, _) => MatchBits(tb, llens, dlens, t)
  }

  predicate AllCoded(tb: CodeTables, llens: seq<nat>, dlens: seq<nat>, toks: seq<Token>)
    requires tb.Ok()
  {
    forall i :: 0 <= i < |toks| ==> Coded(tb, llens, dlens, toks[i])
  }

  function TokensBits(tb: CodeTables, llens: seq<nat>, dlens: seq<nat>, toks: seq<Token>): (b: seq<bool>)
    requires tb.Ok() && AllCoded(tb, llens, dlens, toks)
    decreases |toks|
  {
    if toks == [] then []
    else TokensBits(tb, llens, dlens, toks[..|toks| - 1]) + TokenBits(tb, llens, dlens, toks[|toks| - 1])
  }

  // ---- decoding ----

  lemma ExtendedRead(lens: seq<nat>, s: nat, base: seq<nat>, extra: seq<nat>, c: nat, x: nat, bits: seq<bool>, pos: nat)
    requires Decodable(lens) && s < |lens| && lens[s] > 0
    requires c < |base| && c < |extra| && x < Pow2(extra[c])
    requires At(bits, pos, ExtendedBits(lens, s, x, extra[c]))
    ensures ReadSymbol(lens, bits, pos) == Got(s, pos + lens[s])
    ensures ReadExtra(base, extra, c, bits, pos + lens[s]) == Got(base[c] + x, pos + lens[s] + extra[c])
  {
    hide Decodable, ToBits, Pow2, ReadSymbol;
    assert |Codeword(lens, s)| == lens[s];
    hide Codeword;
    AtSplit(bits, pos, Codeword(lens, s), ToBits(x, extra[c]));
    CodewordRead(lens, s, bits, pos);
    NumberRead(bits, pos + lens[s], x, extra[c]);
  }

  lemma LengthRead(tb: CodeTables, llens: seq<nat>, t: Token, bits: seq<bool>, pos: nat)
    requires tb.Ok() && t.Match? && t.Valid() && Decodable(llens)
    requires LSym(tb, t) < |llens| && llens[LSym(tb, t)] > 0
    requires At(bits, pos, LengthBits(tb, llens, t))
    ensures var s := LSym(tb, t);
            && ReadSymbol(llens, bits, pos) == Got(s, pos + llens[s])
            && ReadExtra(LENGTH_BASE, LENGTH_EXTRA, s - 257, bits, pos + llens[s])
               == Got(t.len, pos + |LengthBits(tb, llens, t)|)
  {
    hide Decodable, Pow2, ReadSymbol, ReadExtra, At, ExtendedBits, LSym, CodeTables.Ok;
    var s, x := LSym(tb, t), LengthOffset(tb, t);
    ExtendedRead(llens, s, LENGTH_BASE, LENGTH_EXTRA, s - 257, x, bits, pos);
  }

  lemma DistRead(tb: CodeTables, dlens: seq<nat>, t: Token, bits: seq<bool>, pos: nat)
    requires tb.Ok() && t.Match? && t.Valid() && Decodable(dlens)
    requires DSym(tb, t) < |dlens| && dlens[DSym(tb, t)] > 0
    requires At(bits, pos, DistBits(tb, dlens, t))
    ensures var s := DSym(tb, t);
            && ReadSymbol(dlens, bits, pos) == Got(s, pos + dlens[s])
            && ReadExtra(DIST_BASE, DIST_EXTRA, s, bits, pos + dlens[s])
               == Got(t.dist, pos + |DistBits(tb, dlens, t)|)
  {
    hide Decodable, Pow2, ReadSymbol, ReadExtra, At, ExtendedBits, DSym, CodeTables.Ok;
    var s, x := DSym(tb, t), DistOffset(tb, t);
    ExtendedRead(dlens, s, DIST_BASE, DIST_EXTRA, s, x, bits, pos);
  }

  lemma MatchRead(tb: CodeTables, llens: seq<nat>, dlens: seq<nat>, t: Token, bits: seq<bool>, pos: nat)
    requires tb.Ok() && t.Match? && Coded(tb, llens, dlens, t) && Decodable(llens) && Decodable(dlens)
    requires At(bits, pos, MatchBits(tb, llens, dlens, t))
    ensures var s := LSym(tb, t);
            && ReadSymbol(llens, bits, pos) == Got(s, pos + llens[s])
            && ReadMatch(dlens, s, bits, pos + llens[s]) == Got((t.len, t.dist), pos + |MatchBits(tb, llens, dlens, t)|)
  {
    hide Decodable, Pow2, ReadSymbol, ReadExtra, At, LengthBits, DistBits, LSym, DSym, CodeTables.Ok;
    var lb := LengthBits(tb, llens, t);
    AtSplit(bits, pos, lb, DistBits(tb, dlens, t));
    LengthRead(tb, llens, t, bits, pos);
    DistRead(tb, dlens, t, bits, pos + |lb|);
  }

  lemma SymbolRange(tb: CodeTables, t: Token)
    requires tb.Ok() && t.Valid() && t.Match?
    ensures 257 <= LSym(tb, t)
  {
    var _ := LengthOffset(tb, t);
  }

  lemma MatchPlayed(llens: seq<nat>, dlens: seq<nat>, s: nat, len: nat, dist: nat, bits: seq<bool>, pos: nat, p: nat, q: nat, out: seq<Byte>)
    requires s > END_BLOCK && ReadSymbol(llens, bits, pos) == Got(s, p)
    requires ReadMatch(dlens, s, bits, p) == Got((len, dist), q)
    requires 0 < dist <= |out| && q <= |bits|
    ensures ReadSymbols(llens, dlens, bits, pos, out) == ReadSymbols(llens, dlens, bits, q, CopyMatch(out, dist, len))
  {
    hide ReadMatch, ReadSymbol;
  }

  /** A token's bits decode to the token, which is then played. */
  lemma TokenRead(tb: CodeTables, llens: seq<nat>, dlens: seq<nat>, t: Token, bits: seq<bool>, pos: nat, out: seq<Byte>)
    requires tb.Ok() && Coded(tb, llens, dlens, t) && Decodable(llens) && Decodable(dlens) && CanPlay(out, t)
    requires At(bits, pos, TokenBits(tb, llens, dlens, t))
    ensures ReadSymbols(llens, dlens, bits, pos, out)
         == ReadSymbols(llens, dlens, bits, pos + |TokenBits(tb, llens, dlens, t)|, PlayOne(out, t))
  {
    hide MatchBits, ReadMatch, Decodable, Codeword, ReadSymbol, At, CodeTables.Ok;
    match t {
      case Literal(b) =>
        CodewordSize(llens, b);
        CodewordRead(llens, b, bits, pos);
      case Match(dist, len) =>
        var s := LSym(tb, t);
        hide LSym, ReadSymbols, DSym;
        AtEnds(bits, pos, MatchBits(tb, llens, dlens, t));
        SymbolRange(tb, t);
        MatchRead(tb, llens, dlens, t, bits, pos);
        MatchPlayed(llens, dlens, s, len, dist, bits, pos, pos + llens[s], pos + |MatchBits(tb, llens, dlens, t)|, out);
    }
  }

  lemma AtEnds(bits: seq<bool>, pos: nat, x: seq<bool>)
    requires At(bits, pos, x)
    ensures pos + |x| <= |bits|
  {
  }

  lemma CodewordSize(lens: seq<nat>, s: nat)
    requires s < |lens|
    ensures |Codeword(lens, s)| == lens[s]
  {
  }

  lemma {:induction false} PlaysSplit(out: seq<Byte>, a: seq<Token>, t: Token, result: seq<Byte>) returns (mid: seq<Byte>)
    requires Plays(out, a + [t], result)
    ensures Plays(out, a, mid) && CanPlay(mid, t) && PlayOne(mid, t) == result
    decreases |a|
  {
    if a == [] {
      assert a + [t] == [t] && [t][1..] == [];
      mid := out;
    } else {
      assert (a + [t])[0] == a[0] && (a + [t])[1..] == a[1..] + [t];
      mid := PlaysSplit(PlayOne(out, a[0]), a[1..], t, result);
    }
  }

  lemma {:induction false} TokensRead(tb: CodeTables, llens: seq<nat>, dlens: seq<nat>, toks: seq<Token>,
                                      bits: seq<bool>, pos: nat, out: seq<Byte>, result: seq<Byte>)
    requires tb.Ok() && AllCoded(tb, llens, dlens, toks) && Decodable(llens) && Decodable(dlens)
    requires Plays(out, toks, result) && At(bits, pos, TokensBits(tb, llens, dlens, toks))
    ensures ReadSymbols(llens, dlens, bits, pos, out)
         == ReadSymbols(llens, dlens, bits, pos + |TokensBits(tb, llens, dlens, toks)|, result)
    decreases |toks|
  {
    hide TokenBits, TokensBits, ReadSymbols, Coded, AllCoded, Decodable, Plays, At, CodeTables.Ok, PlayOne, CanPlay;
    if toks == [] {
      NothingRead(tb, llens, dlens, out, result);
    } else {
      var front, z := toks[..|toks| - 1], toks[|toks| - 1];
      assert toks == front + [z];
      TokensSplit(tb, llens, dlens, toks);
      var fb := TokensBits(tb, llens, dlens, front);
      var mid := PlaysSplit(out, front, z, result);
      AtSplit(bits, pos, fb, TokenBits(tb, llens, dlens, z));
      TokensRead(tb, llens, dlens, front, bits, pos, out, mid);
      TokenRead(tb, llens, dlens, z, bits, pos + |fb|, mid);
    }
  }

  lemma NothingRead(tb: CodeTables, llens: seq<nat>, dlens: seq<nat>, out: seq<Byte>, result: seq<Byte>)
    requires tb.Ok() && Plays(out, [], result) && AllCoded(tb, llens, dlens, [])
    ensures result == out && TokensBits(tb, llens, dlens, []) == []
  {
  }

  lemma TokensSplit(tb: CodeTables, llens: seq<nat>, dlens: seq<nat>, toks: seq<Token>)
    requires tb.Ok() && AllCoded(tb, llens, dlens, toks) && toks != []
    ensures var front, z := toks[..|toks| - 1], toks[|toks| - 1];
            && AllCoded(tb, llens, dlens, front) && Coded(tb, llens, dlens, z)
            && TokensBits(tb, llens, dlens, toks) == TokensBits(tb, llens, dlens, front) + TokenBits(tb, llens, dlens, z)
  {
    hide CodeTables.Ok, Coded, TokenBits;
  }

  /** The data of a compressed block: all tokens, then end-of-block. */
  function DataBits(tb: CodeTables, llens: seq<nat>, dlens: seq<nat>, toks: seq<Token>): (b: seq<bool>)
    requires tb.Ok() && AllCoded(tb, llens, dlens, toks) && |llens| > END_BLOCK
  {
    TokensBits(tb, llens, dlens, toks) + Codeword(llens, END_BLOCK)
  }

  /** The data of a block decodes to what its tokens stand for. */
  lemma DataRead(tb: CodeTables, llens: seq<nat>, dlens: seq<nat>, toks: seq<Token>,
                 bits: seq<bool>, pos: nat, out: seq<Byte>, result: seq<Byte>)
    requires tb.Ok() && AllCoded(tb, llens, dlens, toks) && Decodable(llens) && Decodable(dlens)
    requires |llens| > END_BLOCK && llens[END_BLOCK] > 0
    requires Plays(out, toks, result) && At(bits, pos, DataBits(tb, llens, dlens, toks))
    ensures ReadSymbols(llens, dlens, bits, pos, out) == Got(result, pos + |DataBits(tb, llens, dlens, toks)|)
  {
    hide TokensBits, Codeword, Decodable, At, ReadSymbol, CodeTables.Ok, Plays, AllCoded;
    AtSplit(bits, pos, TokensBits(tb, llens, dlens, toks), Codeword(llens, END_BLOCK));
    TokensRead(tb, llens, dlens, toks, bits, pos, out, result);
    CodewordSize(llens, END_BLOCK);
    CodewordRead(llens, END_BLOCK, bits, pos + |TokensBits(tb, llens, dlens, toks)|);
  }
}
