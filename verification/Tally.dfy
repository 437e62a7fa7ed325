/** init_block and ct_tally: the buffers that hold the tokens of the current block, and
    the frequencies of their symbols. */
module Tally {
  import opened Bits
  import opened Inflate
  import opened Sums
  import opened Tables
  import opened Tokens

  const LIT_BUFSIZE := 0x2000
  const DIST_BUFSIZE := 0x2000

  // ---- what the buffers say about the tokens ----

  function Lc(t: Token): (b: Byte)
    requires t.Valid()
  {
    match t
    case Literal(b) => b
    case Match(_, len) => len - 3
  }

  /** l_buf holds every token's literal or length. */
  predicate LitsHeld(lBuf: seq<Byte>, toks: seq<Token>)
    requires AllValid(toks)
  {
    |toks| <= |lBuf| && forall i :: 0 <= i < |toks| ==> lBuf[i] == Lc(toks[i])
  }

  /** How many of the tokens are matches. */
  function Matches(toks: seq<Token>): (n: nat)
    ensures n <= |toks|
  {
    if toks == [] then 0
    else Matches(toks[..|toks| - 1]) + (if toks[|toks| - 1].Match? then 1 else 0)
  }

  lemma {:induction false} MatchesPrefix(toks: seq<Token>, i: nat)
    requires i < |toks| && toks[i].Match?
    ensures Matches(toks[..i]) < Matches(toks)
  {
    var front := toks[..|toks| - 1];
    if i < |front| {
      assert front[..i] == toks[..i];
      MatchesPrefix(front, i);
    }
  }

  /** d_buf holds the distances of the matches, in order. */
  ghost predicate DistsHeld(dBuf: seq<nat>, toks: seq<Token>)
  {
    && Matches(toks) <= |dBuf|
    && forall i :: 0 <= i < |toks| && toks[i].Match? ==>
         Matches(toks[..i]) < Matches(toks) && dBuf[Matches(toks[..i])] + 1 == toks[i].dist
  }

  function Kinds(toks: seq<Token>): (k: seq<bool>)
    ensures |k| == |toks| && forall i :: 0 <= i < |k| ==> k[i] == toks[i].Match?
  {
    seq(|toks|, i requires 0 <= i < |toks| => toks[i].Match?)
  }

  /** The kinds of the tokens from i on, up to the next multiple of eight. */
  function Group(toks: seq<Token>, i: nat): (k: seq<bool>)
    requires i <= |toks|
  {
    var end := i / 8 * 8 + 8;
    if end <= |toks| then Kinds(toks[i..end]) else Kinds(toks[i..])
  }

  /** flag_buf holds one bit a token, eight to the byte; the last few are still in `flags`. */
  ghost predicate FlagsHeld(flagBuf: seq<nat>, last: nat, flags: nat, toks: seq<Token>)
  {
    && last == |toks| / 8 <= |flagBuf|
    && (forall g :: 0 <= g < last ==> FlagByte(flagBuf, g, toks))
    && flags == FromBits(Group(toks, 8 * last))
  }

  ghost predicate FlagByte(flagBuf: seq<nat>, g: nat, toks: seq<Token>)
  {
    g < |flagBuf| && 8 * g <= |toks| && flagBuf[g] == FromBits(Group(toks, 8 * g))
  }

  lemma LitsSnoc(lBuf: seq<Byte>, toks: seq<Token>, t: Token)
    requires AllValid(toks) && t.Valid() && LitsHeld(lBuf, toks) && |toks| < |lBuf|
    ensures AllValid(toks + [t]) && LitsHeld(lBuf[|toks| := Lc(t)], toks + [t])
  {
  }

  lemma DistsSnoc(dBuf: seq<nat>, toks: seq<Token>, t: Token)
    requires DistsHeld(dBuf, toks) && Matches(toks) < |dBuf| && t.Valid()
    ensures Matches(toks + [t]) == Matches(toks) + (if t.Match? then 1 else 0)
    ensures DistsHeld(if t.Match? then dBuf[Matches(toks) := t.dist - 1] else dBuf, toks + [t])
  {
    var all := toks + [t];
    assert all[..|toks|] == toks;
    forall i | 0 <= i < |all| && all[i].Match?
      ensures var dBuf' := if t.Match? then dBuf[Matches(toks) := t.dist - 1] else dBuf;
              Matches(all[..i]) < Matches(all) && dBuf'[Matches(all[..i])] + 1 == all[i].dist
    {
      MatchesPrefix(all, i);
      if i < |toks| {
        assert all[..i] == toks[..i];
        assert toks[i].Match?;
      }
    }
  }

  lemma {:induction false} FromBitsSnoc(b: seq<bool>, x: bool)
    ensures FromBits(b + [x]) == FromBits(b) + (if x then Pow2(|b|) else 0)
  {
    if b == [] {
      assert (b + [x])[1..] == [];
    } else {
      assert (b + [x])[1..] == b[1..] + [x];
      FromBitsSnoc(b[1..], x);
    }
  }

  lemma GroupKept(toks: seq<Token>, t: Token, g: nat)
    requires 8 * g + 8 <= |toks|
    ensures Group(toks + [t], 8 * g) == Group(toks, 8 * g)
  {
    assert 8 * g / 8 == g;
    assert (toks + [t])[8 * g..8 * g + 8] == toks[8 * g..8 * g + 8];
  }

  lemma LastGroup(toks: seq<Token>, t: Token)
    ensures var g := |toks| / 8;
            && Group(toks, 8 * g) == Kinds(toks[8 * g..])
            && Group(toks + [t], 8 * g) == Kinds(toks[8 * g..]) + [t.Match?]
  {
    var g := |toks| / 8;
    assert 8 * g / 8 == g;
    assert (toks + [t])[8 * g..] == toks[8 * g..] + [t];
    if 8 * g + 8 <= |toks + [t]| {
      assert (toks + [t])[8 * g..8 * g + 8] == toks[8 * g..] + [t];
    }
  }

  lemma EmptyGroup(toks: seq<Token>)
    requires |toks| % 8 == 0
    ensures Group(toks, |toks|) == [] && FromBits([]) == 0
  {
  }

  lemma FlagsSnoc(flagBuf: seq<nat>, last: nat, flags: nat, toks: seq<Token>, t: Token)
    requires FlagsHeld(flagBuf, last, flags, toks) && last < |flagBuf|
    ensures var f := flags + (if t.Match? then Pow2(|toks| % 8) else 0);
            if |toks + [t]| % 8 == 0 then FlagsHeld(flagBuf[last := f], last + 1, 0, toks + [t])
            else FlagsHeld(flagBuf, last, f, toks + [t])
  {
    hide Group, FromBits, Kinds, Pow2;
    var all := toks + [t];
    var f := flags + (if t.Match? then Pow2(|toks| % 8) else 0);
    LastGroup(toks, t);
    FromBitsSnoc(Kinds(toks[8 * last..]), t.Match?);
    assert f == FromBits(Group(all, 8 * last));
    var fb := if |all| % 8 == 0 then flagBuf[last := f] else flagBuf;
    forall g | 0 <= g < last ensures FlagByte(fb, g, all) {
      GroupKept(toks, t, g);
      assert FlagByte(flagBuf, g, toks);
    }
    if |all| % 8 == 0 {
      EmptyGroup(all);
    }
  }

  // ---- frequencies ----

  lemma SymbolsBelow(tb: CodeTables, t: Token)
    requires tb.Ok() && t.Valid()
    ensures LSym(tb, t) < L_CODES && LSym(tb, t) != END_BLOCK
    ensures t.Match? ==> DSym(tb, t) < D_CODES
  {
    if t.Match? {
      var _ := LengthOffset(tb, t);
      var _ := DistOffset(tb, t);
    }
  }

  function Bump(f: seq<nat>, s: nat): (g: seq<nat>)
    requires s < |f|
  {
    f[s := f[s] + 1]
  }

  /** How often each literal/length symbol occurs; end-of-block occurs once. */
  ghost function LFreq(tb: CodeTables, toks: seq<Token>): (f: seq<nat>)
    requires tb.Ok() && AllValid(toks)
    ensures |f| == L_CODES
  {
    if toks == [] then Zeros(L_CODES)[END_BLOCK := 1]
    else
      SymbolsBelow(tb, toks[|toks| - 1]);
      Bump(LFreq(tb, toks[..|toks| - 1]), LSym(tb, toks[|toks| - 1]))
  }

  ghost function DFreq(tb: CodeTables, toks: seq<Token>): (f: seq<nat>)
    requires tb.Ok() && AllValid(toks)
    ensures |f| == D_CODES
  {
    if toks == [] then Zeros(D_CODES)
    else
      SymbolsBelow(tb, toks[|toks| - 1]);
      var f := DFreq(tb, toks[..|toks| - 1]);
      if toks[|toks| - 1].Match? then Bump(f, DSym(tb, toks[|toks| - 1])) else f
  }

  lemma {:induction false} UsedIsCounted(tb: CodeTables, toks: seq<Token>, i: nat)
    requires tb.Ok() && AllValid(toks) && i < |toks|
    ensures LSym(tb, toks[i]) < L_CODES && LFreq(tb, toks)[LSym(tb, toks[i])] > 0
    ensures toks[i].Match? ==> DSym(tb, toks[i]) < D_CODES && DFreq(tb, toks)[DSym(tb, toks[i])] > 0
  {
    hide LSym, DSym, CodeTables.Ok;
    SymbolsBelow(tb, toks[i]);
    SymbolsBelow(tb, toks[|toks| - 1]);
    if i < |toks| - 1 {
      UsedIsCounted(tb, toks[..|toks| - 1], i);
    }
  }

  lemma {:induction false} EndIsCounted(tb: CodeTables, toks: seq<Token>)
    requires tb.Ok() && AllValid(toks)
    ensures LFreq(tb, toks)[END_BLOCK] == 1
  {
    hide LSym, CodeTables.Ok;
    if toks != [] {
      SymbolsBelow(tb, toks[|toks| - 1]);
      EndIsCounted(tb, toks[..|toks| - 1]);
    }
  }

  /** Clears the first n frequencies. */
  method ClearFirst(freq: array<nat>, n: nat)
    requires n <= freq.Length
    modifies freq
    ensures forall i :: 0 <= i < n ==> freq[i] == 0
    ensures forall i :: n <= i < freq.Length ==> freq[i] == old(freq[i])
  {
    var k := 0;
    while k < n
      invariant 0 <= k <= n && forall i :: 0 <= i < k ==> freq[i] == 0
      invariant forall i :: n <= i < freq.Length ==> freq[i] == old(freq[i])
    {
      freq[k] := 0;
      k := k + 1;
    }
  }

  // ---- the buffers ----

  class TokenBuffer {
    const tb: CodeTables
    const lBuf: array<Byte>
    const dBuf: array<nat>
    const flagBuf: array<nat>
    const lfc: array<nat>      // dyn_ltree[].Freq
    const dfc: array<nat>      // dyn_dtree[].Freq
    var lastLit: nat
    var lastDist: nat
    var lastFlags: nat
    var flags: nat
    var flagBit: nat
    ghost var toks: seq<Token>  // the tokens of the current block

    ghost predicate Sized()
    {
      && tb.Ok()
      && lBuf.Length == LIT_BUFSIZE && dBuf.Length == DIST_BUFSIZE && flagBuf.Length == LIT_BUFSIZE / 8
      && lfc.Length == 2 * L_CODES + 1 && dfc.Length == 2 * D_CODES + 1
      && (lBuf as object) != (dBuf as object)
    }

    ghost predicate Held()
      reads this, lBuf, dBuf, flagBuf
    {
      && Sized() && AllValid(toks)
      && lastLit == |toks| < LIT_BUFSIZE && lastDist == Matches(toks)
      && flagBit == Pow2(|toks| % 8)
      && LitsHeld(lBuf[..], toks)
      && DistsHeld(dBuf[..], toks)
      && FlagsHeld(flagBuf[..], lastFlags, flags, toks)
    }

    ghost predicate Valid()
      reads this, lBuf, dBuf, flagBuf, lfc, dfc
    {
      && Held()
      && lfc[..L_CODES] == LFreq(tb, toks)
      && dfc[..D_CODES] == DFreq(tb, toks)
    }

    constructor (tb: CodeTables, lfc: array<nat>, dfc: array<nat>)
      requires tb.Ok() && lfc.Length == 2 * L_CODES + 1 && dfc.Length == 2 * D_CODES + 1 && lfc != dfc
      ensures Sized() && this.tb == tb && this.lfc == lfc && this.dfc == dfc
      ensures fresh(lBuf) && fresh(dBuf) && fresh(flagBuf)
    {
      this.tb, this.lfc, this.dfc := tb, lfc, dfc;
      lBuf := new Byte[LIT_BUFSIZE](i => 0);
      dBuf := new nat[DIST_BUFSIZE](i => 0);
      flagBuf := new nat[LIT_BUFSIZE / 8](i => 0);
      lastLit, lastDist, lastFlags, flags, flagBit, toks := 0, 0, 0, 0, 1, [];
      new;
    }

    /** init_block, apart from the bit-length tree. */
    method InitBlock()
      requires Sized()
      modifies this, lfc, dfc
      ensures Valid() && toks == []
    {
      hide CodeTables.Ok;
      ClearFirst(lfc, L_CODES);
      ClearFirst(dfc, D_CODES);
      assert lfc[..L_CODES] == Zeros(L_CODES) && dfc[..D_CODES] == Zeros(D_CODES);
      lfc[END_BLOCK] := 1;
      lastLit, lastDist, lastFlags, flags, flagBit, toks := 0, 0, 0, 0, 1, [];
      EmptyGroup(toks);
    }

    /** The frequency counts of ct_tally. */
    method Count(dist: nat, lc: Byte)
      requires Valid() && dist <= 32768
      modifies lfc, dfc
      ensures var t := TokenOf(dist, lc);
              && Held() && AllValid(toks + [t])
              && lfc[..L_CODES] == LFreq(tb, toks + [t])
              && dfc[..D_CODES] == DFreq(tb, toks + [t])
    {
      hide LitsHeld, DistsHeld, FlagsHeld, Pow2, CodeTables.Ok, CodeTables.LengthOk;
      ghost var t := TokenOf(dist, lc);
      ghost var l: seq<nat>, d: seq<nat> := lfc[..], dfc[..];
      assert (toks + [t])[..|toks|] == toks;
      SymbolsBelow(tb, t);
      if dist == 0 {
        lfc[lc] := lfc[lc] + 1;
        assert lfc[..L_CODES] == Bump(l[..L_CODES], lc);
      } else {
        LengthEntry(tb, lc);
        TablesSized(tb);
        var ls := tb.lengthCode[lc] + 256 + 1;
        var ds := tb.DCode(dist - 1);
        assert ls == LSym(tb, t) && ds == DSym(tb, t);
        lfc[ls] := lfc[ls] + 1;
        assert lfc[..L_CODES] == Bump(l[..L_CODES], ls);
        dfc[ds] := dfc[ds] + 1;
        assert dfc[..D_CODES] == Bump(d[..D_CODES], ds);
      }
    }

    /** The flag bit of ct_tally for the token that has just been put in l_buf. */
    method PutFlag(isMatch: bool, ghost t: Token)
      requires Sized() && isMatch == t.Match? && lastLit == |toks| + 1 < LIT_BUFSIZE && flagBit == Pow2(|toks| % 8)
      requires FlagsHeld(flagBuf[..], lastFlags, flags, toks)
      modifies this`flags, this`flagBit, this`lastFlags, flagBuf
      ensures flagBit == Pow2(lastLit % 8)
      ensures FlagsHeld(flagBuf[..], lastFlags, flags, toks + [t])
    {
      hide CodeTables.Ok, FlagsHeld, Pow2, Or;
      ghost var fb: seq<nat> := flagBuf[..];
      FlagBits(|toks| % 8, fb, lastFlags, flags, toks);
      FlagsSnoc(fb, lastFlags, flags, toks, t);
      if isMatch {
        flags := Or(flags, flagBit, 8);
      }
      flagBit := flagBit * 2 % 256;
      if lastLit % 8 == 0 {
        flagBuf[lastFlags] := flags;
        assert flagBuf[..] == fb[lastFlags := flags];
        lastFlags, flags, flagBit := lastFlags + 1, 0, 1;
      }
    }

    /** ct_tally: dist is 0 for a literal. `cut` stands for the guess that ending the block
        here would pay; it is only consulted every 4096 tokens. */
    method CtTally(dist: nat, lc: Byte, cut: bool) returns (flush: bool)
      requires Valid() && lastLit < LIT_BUFSIZE - 1 && dist <= 32768
      modifies this, lBuf, dBuf, flagBuf, lfc, dfc
      ensures Valid() && toks == old(toks) + [TokenOf(dist, lc)]
      ensures !flush ==> lastLit < LIT_BUFSIZE - 1
    {
      hide CodeTables.Ok, LSym, DSym, LitsHeld, DistsHeld, FlagsHeld, Pow2, LFreq, DFreq, Matches, Or;
      Count(dist, lc);
      ghost var t := TokenOf(dist, lc);
      ghost var l: seq<Byte>, d: seq<nat> := lBuf[..], dBuf[..];
      LitsSnoc(l, toks, t);
      DistsSnoc(d, toks, t);
      lBuf[lastLit] := lc;
      assert lBuf[..] == l[|toks| := lc];
      lastLit := lastLit + 1;
      if dist != 0 {
        dBuf[lastDist] := dist - 1;
        assert dBuf[..] == d[lastDist := dist - 1];
        lastDist := lastDist + 1;
      }
      PutFlag(dist != 0, t);
      toks := toks + [t];
      return (lastLit % 0x1000 == 0 && cut) || lastLit == LIT_BUFSIZE - 1 || lastDist == DIST_BUFSIZE;
    }
  }

  lemma TablesSized(tb: CodeTables)
    requires tb.Ok()
    ensures |tb.distCode| == 512
  {
  }

  function TokenOf(dist: nat, lc: Byte): (t: Token)
    requires dist <= 32768
    ensures t.Valid() && Lc(t) == lc
  {
    if dist == 0 then Literal(lc) else Match(dist, lc + 3)
  }

  lemma FlagBits(k: nat, flagBuf: seq<nat>, last: nat, flags: nat, toks: seq<Token>)
    requires FlagsHeld(flagBuf, last, flags, toks) && k == |toks| % 8
    ensures Or(flags, Pow2(k), 8) == flags + Pow2(k)
    ensures k < 7 ==> Pow2(k) * 2 % 256 == Pow2(k + 1)
    ensures Pow2(0) == 1 && last == |toks| / 8
  {
    hide Or, Kinds;
    assert |Group(toks, 8 * last)| == k;
    hide Group;
    Pow2IsShl(k);
    Pow2Monotone(1, 8 - k);
    OrDisjoint(flags, 1, k, 8);
    if k < 7 {
      Pow2Monotone(k + 1, 7);
      assert Pow2(7) == 128;
    }
  }
}
