/** Every prefix code meets Kraft's inequality, so the lengths of build_tree are least among all
    prefix codes, whatever their codewords. */
module PrefixCodes {
  import opened Bits
  import opened Sums
  import opened BitLengths
  import opened HuffmanCode

  /** Neither word is a prefix of the other. */
  predicate Apart(x: seq<bool>, y: seq<bool>)
  {
    !(x <= y) && !(y <= x)
  }

  predicate ApartFrom(ws: seq<seq<bool>>, x: seq<bool>)
  {
    forall i :: 0 <= i < |ws| ==> Apart(ws[i], x)
  }

  /** No word of the list is a prefix of another. */
  predicate IsPrefixCode(ws: seq<seq<bool>>)
  {
    ws == [] || (IsPrefixCode(ws[..|ws| - 1]) && ApartFrom(ws[..|ws| - 1], ws[|ws| - 1]))
  }

  predicate UpTo(ws: seq<seq<bool>>, max: nat)
  {
    forall i :: 0 <= i < |ws| ==> |ws[i]| <= max
  }

  predicate NoneEmpty(ws: seq<seq<bool>>)
  {
    forall i :: 0 <= i < |ws| ==> ws[i] != []
  }

  /** The share of the code space the words take, in units of 2^-max. */
  function Space(ws: seq<seq<bool>>, max: nat): (k: nat)
    requires UpTo(ws, max)
  {
    if ws == [] then 0 else Space(ws[..|ws| - 1], max) + Pow2(max - |ws[|ws| - 1]|)
  }

  /** What follows bit b in the words that start with it. */
  function Behind(ws: seq<seq<bool>>, b: bool): (t: seq<seq<bool>>)
  {
    if ws == [] then []
    else
      var w := ws[|ws| - 1];
      Behind(ws[..|ws| - 1], b) + (if w != [] && w[0] == b then [w[1..]] else [])
  }

  lemma CodeSnoc(ws: seq<seq<bool>>, x: seq<bool>)
    requires IsPrefixCode(ws) && ApartFrom(ws, x)
    ensures IsPrefixCode(ws + [x])
  {
    assert (ws + [x])[..|ws|] == ws;
  }

  lemma SpaceSnoc(ws: seq<seq<bool>>, x: seq<bool>, max: nat)
    requires UpTo(ws, max) && |x| <= max
    ensures UpTo(ws + [x], max) && Space(ws + [x], max) == Space(ws, max) + Pow2(max - |x|)
  {
    assert (ws + [x])[..|ws|] == ws;
  }

  lemma {:induction false} BehindApart(ws: seq<seq<bool>>, b: bool, x: seq<bool>)
    requires ApartFrom(ws, x) && x != [] && x[0] == b
    ensures ApartFrom(Behind(ws, b), x[1..])
  {
    if ws != [] {
      var w := ws[|ws| - 1];
      BehindApart(ws[..|ws| - 1], b, x);
      if w != [] && w[0] == b {
        assert Apart(w, x);
        assert w == [b] + w[1..] && x == [b] + x[1..];
      }
    }
  }

  lemma {:induction false} BehindIsCode(ws: seq<seq<bool>>, b: bool)
    requires IsPrefixCode(ws)
    ensures IsPrefixCode(Behind(ws, b))
  {
    if ws != [] {
      var w := ws[|ws| - 1];
      BehindIsCode(ws[..|ws| - 1], b);
      if w != [] && w[0] == b {
        BehindApart(ws[..|ws| - 1], b, w);
        CodeSnoc(Behind(ws[..|ws| - 1], b), w[1..]);
        assert Behind(ws, b) == Behind(ws[..|ws| - 1], b) + [w[1..]];
      } else {
        assert Behind(ws, b) == Behind(ws[..|ws| - 1], b);
      }
    }
  }

  /** The words that start with either bit share the space between them. */
  lemma {:induction false} SpaceSplits(ws: seq<seq<bool>>, max: nat)
    requires max > 0 && UpTo(ws, max) && NoneEmpty(ws)
    ensures UpTo(Behind(ws, false), max - 1) && UpTo(Behind(ws, true), max - 1)
    ensures Space(ws, max) == Space(Behind(ws, false), max - 1) + Space(Behind(ws, true), max - 1)
  {
    if ws == [] {
      NoWords(max);
    } else {
      LastApart(ws, max);
      hide Pow2, Space, Behind, UpTo, NoneEmpty;
      var front, w := ws[..|ws| - 1], ws[|ws| - 1];
      SpaceSplits(front, max);
      SpaceSnoc(front, w, max);
      BehindSnoc(front, w, false);
      BehindSnoc(front, w, true);
      SpaceSnoc(Behind(front, w[0]), w[1..], max - 1);
    }
  }

  lemma LastApart(ws: seq<seq<bool>>, max: nat)
    requires ws != [] && UpTo(ws, max) && NoneEmpty(ws)
    ensures var front, w := ws[..|ws| - 1], ws[|ws| - 1];
            ws == front + [w] && UpTo(front, max) && NoneEmpty(front) && 1 <= |w| <= max
  {
  }

  lemma NoWords(max: nat)
    requires max > 0
    ensures UpTo([], max) && UpTo([], max - 1)
    ensures Behind([], false) == [] && Behind([], true) == [] && Space([], max) == 0 && Space([], max - 1) == 0
  {
  }

  lemma BehindSnoc(ws: seq<seq<bool>>, w: seq<bool>, b: bool)
    requires w != []
    ensures Behind(ws + [w], b) == if w[0] == b then Behind(ws, b) + [w[1..]] else Behind(ws, b)
  {
    assert (ws + [w])[..|ws|] == ws;
  }

  lemma {:induction false} NoEmptyWord(ws: seq<seq<bool>>)
    requires IsPrefixCode(ws) && |ws| > 1
    ensures NoneEmpty(ws)
  {
    var front, w := ws[..|ws| - 1], ws[|ws| - 1];
    assert Apart(front[0], w);
    forall i | 0 <= i < |ws| ensures ws[i] != [] {
      if i < |front| {
        assert Apart(front[i], w);
      }
    }
  }

  /** Kraft's inequality. */
  lemma {:induction false} KraftInequality(ws: seq<seq<bool>>, max: nat)
    requires IsPrefixCode(ws) && UpTo(ws, max)
    ensures Space(ws, max) <= Pow2(max)
    decreases max
  {
    if |ws| <= 1 {
      FewWords(ws, max);
    } else {
      NoEmptyWord(ws);
      assert |ws[0]| <= max;
      BehindIsCode(ws, false);
      BehindIsCode(ws, true);
      SpaceSplits(ws, max);
      assert Pow2(max) == 2 * Pow2(max - 1);
      hide Space, IsPrefixCode, Behind, Pow2;
      KraftInequality(Behind(ws, false), max - 1);
      KraftInequality(Behind(ws, true), max - 1);
    }
  }

  lemma FewWords(ws: seq<seq<bool>>, max: nat)
    requires |ws| <= 1 && UpTo(ws, max)
    ensures Space(ws, max) <= Pow2(max)
  {
    if ws != [] {
      assert Space(ws[..0], max) == 0;
      Pow2Monotone(max - |ws[0]|, max);
    }
  }

  // ---- codes for symbols ----

  /** The lengths of the words; a symbol without a word has the empty one. */
  function Lengths(words: seq<seq<bool>>): (lens: seq<nat>)
    ensures |lens| == |words| && forall i :: 0 <= i < |words| ==> lens[i] == |words[i]|
  {
    seq(|words|, i requires 0 <= i < |words| => |words[i]|)
  }

  /** The words of the symbols in use, in order. */
  function UsedWords(freq: seq<nat>, words: seq<seq<bool>>): (ws: seq<seq<bool>>)
    requires |words| <= |freq|
  {
    if words == [] then []
    else
      var n := |words| - 1;
      UsedWords(freq, words[..n]) + (if freq[n] > 0 then [words[n]] else [])
  }

  /** Exactly the symbols in use have a word, and the words form a prefix code. */
  ghost predicate CodeOf(freq: seq<nat>, words: seq<seq<bool>>, max: nat)
  {
    && |words| <= |freq| && IsPrefixCode(UsedWords(freq, words))
    && forall i :: 0 <= i < |words| ==> if freq[i] > 0 then 1 <= |words[i]| <= max else words[i] == []
  }

  lemma {:induction false} SpaceIsShares(freq: seq<nat>, words: seq<seq<bool>>, max: nat)
    requires |words| <= |freq| && forall i :: 0 <= i < |words| ==> if freq[i] > 0 then 1 <= |words[i]| <= max else words[i] == []
    ensures UpTo(UsedWords(freq, words), max)
    ensures Space(UsedWords(freq, words), max) == Shares(Lengths(words), max)
  {
    if words != [] {
      var n := |words| - 1;
      SpaceIsShares(freq, words[..n], max);
      assert Lengths(words)[..n] == Lengths(words[..n]);
      if freq[n] > 0 {
        SpaceSnoc(UsedWords(freq, words[..n]), words[n], max);
      } else {
        assert UsedWords(freq, words[..n]) + [] == UsedWords(freq, words[..n]);
      }
    }
  }

  /** Lengths that are optimal cost no more than any prefix code for the same symbols. */
  lemma OptimalAmongPrefixCodes(freq: seq<nat>, lens: seq<nat>, words: seq<seq<bool>>, max: nat)
    requires Optimal(freq, lens) && CodeOf(freq, words, max) && |words| == |lens|
    ensures Cost(freq, lens, Zeros(|lens|)) <= Cost(freq, Lengths(words), Zeros(|lens|))
  {
    hide Cost, Space, Shares, IsPrefixCode, UsedWords;
    SpaceIsShares(freq, words, max);
    KraftInequality(UsedWords(freq, words), max);
    assert CodeFor(freq, Lengths(words), max);
  }
}
