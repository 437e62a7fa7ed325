/** The string functions of the C library that dpkg uses. */
module Strings {

  /** The place of the first c, or the length. */
  function FindFirst(s: string, c: char): (i: nat)
    ensures i <= |s| && (i < |s| ==> s[i] == c) && forall j :: 0 <= j < i ==> s[j] != c
  {
    if s == [] || s[0] == c then 0 else 1 + FindFirst(s[1..], c)
  }

  /** The place of the last c, or -1. */
  function FindLast(s: string, c: char): (i: int)
    ensures -1 <= i < |s| && (i >= 0 ==> s[i] == c) && forall j :: i < j < |s| ==> s[j] != c
  {
    if s == [] then -1 else if s[|s| - 1] == c then |s| - 1 else FindLast(s[..|s| - 1], c)
  }

  lemma {:induction false} FindFirstIs(s: string, t: string, c: char)
    requires c !in s && t != [] && t[0] == c
    ensures FindFirst(s + t, c) == |s|
  {
    if s == [] {
      assert s + t == t;
    } else {
      assert (s + t)[1..] == s[1..] + t;
      FindFirstIs(s[1..], t, c);
    }
  }

  // ---- spans ----

  /** strspn and strcspn: the length of the first part with only such characters, or with none of them. */
  function Spn(s: string, accept: set<char>): (n: nat)
    ensures n <= |s| && (n < |s| ==> s[n] !in accept) && forall i :: 0 <= i < n ==> s[i] in accept
  {
    if s == [] || s[0] !in accept then 0 else 1 + Spn(s[1..], accept)
  }

  function Cspn(s: string, reject: set<char>): (n: nat)
    ensures n <= |s| && (n < |s| ==> s[n] in reject) && forall i :: 0 <= i < n ==> s[i] !in reject
  {
    if s == [] || s[0] in reject then 0 else 1 + Cspn(s[1..], reject)
  }

  lemma {:induction false} SpnIs(s: string, t: string, accept: set<char>)
    requires (forall i :: 0 <= i < |s| ==> s[i] in accept) && (t == [] || t[0] !in accept)
    ensures Spn(s + t, accept) == |s|
  {
    if s == [] {
      assert s + t == t;
    } else {
      assert (s + t)[1..] == s[1..] + t;
      SpnIs(s[1..], t, accept);
    }
  }

  lemma {:induction false} CspnIs(s: string, t: string, reject: set<char>)
    requires (forall i :: 0 <= i < |s| ==> s[i] !in reject) && (t == [] || t[0] in reject)
    ensures Cspn(s + t, reject) == |s|
  {
    if s == [] {
      assert s + t == t;
    } else {
      assert (s + t)[1..] == s[1..] + t;
      CspnIs(s[1..], t, reject);
    }
  }

  // ---- tokens ----

  /** strtok: the maximal runs without the separator. */
  function Tokens(s: string, sep: char): (t: seq<string>)
    decreases |s|
  {
    if s == [] then []
    else if s[0] == sep then Tokens(s[1..], sep)
    else
      var n := FindFirst(s, sep);
      [s[..n]] + Tokens(s[n..], sep)
  }

  /** s without the separator. */
  function Without(s: string, sep: char): (t: string)
  {
    if s == [] then [] else (if s[0] == sep then [] else [s[0]]) + Without(s[1..], sep)
  }

  function Concat(ts: seq<string>): (s: string)
  {
    if ts == [] then [] else ts[0] + Concat(ts[1..])
  }

  /** A string without the separator is its own only token. */
  lemma TokensOne(s: string, sep: char)
    requires s != [] && sep !in s
    ensures Tokens(s, sep) == [s]
  {
    assert s[0] != sep && s[..|s|] == s && s[|s|..] == [];
    assert Tokens([], sep) == [];
  }

  /** No token is empty or holds the separator. */
  lemma {:induction false} TokensClean(s: string, sep: char)
    ensures forall i :: 0 <= i < |Tokens(s, sep)| ==> Tokens(s, sep)[i] != [] && sep !in Tokens(s, sep)[i]
    decreases |s|
  {
    if s != [] {
      if s[0] == sep {
        TokensClean(s[1..], sep);
      } else {
        TokensClean(s[FindFirst(s, sep)..], sep);
      }
    }
  }

  lemma {:induction false} WithoutNone(s: string, t: string, sep: char)
    requires sep !in s
    ensures Without(s + t, sep) == s + Without(t, sep)
  {
    if s == [] {
      assert s + t == t;
    } else {
      assert (s + t)[1..] == s[1..] + t;
      WithoutNone(s[1..], t, sep);
    }
  }

  /** The tokens are everything but the separators, in order. */
  lemma {:induction false} TokensJoined(s: string, sep: char)
    ensures Concat(Tokens(s, sep)) == Without(s, sep)
    decreases |s|
  {
    if s != [] {
      if s[0] == sep {
        TokensJoined(s[1..], sep);
      } else {
        var n := FindFirst(s, sep);
        TokensJoined(s[n..], sep);
        assert s == s[..n] + s[n..];
        WithoutNone(s[..n], s[n..], sep);
        assert Tokens(s, sep)[1..] == Tokens(s[n..], sep);
      }
    }
  }

  lemma {:induction false} FirstIn(s: string, t: string, c: char)
    ensures FindFirst(s + [c] + t, c) == FindFirst(s, c)
  {
    if s == [] {
      assert s + [c] + t == [c] + t;
    } else {
      assert (s + [c] + t)[1..] == s[1..] + [c] + t;
      FirstIn(s[1..], t, c);
    }
  }

  lemma TokensIs(s: string, sep: char)
    requires s != []
    ensures Tokens(s, sep) == if s[0] == sep then Tokens(s[1..], sep) else [s[..FindFirst(s, sep)]] + Tokens(s[FindFirst(s, sep)..], sep)
  {
  }

  /** A separator splits: the tokens before it and those behind it. */
  lemma {:induction false} TokensSplit(s: string, t: string, sep: char)
    ensures Tokens(s + [sep] + t, sep) == Tokens(s, sep) + Tokens(t, sep)
    decreases |s|
  {
    var all := s + [sep] + t;
    assert Tokens([], sep) == [];
    hide Tokens, FindFirst;
    TokensIs(all, sep);
    if s != [] {
      TokensIs(s, sep);
    }
    if s == [] {
      assert all[1..] == t;
    } else if s[0] == sep {
      assert all[1..] == s[1..] + [sep] + t;
      TokensSplit(s[1..], t, sep);
    } else {
      var n := FindFirst(s, sep);
      FirstIn(s, t, sep);
      assert all[..n] == s[..n] && all[n..] == s[n..] + [sep] + t;
      TokensSplit(s[n..], t, sep);
    }
  }

  /** The rest of s behind its leading spaces. */
  function SkipSpaces(s: string): (t: string)
  {
    if s != [] && s[0] == ' ' then SkipSpaces(s[1..]) else s
  }

  /** A field that is its own first token has no other. */
  lemma OnlyToken(s: string, sep: char)
    requires Tokens(s, sep) != [] && Tokens(s, sep)[0] == s
    ensures Tokens(s, sep) == [s]
  {
    if s[0] == sep {
      TokensShort(s[1..], sep);
    } else {
      assert s[FindFirst(s, sep)..] == [];
    }
  }

  lemma {:induction false} TokensShort(s: string, sep: char)
    ensures forall i :: 0 <= i < |Tokens(s, sep)| ==> |Tokens(s, sep)[i]| <= |s|
    decreases |s|
  {
    if s != [] {
      if s[0] == sep {
        TokensShort(s[1..], sep);
      } else {
        TokensShort(s[FindFirst(s, sep)..], sep);
      }
    }
  }

  lemma {:induction false} SkipsSpaces(s: string)
    ensures var t := SkipSpaces(s);
            |t| <= |s| && t == s[|s| - |t|..] && (t != [] ==> t[0] != ' ') && forall i :: 0 <= i < |s| - |t| ==> s[i] == ' '
  {
    if s != [] && s[0] == ' ' {
      SkipsSpaces(s[1..]);
      var t := SkipSpaces(s[1..]);
      hide SkipSpaces;
      assert s[|s| - |t|..] == s[1..][|s| - 1 - |t|..];
      forall i | 0 <= i < |s| - |t| ensures s[i] == ' ' {
        assert i > 0 ==> s[i] == s[1..][i - 1];
      }
    }
  }

  lemma FirstPlain(s: string)
    ensures s != [] && s[0] != ' ' ==> SkipSpaces(s) == s
  {
  }

  lemma OneSpace(s: string)
    requires s != [] && s[0] != ' '
    ensures SkipSpaces(" " + s) == s
  {
    var t := " " + s;
    assert t[0] == ' ' && t[1..] == s;
    FirstPlain(s);
  }
}
