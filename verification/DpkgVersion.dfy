/** The order of Debian versions: order, version_compare_part, version_compare and test_version. */
module DpkgVersion {
  import opened Strings

  predicate IsDigit(c: char) { '0' <= c <= '9' }

  predicate IsAlpha(c: char) { 'a' <= c <= 'z' || 'A' <= c <= 'Z' }

  /** The weight of a character; the end of the string weighs nothing. */
  function Order(c: char): (w: int)
  {
    if c == '~' then -1 else if IsDigit(c) then 0 else if IsAlpha(c) then c as int else c as int + 256
  }

  lemma OrderNonZero(c: char)
    requires !IsDigit(c)
    ensures Order(c) != 0
  {
  }

  // ---- the key of a version (section 5.6.12 of the Debian Policy Manual) ----

  /** How many digits a string starts with. */
  function Digits(s: string): (n: nat)
    ensures n <= |s|
  {
    if s == [] || !IsDigit(s[0]) then 0 else 1 + Digits(s[1..])
  }

  /** The number in the digits. */
  function Value(s: string): (v: nat)
  {
    if s == [] || !IsDigit(s[|s| - 1]) then 0 else 10 * Value(s[..|s| - 1]) + (s[|s| - 1] as int - '0' as int)
  }

  /** The weights of the characters outside numbers, and for every number a zero and its value. The key
      is read as if it went on with zeros for ever. */
  function Key(s: string): (k: seq<int>)
  {
    if s == [] then []
    else if IsDigit(s[0]) then [0, Value(s[..Digits(s)])] + Key(s[Digits(s)..])
    else [Order(s[0])] + Key(s[1..])
  }

  function KeyAt(k: seq<int>, i: nat): (x: int)
  {
    if i < |k| then k[i] else 0
  }

  /** The sign of the first difference of two keys padded with zeros. */
  function Lex(a: seq<int>, b: seq<int>): (r: int)
    ensures -1 <= r <= 1
    decreases |a| + |b|
  {
    if a == [] && b == [] then 0
    else if KeyAt(a, 0) != KeyAt(b, 0) then (if KeyAt(a, 0) < KeyAt(b, 0) then -1 else 1)
    else Lex(Rest(a), Rest(b))
  }

  function Rest(k: seq<int>): (r: seq<int>)
    ensures |r| == if k == [] then 0 else |k| - 1
  {
    if k == [] then [] else k[1..]
  }

  lemma {:induction false} LexAntisymmetric(a: seq<int>, b: seq<int>)
    ensures Lex(a, b) == -Lex(b, a)
    decreases |a| + |b|
  {
    if a != [] || b != [] {
      LexAntisymmetric(Rest(a), Rest(b));
    }
  }

  lemma {:induction false} LexTransitive(a: seq<int>, b: seq<int>, c: seq<int>)
    requires Lex(a, b) <= 0 && Lex(b, c) <= 0
    ensures Lex(a, c) <= 0 && (Lex(a, b) < 0 || Lex(b, c) < 0 ==> Lex(a, c) < 0)
    decreases |a| + |b| + |c|
  {
    if (a != [] || b != [] || c != []) && KeyAt(a, 0) == KeyAt(b, 0) == KeyAt(c, 0) {
      LexTransitive(Rest(a), Rest(b), Rest(c));
      LexPadded(a, b);
      LexPadded(b, c);
      LexPadded(a, c);
    }
  }

  lemma LexPadded(a: seq<int>, b: seq<int>)
    ensures KeyAt(a, 0) == KeyAt(b, 0) ==> Lex(a, b) == Lex(Rest(a), Rest(b))
  {
  }

  /** Keys equal under the order are the same but for zeros at the end. */
  lemma {:induction false} LexEqual(a: seq<int>, b: seq<int>)
    ensures Lex(a, b) == 0 <==> forall i: nat :: KeyAt(a, i) == KeyAt(b, i)
    decreases |a| + |b|
  {
    if a != [] || b != [] {
      LexEqual(Rest(a), Rest(b));
      assert forall i: nat :: KeyAt(Rest(a), i) == KeyAt(a, i + 1) && KeyAt(Rest(b), i) == KeyAt(b, i + 1);
      if Lex(a, b) == 0 {
        forall i: nat ensures KeyAt(a, i) == KeyAt(b, i) {
          if i > 0 {
            assert KeyAt(Rest(a), i - 1) == KeyAt(Rest(b), i - 1);
          }
        }
      }
    }
  }

  /** Equal keys are interchangeable. */
  lemma LexCongruent(a: seq<int>, b: seq<int>, c: seq<int>)
    requires Lex(a, b) == 0
    ensures Lex(a, c) == Lex(b, c) && Lex(c, a) == Lex(c, b)
  {
    LexAntisymmetric(a, b);
    LexAntisymmetric(a, c);
    LexAntisymmetric(b, c);
    if Lex(a, c) <= 0 {
      LexTransitive(b, a, c);
    }
    if Lex(b, c) <= 0 {
      LexTransitive(a, b, c);
    }
    if Lex(c, a) <= 0 {
      LexTransitive(c, a, b);
    }
    if Lex(c, b) <= 0 {
      LexTransitive(c, b, a);
    }
  }

  // ---- numbers ----

  function Pow10(n: nat): (p: nat)
    ensures p >= 1
  {
    if n == 0 then 1 else 10 * Pow10(n - 1)
  }

  predicate AllDigits(s: string)
  {
    forall i :: 0 <= i < |s| ==> IsDigit(s[i])
  }

  lemma {:induction false} ValueSmall(s: string)
    ensures Value(s) < Pow10(|s|)
  {
    if s != [] && IsDigit(s[|s| - 1]) {
      ValueSmall(s[..|s| - 1]);
    }
  }

  lemma {:induction false} ValueBig(s: string)
    requires s != [] && AllDigits(s) && s[0] != '0'
    ensures Value(s) >= Pow10(|s| - 1)
  {
    if |s| > 1 {
      ValueBig(s[..|s| - 1]);
    } else {
      assert Value(s[..0]) == 0;
    }
  }

  /** A number with more digits is larger, once zeros in front are gone. */
  lemma LongerIsLarger(u: string, v: string)
    requires AllDigits(u) && |u| > |v| && u[0] != '0'
    ensures Value(u) > Value(v)
  {
    ValueBig(u);
    ValueSmall(v);
    Pow10Grows(|v|, |u| - 1);
  }

  lemma {:induction false} Pow10Grows(m: nat, n: nat)
    requires m <= n
    ensures Pow10(m) <= Pow10(n)
  {
    if m < n {
      Pow10Grows(m, n - 1);
    }
  }

  /** Zeros in front do not count. */
  lemma {:induction false} LeadingZero(s: string)
    requires s != [] && AllDigits(s) && s[0] == '0'
    ensures Value(s) == Value(s[1..])
  {
    if |s| > 1 {
      var t := s[1..];
      assert s[..|s| - 1][1..] == t[..|t| - 1] && t[|t| - 1] == s[|s| - 1];
      LeadingZero(s[..|s| - 1]);
    } else {
      assert Value(s[..0]) == 0;
    }
  }

  /** The number a string starts with. */
  function Number(s: string): (v: nat)
  {
    Value(s[..Digits(s)])
  }

  lemma {:induction false} DigitsAre(s: string)
    ensures AllDigits(s[..Digits(s)]) && (Digits(s) < |s| ==> !IsDigit(s[Digits(s)]))
  {
    if s != [] && IsDigit(s[0]) {
      DigitsAre(s[1..]);
      assert s[..Digits(s)] == [s[0]] + s[1..][..Digits(s[1..])];
    }
  }

  lemma {:induction false} DigitsUnique(s: string, n: nat)
    requires n <= |s| && AllDigits(s[..n]) && (n < |s| ==> !IsDigit(s[n]))
    ensures Digits(s) == n
  {
    if n > 0 {
      assert IsDigit(s[..n][0]);
      assert s[1..][..n - 1] == s[..n][1..];
      DigitsUnique(s[1..], n - 1);
    }
  }

  /** Where a number or nothing stands, the key goes on with a zero and the number. */
  lemma KeyAtNumber(s: string)
    requires s != [] ==> IsDigit(s[0])
    ensures KeyAt(Key(s), 0) == 0 && KeyAt(Key(s), 1) == Number(s) && Rest(Rest(Key(s))) == Key(s[Digits(s)..])
  {
    if s != [] {
      var k, t := Key(s), Key(s[Digits(s)..]);
      assert k == [0, Number(s)] + t;
      assert k[1..][1..] == t;
    } else {
      assert s[..0] == [] && s[0..] == [];
    }
  }

  function Sign(x: int): (r: int)
  {
    if x < 0 then -1 else if x > 0 then 1 else 0
  }

  /** Two keys at a number: the numbers decide, or what follows them does. */
  lemma LexAtNumber(s: string, t: string)
    requires (s != [] ==> IsDigit(s[0])) && (t != [] ==> IsDigit(t[0]))
    ensures Lex(Key(s), Key(t)) == if Number(s) != Number(t) then Sign(Number(s) - Number(t))
                                   else Lex(Key(s[Digits(s)..]), Key(t[Digits(t)..]))
  {
    hide Key, Digits, Value;
    KeyAtNumber(s);
    KeyAtNumber(t);
    var a, b := Key(s), Key(t);
    LexPadded(a, b);
    assert KeyAt(Rest(a), 0) == KeyAt(a, 1) && KeyAt(Rest(b), 0) == KeyAt(b, 1);
    LexPadded(Rest(a), Rest(b));
  }

  // ---- the comparison ----

  /** Skips zeros; the number that is left is the same. */
  method SkipZeros(s: string, i0: nat) returns (i: nat)
    requires i0 <= |s|
    ensures i0 <= i <= |s| && Number(s[i..]) == Number(s[i0..]) && i + Digits(s[i..]) == i0 + Digits(s[i0..])
    ensures i < |s| ==> s[i] != '0'
  {
    i := i0;
    while i < |s| && s[i] == '0'
      invariant i0 <= i <= |s| && Number(s[i..]) == Number(s[i0..]) && i + Digits(s[i..]) == i0 + Digits(s[i0..])
    {
      var t := s[i..];
      assert t[1..] == s[i + 1..];
      DigitsAre(t);
      assert t[..Digits(t)][1..] == t[1..][..Digits(t[1..])];
      LeadingZero(t[..Digits(t)]);
      i := i + 1;
    }
  }

  predicate DigitAt(s: string, i: nat)
  {
    i < |s| && IsDigit(s[i])
  }

  /** The digits in step: how many there are in both, and which way the first difference goes. */
  method Alongside(a: string, i0: nat, b: string, j0: nat) returns (n: nat, firstDiff: int)
    requires i0 <= |a| && j0 <= |b|
    ensures i0 + n <= |a| && j0 + n <= |b| && AllDigits(a[i0..i0 + n]) && AllDigits(b[j0..j0 + n])
    ensures !DigitAt(a, i0 + n) || !DigitAt(b, j0 + n)
    ensures Sign(firstDiff) == Sign(Value(a[i0..i0 + n]) - Value(b[j0..j0 + n]))
  {
    hide Value;
    n, firstDiff := 0, 0;
    assert a[i0..i0 + n] == [] && b[j0..j0 + n] == [];
    while DigitAt(a, i0 + n) && DigitAt(b, j0 + n)
      invariant i0 + n <= |a| && j0 + n <= |b| && AllDigits(a[i0..i0 + n]) && AllDigits(b[j0..j0 + n])
      invariant Sign(firstDiff) == Sign(Value(a[i0..i0 + n]) - Value(b[j0..j0 + n]))
      decreases |a| - n
    {
      var x, y := a[i0 + n], b[j0 + n];
      SliceNext(a, i0, n);
      SliceNext(b, j0, n);
      SignKept(a[i0..i0 + n], b[j0..j0 + n], x, y);
      if firstDiff == 0 {
        firstDiff := x as int - y as int;
      }
      n := n + 1;
    }
  }

  lemma SliceNext(s: string, i: nat, n: nat)
    requires i + n < |s|
    ensures s[i..i + (n + 1)] == s[i..i + n] + [s[i + n]]
  {
  }

  /** A difference stays, whatever digits follow; without one, the next digits decide. */
  lemma SignKept(u: string, v: string, x: char, y: char)
    requires IsDigit(x) && IsDigit(y)
    ensures Sign(Value(u + [x]) - Value(v + [y])) == if Value(u) != Value(v) then Sign(Value(u) - Value(v)) else Sign(x as int - y as int)
  {
    hide Value;
    ValueNext(u, x);
    ValueNext(v, y);
    SignTen(Value(u), Value(v), x as int - '0' as int, y as int - '0' as int);
  }

  lemma SignTen(a: nat, b: nat, p: nat, q: nat)
    requires p <= 9 && q <= 9
    ensures Sign(10 * a + p - (10 * b + q)) == if a != b then Sign(a - b) else Sign(p - q)
  {
  }

  lemma ValueNext(s: string, c: char)
    requires IsDigit(c)
    ensures Value(s + [c]) == 10 * Value(s) + (c as int - '0' as int)
  {
    assert (s + [c])[..|s|] == s;
  }

  /** The number part of version_compare_part: the sign of the difference, or 0 and the places behind both. */
  method CompareNumbers(a: string, i0: nat, b: string, j0: nat) returns (r: int, i: nat, j: nat)
    requires i0 <= |a| && j0 <= |b|
    ensures Sign(r) == Sign(Number(a[i0..]) - Number(b[j0..]))
    ensures r == 0 ==> i == i0 + Digits(a[i0..]) && j == j0 + Digits(b[j0..])
  {
    hide Value;
    i := SkipZeros(a, i0);
    j := SkipZeros(b, j0);
    var n, firstDiff := Alongside(a, i, b, j);
    AllThere(a, i, n);
    AllThere(b, j, n);
    if DigitAt(a, i + n) {
      LongerIsLarger(a[i..][..Digits(a[i..])], b[j..][..Digits(b[j..])]);
      return 1, i, j;
    }
    if DigitAt(b, j + n) {
      LongerIsLarger(b[j..][..Digits(b[j..])], a[i..][..Digits(a[i..])]);
      return -1, i, j;
    }
    r, i, j := firstDiff, i + n, j + n;
  }

  /** How the digits passed over relate to all the digits there are. */
  lemma AllThere(s: string, i: nat, n: nat)
    requires i + n <= |s| && AllDigits(s[i..i + n])
    ensures AllDigits(s[i..][..Digits(s[i..])])
    ensures if DigitAt(s, i + n) then Digits(s[i..]) > n && s[i..][0] == s[i]
            else Digits(s[i..]) == n && s[i..][..Digits(s[i..])] == s[i..i + n]
  {
    var t := s[i..];
    assert t[..n] == s[i..i + n];
    DigitsAre(t);
    if DigitAt(s, i + n) {
      assert t[n] == s[i + n];
      assert forall k :: 0 <= k < n ==> IsDigit(t[..n][k]) && t[k] == t[..n][k];
    } else {
      DigitsUnique(t, n);
    }
  }

  /** *s, with 0 at the end. */
  function WeightAt(s: string, i: nat): (w: int)
  {
    if i < |s| then Order(s[i]) else 0
  }

  predicate OtherAt(s: string, i: nat)
  {
    i < |s| && !IsDigit(s[i])
  }

  lemma WeightIsKey(s: string, i: nat)
    requires i <= |s|
    ensures WeightAt(s, i) == KeyAt(Key(s[i..]), 0)
    ensures OtherAt(s, i) ==> Rest(Key(s[i..])) == Key(s[i + 1..])
    ensures WeightAt(s, i) != 0 <==> OtherAt(s, i)
  {
    if i < |s| {
      assert s[i..][1..] == s[i + 1..];
      if OtherAt(s, i) {
        OrderNonZero(s[i]);
        assert Key(s[i..]) == [Order(s[i])] + Key(s[i + 1..]);
      }
    }
  }

  /** version_compare_part: its sign is the order of the keys. */
  method ComparePart(val: string, ref: string) returns (r: int)
    ensures Sign(r) == Lex(Key(val), Key(ref))
  {
    hide Key, Digits, Value, Lex, Order;
    var i, j := 0, 0;
    assert val[0..] == val && ref[0..] == ref;
    while i < |val| || j < |ref|
      invariant 0 <= i <= |val| && 0 <= j <= |ref|
      invariant Lex(Key(val), Key(ref)) == Lex(Key(val[i..]), Key(ref[j..]))
      decreases |val| - i + (|ref| - j)
    {
      ghost var before := |val| - i + (|ref| - j);
      while OtherAt(val, i) || OtherAt(ref, j)
        invariant 0 <= i <= |val| && 0 <= j <= |ref| && |val| - i + (|ref| - j) <= before
        invariant Lex(Key(val), Key(ref)) == Lex(Key(val[i..]), Key(ref[j..]))
        decreases |val| - i
      {
        var vc, rc := WeightAt(val, i), WeightAt(ref, j);
        WeightIsKey(val, i);
        WeightIsKey(ref, j);
        LexFirst(Key(val[i..]), Key(ref[j..]));
        if vc != rc {
          return vc - rc;
        }
        i, j := i + 1, j + 1;
      }
      LexAtNumber(val[i..], ref[j..]);
      var i', j';
      r, i', j' := CompareNumbers(val, i, ref, j);
      if r != 0 {
        return;
      }
      assert val[i..][Digits(val[i..])..] == val[i'..] && ref[j..][Digits(ref[j..])..] == ref[j'..];
      Moves(val, i, ref, j);
      i, j := i', j';
    }
    assert val[i..] == [] && ref[j..] == [];
    BothEmpty();
    return 0;
  }

  lemma LexFirst(a: seq<int>, b: seq<int>)
    ensures KeyAt(a, 0) != KeyAt(b, 0) ==> Lex(a, b) == Sign(KeyAt(a, 0) - KeyAt(b, 0))
    ensures KeyAt(a, 0) == KeyAt(b, 0) ==> Lex(a, b) == Lex(Rest(a), Rest(b))
  {
  }

  /** Unless both are at their ends, a number is passed. */
  lemma Moves(a: string, i: nat, b: string, j: nat)
    requires i <= |a| && j <= |b| && !OtherAt(a, i) && !OtherAt(b, j)
    ensures i < |a| || j < |b| ==> Digits(a[i..]) + Digits(b[j..]) > 0
  {
  }

  lemma BothEmpty()
    ensures Lex(Key([]), Key([])) == 0
  {
  }

  // ---- whole versions ----

  /** Epoch, upstream version and Debian revision; atoi is whatever it is. */
  datatype Version = Version(epoch: nat, upstream: string, revision: string)

  function Split(s: string, atoi: string -> nat): (v: Version)
  {
    var colon := FindFirst(s, ':');
    var epoch := if colon < |s| then atoi(s) else 0;
    var rest := if colon < |s| then s[colon + 1..] else s;
    var dash := FindLast(rest, '-');
    if dash < 0 then Version(epoch, rest, "") else Version(epoch, rest[..dash], rest[dash + 1..])
  }

  /** The order of versions: by epoch, then by the key of the upstream version, then by that of the revision. */
  function Cmp(a: Version, b: Version): (r: int)
    ensures -1 <= r <= 1
  {
    if a.epoch != b.epoch then Sign(a.epoch - b.epoch)
    else
      var u := Lex(Key(a.upstream), Key(b.upstream));
      if u != 0 then u else Lex(Key(a.revision), Key(b.revision))
  }

  /** version_compare */
  method VersionCompare(v1: string, v2: string, atoi: string -> nat) returns (r: int)
    ensures Sign(r) == Cmp(Split(v1, atoi), Split(v2, atoi))
  {
    hide Key, Lex, FindFirst, FindLast;
    var a, b := Split(v1, atoi), Split(v2, atoi);
    if a.epoch < b.epoch {
      return -1;
    }
    if a.epoch > b.epoch {
      return 1;
    }
    r := ComparePart(a.upstream, b.upstream);
    if r == 0 {
      r := ComparePart(a.revision, b.revision);
    }
  }

  /** Versions form a total preorder. */
  lemma CmpTotalPreorder(a: Version, b: Version, c: Version)
    ensures Cmp(a, a) == 0 && Cmp(a, b) == -Cmp(b, a)
    ensures Cmp(a, b) <= 0 && Cmp(b, c) <= 0 ==> Cmp(a, c) <= 0
    ensures Cmp(a, b) <= 0 && Cmp(b, c) <= 0 && (Cmp(a, b) < 0 || Cmp(b, c) < 0) ==> Cmp(a, c) < 0
  {
    hide Key, Lex;
    var x, y, z := Key(a.upstream), Key(b.upstream), Key(c.upstream);
    var p, q, r := Key(a.revision), Key(b.revision), Key(c.revision);
    LexAntisymmetric(x, x);
    LexAntisymmetric(p, p);
    LexAntisymmetric(x, y);
    LexAntisymmetric(p, q);
    if Lex(x, y) <= 0 && Lex(y, z) <= 0 {
      LexTransitive(x, y, z);
      if Lex(x, z) == 0 && Lex(p, q) <= 0 && Lex(q, r) <= 0 {
        LexTransitive(p, q, r);
      }
    }
  }

  datatype Operator = Any | Equal | Less | LessEqual | More | MoreEqual | NoOperator

  function Test(r: int, op: Operator): (ok: bool)
  {
    match op
    case Any => true
    case Equal => r == 0
    case Less => r < 0
    case LessEqual => r <= 0
    case More => r > 0
    case MoreEqual => r >= 0
    case NoOperator => false
  }

  /** test_version */
  method TestVersion(v1: string, v2: string, op: Operator, atoi: string -> nat) returns (ok: bool)
    ensures ok == Test(Cmp(Split(v1, atoi), Split(v2, atoi)), op)
  {
    hide Cmp, Split;
    var r := VersionCompare(v1, v2, atoi);
    ok := Test(r, op);
  }

  /** Versions that compare equal pass the same tests, on either side. */
  lemma EqualInterchangeable(a: Version, b: Version, c: Version, op: Operator)
    requires Cmp(a, b) == 0
    ensures Test(Cmp(a, c), op) == Test(Cmp(b, c), op) && Test(Cmp(c, a), op) == Test(Cmp(c, b), op)
  {
    hide Key, Lex;
    LexCongruent(Key(a.upstream), Key(b.upstream), Key(c.upstream));
    LexCongruent(Key(a.revision), Key(b.revision), Key(c.revision));
  }
}
