/** What the order of versions means for versions that are written alike up to some place. */
module DpkgOrder {
  import opened Strings
  import opened DpkgVersion

  lemma {:induction false} LexPrefix(k: seq<int>, a: seq<int>, b: seq<int>)
    ensures Lex(k + a, k + b) == Lex(a, b)
  {
    if k == [] {
      assert k + a == a && k + b == b;
    } else {
      assert (k + a)[1..] == k[1..] + a && (k + b)[1..] == k[1..] + b;
      LexPrefix(k[1..], a, b);
    }
  }

  /** No number goes on from s into u. */
  predicate Apart(s: string, u: string)
  {
    s == [] || u == [] || !IsDigit(s[|s| - 1]) || !IsDigit(u[0])
  }

  lemma DigitsBefore(s: string, u: string)
    requires s != [] && IsDigit(s[0]) && Apart(s, u)
    ensures 0 < Digits(s) <= |s| && Digits(s + u) == Digits(s)
    ensures (s + u)[..Digits(s)] == s[..Digits(s)] && (s + u)[Digits(s)..] == s[Digits(s)..] + u
  {
    var n := Digits(s);
    DigitsAre(s);
    assert (s + u)[..n] == s[..n];
    if n == |s| && u != [] {
      assert IsDigit(s[..n][n - 1]);
    }
    DigitsUnique(s + u, n);
  }

  /** The key of a version in two parts. */
  lemma {:induction false} KeyAppend(s: string, u: string)
    requires Apart(s, u)
    ensures Key(s + u) == Key(s) + Key(u)
    decreases |s|
  {
    if s == [] {
      assert s + u == u;
    } else if IsDigit(s[0]) {
      DigitsBefore(s, u);
      KeyAppend(s[Digits(s)..], u);
    } else {
      assert (s + u)[1..] == s[1..] + u;
      KeyAppend(s[1..], u);
    }
  }

  /** The order of two parts of versions. */
  function Part(a: string, b: string): (r: int)
  {
    Lex(Key(a), Key(b))
  }

  lemma KeyOther(c: char, t: string)
    requires !IsDigit(c)
    ensures Key([c] + t) == [Order(c)] + Key(t)
  {
    assert ([c] + t)[1..] == t;
  }

  /** A tilde goes before everything, the end included. */
  lemma TildeFirst(s: string, t: string)
    ensures Part(s + "~" + t, s) == -1
  {
    var u := ['~'] + t;
    assert s + "~" + t == s + u && s + [] == s;
    KeyAppend(s, u);
    KeyAppend(s, []);
    KeyOther('~', t);
    LexPrefix(Key(s), [-1] + Key(t), []);
    assert Key([]) == [];
  }

  /** Any other character that is no digit comes after the end. */
  lemma EndFirst(s: string, c: char, t: string)
    requires !IsDigit(c) && c != '~'
    ensures Part(s, s + [c] + t) == -1
  {
    var u := [c] + t;
    assert s + [c] + t == s + u && s + [] == s;
    KeyAppend(s, u);
    KeyAppend(s, []);
    KeyOther(c, t);
    assert Order(c) > 0;
    hide Order;
    LexPrefix(Key(s), [], [Order(c)] + Key(t));
    assert Key([]) == [];
  }

  /** The order of characters that are no digits: a tilde, then the letters, then the others, each by their codes. */
  ghost predicate Before(c: char, d: char)
  {
    || (c == '~' && d != '~')
    || (IsAlpha(c) && d != '~' && (!IsAlpha(d) || c < d))
    || (c != '~' && !IsAlpha(c) && d != '~' && !IsAlpha(d) && c < d)
  }

  /** Versions that first differ in two such characters go by these. */
  lemma OthersInOrder(s: string, c: char, t: string, d: char, u: string)
    requires !IsDigit(c) && !IsDigit(d) && c < 128 as char && d < 128 as char
    ensures Before(c, d) ==> Part(s + [c] + t, s + [d] + u) == -1
    ensures c == d || Before(c, d) || Before(d, c)
  {
    var x, y := [c] + t, [d] + u;
    assert s + [c] + t == s + x && s + [d] + u == s + y;
    KeyAppend(s, x);
    KeyAppend(s, y);
    KeyOther(c, t);
    KeyOther(d, u);
    OrderedAs(c, d);
    hide Order, Before, Key;
    LexPrefix(Key(s), [Order(c)] + Key(t), [Order(d)] + Key(u));
  }

  lemma OrderedAs(c: char, d: char)
    requires !IsDigit(c) && !IsDigit(d) && c < 128 as char && d < 128 as char
    ensures Before(c, d) ==> Order(c) < Order(d)
    ensures c == d || Before(c, d) || Before(d, c)
  {
  }

  // ---- numbers ----

  function Digit(d: nat): (c: char)
    requires d < 10
    ensures IsDigit(c)
  {
    '0' + d as char
  }

  /** A number written out. */
  function Decimal(n: nat): (s: string)
    ensures s != []
  {
    if n < 10 then [Digit(n)] else Decimal(n / 10) + [Digit(n % 10)]
  }

  lemma {:induction false} DecimalValue(n: nat)
    ensures AllDigits(Decimal(n)) && Value(Decimal(n)) == n
  {
    var s := Decimal(n);
    if n < 10 {
      assert s[..0] == [] && Value([]) == 0;
    } else {
      DecimalValue(n / 10);
      assert s[..|s| - 1] == Decimal(n / 10);
    }
  }

  lemma KeyNumber(n: nat, t: string)
    requires t == [] || !IsDigit(t[0])
    ensures Key(Decimal(n) + t) == [0, n] + Key(t)
  {
    DecimalValue(n);
    var d := Decimal(n);
    var s := d + t;
    assert s[..|d|] == d && s[|d|..] == t && IsDigit(d[0]);
    DigitsUnique(s, |d|);
  }

  /** Versions that first differ in a number go by its value. */
  lemma NumbersInOrder(s: string, m: nat, t: string, n: nat, u: string)
    requires (s == [] || !IsDigit(s[|s| - 1])) && (t == [] || !IsDigit(t[0])) && (u == [] || !IsDigit(u[0]))
    ensures m < n ==> Part(s + Decimal(m) + t, s + Decimal(n) + u) == -1
    ensures m == n ==> Part(s + Decimal(m) + t, s + Decimal(n) + u) == Part(t, u)
  {
    hide Decimal, Key;
    assert s + Decimal(m) + t == s + (Decimal(m) + t) && s + Decimal(n) + u == s + (Decimal(n) + u);
    KeyAppend(s, Decimal(m) + t);
    KeyAppend(s, Decimal(n) + u);
    KeyNumber(m, t);
    KeyNumber(n, u);
    LexPrefix(Key(s), [0, m] + Key(t), [0, n] + Key(u));
    TwoAhead(m, Key(t), n, Key(u));
  }

  lemma TwoAhead(m: nat, a: seq<int>, n: nat, b: seq<int>)
    ensures m < n ==> Lex([0, m] + a, [0, n] + b) == -1
    ensures m == n ==> Lex([0, m] + a, [0, n] + b) == Lex(a, b)
  {
    var x, y := [0, m] + a, [0, n] + b;
    assert x[1..] == [m] + a && y[1..] == [n] + b && x[1..][1..] == a && y[1..][1..] == b;
  }

  // ---- whole versions ----

  /** A version with an epoch splits at its first colon. */
  lemma EpochSplits(e: string, r: string, atoi: string -> nat)
    requires ':' !in e
    ensures var v := e + ":" + r;
            Split(v, atoi) == Version(atoi(v), Split2(r).0, Split2(r).1)
  {
    var v := e + ":" + r;
    assert v == e + (":" + r);
    FindFirstIs(e, ":" + r, ':');
    assert v[|e| + 1..] == r;
  }

  /** Upstream version and revision. */
  function Split2(r: string): (p: (string, string))
  {
    var dash := FindLast(r, '-');
    if dash < 0 then (r, "") else (r[..dash], r[dash + 1..])
  }

  /** One without has epoch 0. */
  lemma NoEpoch(r: string, atoi: string -> nat)
    requires ':' !in r
    ensures Split(r, atoi) == Version(0, Split2(r).0, Split2(r).1)
  {
    assert FindFirst(r, ':') == |r|;
  }

  /** The revision is what stands behind the last dash. */
  lemma RevisionSplits(u: string, r: string)
    requires '-' !in r
    ensures Split2(u + "-" + r) == (u, r)
    ensures Split2(r) == (r, "")
  {
    var s := u + "-" + r;
    assert s[|u|] == '-';
    assert s[|u| + 1..] == r;
    assert forall j :: |u| < j < |s| ==> s[j] == r[j - |u| - 1];
    assert s[..|u|] == u && s[|u| + 1..] == r;
  }

  /** What an operator says of two numbers. */
  predicate Holds(op: Operator, m: nat, n: nat)
  {
    match op
    case Any => true
    case Equal => m == n
    case Less => m < n
    case LessEqual => m <= n
    case More => m > n
    case MoreEqual => m >= n
    case NoOperator => false
  }

  lemma SamePart(s: string)
    ensures Part(s, s) == 0
  {
    LexAntisymmetric(Key(s), Key(s));
  }

  /** Versions that differ in a number of their upstream version satisfy the operators that the numbers do. */
  lemma OperatorsHold(e: nat, s: string, m: nat, n: nat, t: string, r: string, op: Operator)
    requires (s == [] || !IsDigit(s[|s| - 1])) && (t == [] || !IsDigit(t[0]))
    ensures Test(Cmp(Version(e, s + Decimal(m) + t, r), Version(e, s + Decimal(n) + t, r)), op) == Holds(op, m, n)
  {
    hide Lex, Key, Decimal;
    NumbersInOrder(s, m, t, n, t);
    NumbersInOrder(s, n, t, m, t);
    SamePart(t);
    SamePart(r);
    LexAntisymmetric(Key(s + Decimal(m) + t), Key(s + Decimal(n) + t));
  }

  /** The epoch goes before everything, and the upstream version before the revision. */
  lemma PartsInOrder(a: Version, b: Version)
    ensures a.epoch < b.epoch ==> Cmp(a, b) == -1
    ensures a.epoch == b.epoch && Part(a.upstream, b.upstream) != 0 ==> Cmp(a, b) == Part(a.upstream, b.upstream)
    ensures a.epoch == b.epoch && Part(a.upstream, b.upstream) == 0 ==> Cmp(a, b) == Part(a.revision, b.revision)
  {
  }

  /** A version in front of a release does not satisfy a dependency on that release. */
  lemma NotYetReleased(e: nat, s: string, t: string, r: string, r': string)
    ensures !Test(Cmp(Version(e, s + "~" + t, r), Version(e, s, r')), MoreEqual)
    ensures Test(Cmp(Version(e, s + "~" + t, r), Version(e, s, r')), Less)
  {
    TildeFirst(s, t);
  }
}
