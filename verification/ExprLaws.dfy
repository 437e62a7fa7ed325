/** What the operators and keywords of expr compute, and which of two operators goes first. */
module ExprLaws {
  import opened Options
  import opened Expr

  // ---- arithmetic ----

  predicate Fits(i: int)
  {
    MIN <= i <= MAX
  }

  /** Sums: adding 0 changes nothing, and adding one more gives one more. */
  lemma SumGrows(lib: Library, x: int, y: int)
    requires Fits(x)
    ensures Arithmetic(lib, "+", Int(x), Int(0)) == Ok(Int(x))
    ensures Arithmetic(lib, "+", Int(x), Int(y)).Ok? ==>
              var s := Arithmetic(lib, "+", Int(x), Int(y)).v;
              s.Int? && Arithmetic(lib, "+", Int(x), Int(y + 1)) == if s.i < MAX then Ok(Int(s.i + 1)) else Fail(OutOfRange)
  {
  }

  /** A difference plus its right side is the left side. */
  lemma DifferenceUndone(lib: Library, x: int, y: int)
    requires Fits(x) && Arithmetic(lib, "-", Int(x), Int(y)).Ok?
    ensures Arithmetic(lib, "+", Arithmetic(lib, "-", Int(x), Int(y)).v, Int(y)) == Ok(Int(x))
  {
  }

  /** Products: nothing times 0, and one more time adds the left side once more. */
  lemma ProductGrows(lib: Library, x: int, y: int)
    requires Fits(x)
    ensures Arithmetic(lib, "*", Int(x), Int(0)) == Ok(Int(0))
    ensures Arithmetic(lib, "*", Int(x), Int(y)).Ok? ==>
              Arithmetic(lib, "*", Int(x), Int(y + 1)) == Arithmetic(lib, "+", Arithmetic(lib, "*", Int(x), Int(y)).v, Int(x))
  {
    assert x * (y + 1) == x * y + x;
  }

  /** Division goes towards zero: quotient and remainder make up the left side, and the remainder is smaller than
      the right side and has the sign of the left one. */
  lemma DivisionOf(lib: Library, x: int, y: int)
    requires Fits(x) && Fits(y) && y != 0 && !(x == MIN && y == -1)
    ensures var q, r := Arithmetic(lib, "/", Int(x), Int(y)), Arithmetic(lib, "%", Int(x), Int(y));
            && q.Ok? && r.Ok? && q.v.Int? && r.v.Int?
            && x == y * q.v.i + r.v.i && -Abs(y) < r.v.i < Abs(y) && (r.v.i == 0 || (r.v.i > 0 <==> x > 0))
  {
    var q := Quotient(x, y);
    QuotientParts(x, y);
    QuotientFits(x, y);
    RemainderFits(x, y, q);
  }

  function Abs(i: int): (a: int)
    ensures a >= 0
  {
    if i < 0 then -i else i
  }

  lemma Negated(y: int, d: int)
    ensures y * -d == -(y * d) && -y * -d == y * d
  {
  }

  lemma DivMod(a: int, y: int)
    requires y != 0
    ensures a == y * (a / y) + a % y && 0 <= a % y < Abs(y)
  {
  }

  lemma QuotientParts(x: int, y: int)
    requires y != 0
    ensures var r := x - y * Quotient(x, y); -Abs(y) < r < Abs(y) && (r == 0 || (r > 0 <==> x > 0))
  {
    hide Quotient, Abs;
    var a := if x >= 0 then x else -x;
    DivMod(a, y);
    QuotientIs(x, y, a);
    RemainderSign(x, y * Quotient(x, y), a, y * (a / y), a % y, Abs(y));
  }

  lemma QuotientIs(x: int, y: int, a: int)
    requires y != 0 && a == if x >= 0 then x else -x
    ensures y * Quotient(x, y) == if x >= 0 then y * (a / y) else -(y * (a / y))
  {
    Negated(y, a / y);
  }

  lemma RemainderSign(x: int, p: int, a: int, q: int, m: int, z: int)
    requires a == (if x >= 0 then x else -x) && a == q + m && (a == 0 ==> q == 0) && 0 <= m < z && p == if x >= 0 then q else -q
    ensures -z < x - p < z && (x == p || (x - p > 0 <==> x > 0))
  {
  }

  lemma QuotientFits(x: int, y: int)
    requires Fits(x) && y != 0 && !(x == MIN && y == -1)
    ensures Fits(Quotient(x, y))
  {
    var a := if x >= 0 then x else -x;
    var d := a / y;
    DivMod(a, y);
    if y > 0 {
      QuotientBounds(a, y, d, a % y);
    } else {
      Negated(y, d);
      QuotientBounds(a, -y, -d, a % y);
    }
  }

  lemma QuotientBounds(a: int, z: int, e: int, m: int)
    requires a >= 0 && z >= 1 && a == z * e + m && 0 <= m < z
    ensures 0 <= e <= a && (z >= 2 && a > 0 ==> e < a)
  {
    if e < 0 {
      TimesAtLeast(-e, z);
      Negated(z, e);
    } else {
      TimesAtLeast(z, e);
    }
  }

  lemma TimesAtLeast(z: int, e: int)
    requires z >= 1 && e >= 0
    ensures z * e >= e && e * z >= e && (z >= 2 && e > 0 ==> z * e > e)
  {
  }

  lemma RemainderFits(x: int, y: int, q: int)
    requires Fits(x) && Fits(y) && y != 0 && q == Quotient(x, y)
    ensures Fits(x - y * q)
  {
    QuotientParts(x, y);
  }

  /** When arithmetic fails: a side that is no number, a zero to the right of a division, or too large a result. */
  lemma ArithmeticFails(lib: Library, op: string, l: Value, r: Value)
    requires op in ["+", "-", "*", "/", "%"]
    ensures Arithmetic(lib, op, l, r) == Fail(NonNumeric) <==> ToArith(lib, l).Str? || ToArith(lib, r).Str?
    ensures ToArith(lib, l).Int? && ToArith(lib, r).Int? ==>
              Arithmetic(lib, op, l, r) == Arithmetic(lib, op, ToArith(lib, l), ToArith(lib, r))
    ensures Arithmetic(lib, op, l, r) == Fail(ZeroDivide) <==>
              op in ["/", "%"] && ToArith(lib, l).Int? && ToArith(lib, r) == Int(0)
  {
  }

  // ---- comparison ----

  /** Whether a comparison gives 1. */
  predicate Holds(lib: Library, op: string, l: Value, r: Value)
  {
    Compare(lib, op, l, r) == Ok(Int(1))
  }

  /** The order of the sides: of numbers if both are, else of strings, a number in its decimal form. */
  function Order(lib: Library, l: Value, r: Value): (d: int)
  {
    var x, y := ToArith(lib, l), ToArith(lib, r);
    if x.Int? && y.Int? then x.i - y.i else lib.compare(ToString(lib, x), ToString(lib, y))
  }

  /** Every comparison gives 0 or 1, and which one the order tells. */
  lemma ComparesAs(lib: Library, l: Value, r: Value)
    ensures forall op :: op in Ops(2) ==> Holds(lib, op, l, r) || Compare(lib, op, l, r) == Ok(Int(0))
    ensures Holds(lib, "<", l, r) <==> Order(lib, l, r) < 0
    ensures Holds(lib, "=", l, r) <==> Order(lib, l, r) == 0
    ensures Holds(lib, ">", l, r) <==> Order(lib, l, r) > 0
    ensures Holds(lib, "<=", l, r) <==> !Holds(lib, ">", l, r)
    ensures Holds(lib, ">=", l, r) <==> !Holds(lib, "<", l, r)
    ensures Holds(lib, "!=", l, r) <==> !Holds(lib, "=", l, r)
    ensures Holds(lib, "==", l, r) <==> Holds(lib, "=", l, r)
  {
  }

  // ---- | and & ----

  /** The left side unless it is null, else the right one; the left side if neither is null, else 0. */
  lemma Choices(lib: Library, l: Value, r: Value)
    ensures Apply(lib, 0, "|", l, r) == Ok(if l == Int(0) || l == Str("") || l == Str("0") then r else l)
    ensures Apply(lib, 1, "&", l, r) == if Null(l) || Null(r) then Ok(Int(0)) else Ok(l)
    ensures Apply(lib, 0, "|", l, l) == Ok(l)
  {
  }

  // ---- index and substr ----

  lemma {:induction false} SpanIs(s: string, chars: string)
    ensures var n := Span(s, chars);
            n <= |s| && (forall i :: 0 <= i < n ==> s[i] !in chars) && (n < |s| ==> s[n] in chars)
  {
    if s != "" && s[0] !in chars {
      SpanIs(s[1..], chars);
    }
  }

  /** index gives the least place, counted from 1, where one of the characters stands, or 0 if none does. */
  lemma IndexIs(lib: Library, l: Value, r: Value)
    ensures var s, chars, k := ToString(lib, l), ToString(lib, r), Index(lib, l, r);
            && k.Int? && 0 <= k.i <= |s|
            && (k.i == 0 <==> forall i :: 0 <= i < |s| ==> s[i] !in chars)
            && (k.i > 0 ==> s[k.i - 1] in chars && forall i :: 0 <= i < k.i - 1 ==> s[i] !in chars)
  {
    SpanIs(ToString(lib, l), ToString(lib, r));
  }

  /** substr gives the characters from the place on, as many as asked for or as there are; nothing if the place or
      the number is none. */
  lemma SubstrIs(lib: Library, l: Value, i1: Value, i2: Value)
    ensures var s, a, b, t := ToString(lib, l), ToArith(lib, i1), ToArith(lib, i2), Substr(lib, l, i1, i2);
            && t.Str?
            && if a.Int? && b.Int? && 1 <= a.i <= |s| && b.i >= 1 then
                 && |t.s| == (if b.i < |s| - a.i + 1 then b.i else |s| - a.i + 1)
                 && forall i :: 0 <= i < |t.s| ==> t.s[i] == s[a.i - 1 + i]
               else t.s == ""
  {
  }

  // ---- precedence ----

  /** How tightly an operator binds. */
  function Binding(op: string): (n: nat)
  {
    if op == "|" then 0
    else if op == "&" then 1
    else if op == "+" || op == "-" then 3
    else if op == "*" || op == "/" || op == "%" then 4
    else if op == ":" then 5
    else 2
  }

  const OPERATORS := ["|", "&", "<", "<=", "=", "==", "!=", ">=", ">", "+", "-", "*", "/", "%", ":"]

  lemma BindingIs(op: string)
    requires op in OPERATORS
    ensures Binding(op) < 6 && op in Ops(Binding(op))
  {
  }

  /** An operator on two values, and on what may have failed. */
  function Use(lib: Library, l: Outcome, op: string, r: Outcome): (o: Outcome)
  {
    match l
    case Fail(e) => Fail(e)
    case Ok(x) =>
      match r
      case Fail(e) => Fail(e)
      case Ok(y) => Apply(lib, Binding(op), op, x, y)
  }

  function Word(s: string): (o: Outcome)
  {
    Ok(Str(s))
  }

  lemma ProperTwo(op1: string, op2: string, a: string, b: string, c: string, m: nat, n: nat)
    requires op1 in Ops(m) && op2 in Ops(n) && m < 6 && n < 6 && a !in SPECIAL && b !in SPECIAL && c !in SPECIAL
    ensures Proper(Bin(n, op2, Bin(m, op1, Leaf(a, false), Leaf(b, false)), Leaf(c, false)))
    ensures Proper(Bin(m, op1, Leaf(a, false), Bin(n, op2, Leaf(b, false), Leaf(c, false))))
  {
    hide Ops;
    var x, y, z := Leaf(a, false), Leaf(b, false), Leaf(c, false);
    assert Proper(x) && Proper(y) && Proper(z);
    assert Proper(Bin(m, op1, x, y)) && Proper(Bin(n, op2, y, z));
  }

  /** The trees for two operators in a row, written out. */
  lemma LeftFirst(op1: string, op2: string, a: string, b: string, c: string, m: nat, n: nat) returns (t: Tree)
    requires n <= m < 6 && op1 in Ops(m) && op2 in Ops(n) && a !in SPECIAL && b !in SPECIAL && c !in SPECIAL
    ensures t == Bin(n, op2, Bin(m, op1, Leaf(a, false), Leaf(b, false)), Leaf(c, false))
    ensures Proper(t) && Print(t, 0) == [a, op1, b, op2, c]
  {
    hide Ops;
    t := Bin(n, op2, Bin(m, op1, Leaf(a, false), Leaf(b, false)), Leaf(c, false));
    ProperTwo(op1, op2, a, b, c, m, n);
    PrintTwo(op1, Leaf(a, false), Leaf(b, false), m, n);
    assert Print(t.r, n + 1) == [c];
    assert Print(t, 0) == Print(t.l, n) + ([op2] + Print(t.r, n + 1));
  }

  lemma RightFirst(op1: string, op2: string, a: string, b: string, c: string, m: nat, n: nat) returns (t: Tree)
    requires m < n < 6 && op1 in Ops(m) && op2 in Ops(n) && a !in SPECIAL && b !in SPECIAL && c !in SPECIAL
    ensures t == Bin(m, op1, Leaf(a, false), Bin(n, op2, Leaf(b, false), Leaf(c, false)))
    ensures Proper(t) && Print(t, 0) == [a, op1, b, op2, c]
  {
    hide Ops;
    t := Bin(m, op1, Leaf(a, false), Bin(n, op2, Leaf(b, false), Leaf(c, false)));
    ProperTwo(op1, op2, a, b, c, m, n);
    PrintTwo(op2, Leaf(b, false), Leaf(c, false), n, m + 1);
    assert Print(t.l, m) == [a];
    assert Print(t, 0) == Print(t.l, m) + ([op1] + Print(t.r, m + 1));
  }

  lemma InParentheses(op1: string, op2: string, a: string, b: string, c: string, m: nat, n: nat) returns (t: Tree)
    requires n < m < 6 && op1 in Ops(m) && op2 in Ops(n) && a !in SPECIAL && b !in SPECIAL && c !in SPECIAL
    ensures t == Bin(m, op1, Bin(n, op2, Leaf(a, false), Leaf(b, false)), Leaf(c, false))
    ensures Proper(t) && Print(t, 0) == ["(", a, op2, b, ")", op1, c]
  {
    hide Ops;
    t := Bin(m, op1, Bin(n, op2, Leaf(a, false), Leaf(b, false)), Leaf(c, false));
    ProperTwo(op2, op1, a, b, c, n, m);
    PrintTwo(op2, Leaf(a, false), Leaf(b, false), n, 0);
    assert Print(t.l, m) == ["("] + Print(t.l, 0) + [")"];
    assert Print(t.r, m + 1) == [c];
    assert Print(t, 0) == Print(t.l, m) + ([op1] + Print(t.r, m + 1));
  }

  lemma TwoEval(lib: Library, op1: string, op2: string, a: string, b: string, c: string, m: nat, n: nat)
    requires op1 in Ops(m) && op2 in Ops(n) && m < 6 && n < 6 && m == Binding(op1) && n == Binding(op2)
    requires Proper(Bin(n, op2, Bin(m, op1, Leaf(a, false), Leaf(b, false)), Leaf(c, false)))
    requires Proper(Bin(m, op1, Leaf(a, false), Bin(n, op2, Leaf(b, false), Leaf(c, false))))
    ensures Eval(lib, Bin(n, op2, Bin(m, op1, Leaf(a, false), Leaf(b, false)), Leaf(c, false)))
         == Use(lib, Use(lib, Word(a), op1, Word(b)), op2, Word(c))
    ensures Eval(lib, Bin(m, op1, Leaf(a, false), Bin(n, op2, Leaf(b, false), Leaf(c, false))))
         == Use(lib, Word(a), op1, Use(lib, Word(b), op2, Word(c)))
  {
    hide Ops, Apply, Binding;
    assert Eval(lib, Leaf(a, false)) == Word(a) && Eval(lib, Leaf(b, false)) == Word(b) && Eval(lib, Leaf(c, false)) == Word(c);
    assert Eval(lib, Bin(m, op1, Leaf(a, false), Leaf(b, false))) == Use(lib, Word(a), op1, Word(b));
    assert Eval(lib, Bin(n, op2, Leaf(b, false), Leaf(c, false))) == Use(lib, Word(b), op2, Word(c));
  }

  /** Two operators in a row: the tighter one goes first, and of equally tight ones the left one. */
  lemma TwoOperators(lib: Library, a: string, op1: string, b: string, op2: string, c: string)
    requires op1 in OPERATORS && op2 in OPERATORS && a !in SPECIAL && b !in SPECIAL && c !in SPECIAL
    ensures Level(lib, 0, [a, op1, b, op2, c])
         == Expected(if Binding(op1) >= Binding(op2) then Use(lib, Use(lib, Word(a), op1, Word(b)), op2, Word(c))
                     else Use(lib, Word(a), op1, Use(lib, Word(b), op2, Word(c))), [])
  {
    var m, n := Binding(op1), Binding(op2);
    BindingIs(op1);
    BindingIs(op2);
    var t;
    if m >= n {
      t := LeftFirst(op1, op2, a, b, c, m, n);
    } else {
      t := RightFirst(op1, op2, a, b, c, m, n);
    }
    ProperTwo(op1, op2, a, b, c, m, n);
    TwoEval(lib, op1, op2, a, b, c, m, n);
    hide Ops, Apply, Binding, Eval, Print;
    assert [a, op1, b, op2, c] + [] == [a, op1, b, op2, c];
    NothingEnds();
    UpPrints(lib, t, 0, []);
  }

  lemma PrintTwo(op: string, x: Tree, y: Tree, m: nat, n: nat)
    requires n <= m < 6 && x.Leaf? && y.Leaf? && !x.quoted && !y.quoted
    ensures Print(Bin(m, op, x, y), n) == [x.s, op, y.s]
  {
    assert Print(Bin(m, op, x, y), n) == Print(x, m) + ([op] + Print(y, m + 1));
  }

  /** One operator, and one in parentheses in front of another. */
  lemma ParenthesesFirst(lib: Library, a: string, op1: string, b: string, op2: string, c: string)
    requires op1 in OPERATORS && op2 in OPERATORS && a !in SPECIAL && b !in SPECIAL && c !in SPECIAL && Binding(op2) < Binding(op1)
    ensures Level(lib, 0, ["(", a, op2, b, ")", op1, c])
         == Expected(Use(lib, Use(lib, Word(a), op2, Word(b)), op1, Word(c)), [])
  {
    var m, n := Binding(op1), Binding(op2);
    BindingIs(op1);
    BindingIs(op2);
    var t := InParentheses(op1, op2, a, b, c, m, n);
    ProperTwo(op2, op1, a, b, c, n, m);
    TwoEval(lib, op2, op1, a, b, c, n, m);
    hide Ops, Apply, Binding, Eval, Print;
    assert Print(t, 0) + [] == Print(t, 0);
    NothingEnds();
    UpPrints(lib, t, 0, []);
  }

  /** The keywords take their arguments in order, and quote takes anything. */
  lemma KeywordCalls(lib: Library, a: string, b: string, c: string, q: string)
    requires a !in SPECIAL && b !in SPECIAL && c !in SPECIAL
    ensures Keyword(lib, ["length", a]) == Got(Int(|a|), [])
    ensures Keyword(lib, ["index", a, b]) == Got(Index(lib, Str(a), Str(b)), [])
    ensures Keyword(lib, ["substr", a, b, c]) == Got(Substr(lib, Str(a), Str(b), Str(c)), [])
    ensures Keyword(lib, ["match", a, b]) == Expected(lib.colon(a, b), [])
    ensures Keyword(lib, ["quote", q]) == Got(Str(q), [])
  {
    hide Index, Substr;
    AnyWord(lib, a, []);
    AnyWord(lib, a, [b]);
    AnyWord(lib, a, [b, c]);
    AnyWord(lib, b, []);
    AnyWord(lib, b, [c]);
    AnyWord(lib, c, []);
    assert ["length", a][1..] == [a] && ["index", a, b][1..] == [a, b] && ["match", a, b][1..] == [a, b];
    assert ["substr", a, b, c][1..] == [a, b, c] && ["quote", q][2..] == [];
  }

  lemma AnyWord(lib: Library, a: string, rest: seq<string>)
    requires a !in SPECIAL
    ensures Keyword(lib, [a] + rest) == Got(Str(a), rest)
    ensures rest == [] ==> [a] + rest == [a]
    ensures |rest| == 1 ==> [a] + rest == [a, rest[0]]
    ensures |rest| == 2 ==> [a] + rest == [a, rest[0], rest[1]]
  {
    assert ([a] + rest)[1..] == rest;
  }
}
