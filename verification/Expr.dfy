/** expr: evaluation of an argument list without a parse tree, and its agreement with the
    evaluation of trees. */
module Expr {
  import opened Options

  datatype Value = Int(i: int) | Str(s: string)

  datatype Error = Syntax | NonNumeric | ZeroDivide | OutOfRange | BadPattern

  datatype Outcome = Ok(v: Value) | Fail(e: Error)

  /** The library: strtol over a whole string, the decimal form of a number, strcmp, and the match of a
      string with a pattern. */
  datatype Library = Library(number: string -> Option<int>, decimal: int -> string,
                             compare: (string, string) -> int, colon: (string, string) -> Outcome)

  const MIN := -0x8000_0000_0000_0000
  const MAX := 0x7fff_ffff_ffff_ffff

  // ---- values ----

  predicate Null(v: Value)
  {
    match v
    case Int(i) => i == 0
    case Str(s) => s == "" || s == "0"
  }

  function ToString(lib: Library, v: Value): (s: string)
  {
    match v
    case Int(i) => lib.decimal(i)
    case Str(s) => s
  }

  /** toarith: a string that is a number becomes one; anything else stays as it is. */
  function ToArith(lib: Library, v: Value): (r: Value)
  {
    match v
    case Int(_) => v
    case Str(s) => match lib.number(s) case Some(i) => Int(i) case None => v
  }

  /** Division of C, towards zero. */
  function Quotient(a: int, b: int): (q: int)
    requires b != 0
  {
    if a >= 0 then a / b else -(-a / b)
  }

  /** A result beyond 64 bits is undefined in C. */
  function InRange(i: int): (r: Outcome)
  {
    if MIN <= i <= MAX then Ok(Int(i)) else Fail(OutOfRange)
  }

  function Arithmetic(lib: Library, op: string, l: Value, r: Value): (o: Outcome)
  {
    var x, y := ToArith(lib, l), ToArith(lib, r);
    if x.Str? || y.Str? then Fail(NonNumeric)
    else if op == "+" then InRange(x.i + y.i)
    else if op == "-" then InRange(x.i - y.i)
    else if op == "*" then InRange(x.i * y.i)
    else if y.i == 0 then Fail(ZeroDivide)
    else
      var q := Quotient(x.i, y.i);
      if q > MAX then Fail(OutOfRange)
      else if op == "/" then InRange(q) else InRange(x.i - y.i * q)
  }

  /** Both sides are made numbers if they can be, and compared as strings unless both are. */
  function Compare(lib: Library, op: string, l: Value, r: Value): (o: Outcome)
  {
    var x, y := ToArith(lib, l), ToArith(lib, r);
    var both := x.Int? && y.Int?;
    var a := if both then x.i else lib.compare(ToString(lib, x), ToString(lib, y));
    var b := if both then y.i else 0;
    var holds := if op == "<" then a < b else if op == "<=" then a <= b else if op == "=" || op == "==" then a == b
                 else if op == "!=" then a != b else if op == ">" then a > b else a >= b;
    Ok(Int(if holds then 1 else 0))
  }

  /** The operators of a level, loosest first. */
  function Ops(n: nat): (ops: seq<string>)
  {
    if n == 0 then ["|"] else if n == 1 then ["&"]
    else if n == 2 then ["<", "<=", "=", "==", "!=", ">=", ">"]
    else if n == 3 then ["+", "-"] else if n == 4 then ["*", "/", "%"]
    else if n == 5 then [":"] else []
  }

  function Apply(lib: Library, n: nat, op: string, l: Value, r: Value): (o: Outcome)
  {
    if n == 0 then Ok(if Null(l) then r else l)
    else if n == 1 then Ok(if Null(l) || Null(r) then Int(0) else l)
    else if n == 2 then Compare(lib, op, l, r)
    else if n == 5 then lib.colon(ToString(lib, l), ToString(lib, r))
    else Arithmetic(lib, op, l, r)
  }

  /** strcspn */
  function Span(s: string, chars: string): (n: nat)
    ensures n <= |s|
  {
    if s == "" || s[0] in chars then 0 else 1 + Span(s[1..], chars)
  }

  function Index(lib: Library, l: Value, r: Value): (v: Value)
  {
    var s := ToString(lib, l);
    var n := Span(s, ToString(lib, r)) + 1;
    Int(if n == |s| + 1 then 0 else n)
  }

  /** substr; xstrndup takes the count as a size_t and stops at the end of the string. */
  function Substr(lib: Library, l: Value, i1: Value, i2: Value): (v: Value)
  {
    var s := ToString(lib, l);
    var a, b := ToArith(lib, i1), ToArith(lib, i2);
    if a.Str? || b.Str? || a.i > |s| || a.i <= 0 || b.i <= 0 then Str("")
    else Str(if b.i <= |s| - (a.i - 1) then s[a.i - 1..a.i - 1 + b.i] else s[a.i - 1..])
  }

  // ---- evaluation along the arguments ----

  /** A value and the arguments that are left. */
  datatype Parsed = Got(v: Value, rest: seq<string>) | Bad(e: Error)

  /** eval to eval5: operators of one level, to the left. */
  function Level(lib: Library, n: nat, args: seq<string>): (p: Parsed)
    requires n <= 6
    ensures p.Got? ==> |p.rest| < |args|
    decreases |args|, 1, 7 - n
  {
    if n == 6 then Keyword(lib, args)
    else
      match Level(lib, n + 1, args)
      case Bad(e) => Bad(e)
      case Got(v, rest) => Loop(lib, n, v, rest)
  }

  function Loop(lib: Library, n: nat, l: Value, args: seq<string>): (p: Parsed)
    requires n < 6
    ensures p.Got? ==> |p.rest| <= |args|
    decreases |args|, 2, 0
  {
    if args == [] || args[0] !in Ops(n) then Got(l, args)
    else
      match Level(lib, n + 1, args[1..])
      case Bad(e) => Bad(e)
      case Got(r, rest) =>
        match Apply(lib, n, args[0], l, r)
        case Fail(e) => Bad(e)
        case Ok(v) => Loop(lib, n, v, rest)
  }

  /** eval6 */
  function Keyword(lib: Library, args: seq<string>): (p: Parsed)
    ensures p.Got? ==> |p.rest| < |args|
    decreases |args|, 1, 0
  {
    if args == [] then Bad(Syntax)
    else if args[0] == "quote" then (if |args| < 2 then Bad(Syntax) else Got(Str(args[1]), args[2..]))
    else if args[0] == "length" then
      match Keyword(lib, args[1..])
      case Bad(e) => Bad(e)
      case Got(r, rest) => Got(Int(|ToString(lib, r)|), rest)
    else if args[0] in ["match", "index", "substr"] then
      match Keyword(lib, args[1..])
      case Bad(e) => Bad(e)
      case Got(l, rest) =>
        match Keyword(lib, rest)
        case Bad(e) => Bad(e)
        case Got(r, rest2) =>
          if args[0] == "match" then
            match lib.colon(ToString(lib, l), ToString(lib, r))
            case Fail(e) => Bad(e)
            case Ok(v) => Got(v, rest2)
          else if args[0] == "index" then Got(Index(lib, l, r), rest2)
          else
            match Keyword(lib, rest2)
            case Bad(e) => Bad(e)
            case Got(i2, rest3) => Got(Substr(lib, l, r, i2), rest3)
    else Primary(lib, args)
  }

  /** eval7 */
  function Primary(lib: Library, args: seq<string>): (p: Parsed)
    ensures p.Got? ==> |p.rest| < |args|
    decreases |args|, 0, 0
  {
    if args == [] || args[0] == ")" then Bad(Syntax)
    else if args[0] == "(" then
      match Level(lib, 0, args[1..])
      case Bad(e) => Bad(e)
      case Got(v, rest) => if rest == [] || rest[0] != ")" then Bad(Syntax) else Got(v, rest[1..])
    else Got(Str(args[0]), args[1..])
  }

  // ---- trees ----

  datatype Tree =
    | Leaf(s: string, quoted: bool)
    | Bin(level: nat, op: string, l: Tree, r: Tree)
    | Length(t: Tree)
    | Match(l: Tree, r: Tree)
    | Find(l: Tree, r: Tree)
    | Part(t: Tree, from: Tree, count: Tree)

  const SPECIAL := ["quote", "length", "match", "index", "substr", "(", ")"]

  /** Operators stand at their level, and a leaf that looks like a keyword or a parenthesis is quoted. */
  predicate Proper(t: Tree)
  {
    match t
    case Leaf(s, quoted) => quoted || s !in SPECIAL
    case Bin(n, op, l, r) => n < 6 && op in Ops(n) && Proper(l) && Proper(r)
    case Length(a) => Proper(a)
    case Match(l, r) => Proper(l) && Proper(r)
    case Find(l, r) => Proper(l) && Proper(r)
    case Part(a, b, c) => Proper(a) && Proper(b) && Proper(c)
  }

  /** The value of a tree, its parts from left to right, or the first failure. */
  function Eval(lib: Library, t: Tree): (o: Outcome)
    requires Proper(t)
  {
    match t
    case Leaf(s, _) => Ok(Str(s))
    case Bin(n, op, l, r) =>
      (match Eval(lib, l)
       case Fail(e) => Fail(e)
       case Ok(x) =>
         match Eval(lib, r)
         case Fail(e) => Fail(e)
         case Ok(y) => Apply(lib, n, op, x, y))
    case Length(a) =>
      (match Eval(lib, a)
       case Fail(e) => Fail(e)
       case Ok(x) => Ok(Int(|ToString(lib, x)|)))
    case Match(l, r) =>
      (match Eval(lib, l)
       case Fail(e) => Fail(e)
       case Ok(x) =>
         match Eval(lib, r)
         case Fail(e) => Fail(e)
         case Ok(y) => lib.colon(ToString(lib, x), ToString(lib, y)))
    case Find(l, r) =>
      (match Eval(lib, l)
       case Fail(e) => Fail(e)
       case Ok(x) =>
         match Eval(lib, r)
         case Fail(e) => Fail(e)
         case Ok(y) => Ok(Index(lib, x, y)))
    case Part(a, b, c) =>
      (match Eval(lib, a)
       case Fail(e) => Fail(e)
       case Ok(x) =>
         match Eval(lib, b)
         case Fail(e) => Fail(e)
         case Ok(y) =>
           match Eval(lib, c)
           case Fail(e) => Fail(e)
           case Ok(z) => Ok(Substr(lib, x, y, z)))
  }

  function TreeLevel(t: Tree): (n: nat)
  {
    if t.Bin? then t.level else 6
  }

  /** The arguments for a tree where level n is wanted, with no more parentheses than precedence and
      grouping to the left need. */
  function Print(t: Tree, n: nat): (args: seq<string>)
    decreases t, if TreeLevel(t) < n then 1 else 0
  {
    if TreeLevel(t) < n then ["("] + Print(t, 0) + [")"]
    else
      match t
      case Leaf(s, quoted) => if quoted then ["quote", s] else [s]
      case Bin(m, op, l, r) => Print(l, m) + ([op] + Print(r, m + 1))
      case Length(a) => ["length"] + Print(a, 6)
      case Match(l, r) => ["match"] + (Print(l, 6) + Print(r, 6))
      case Find(l, r) => ["index"] + (Print(l, 6) + Print(r, 6))
      case Part(a, b, c) => ["substr"] + (Print(a, 6) + (Print(b, 6) + Print(c, 6)))
  }

  /** What evaluation along the arguments should give for a tree printed in front of rest. */
  function Expected(o: Outcome, rest: seq<string>): (p: Parsed)
  {
    match o
    case Ok(v) => Got(v, rest)
    case Fail(e) => Bad(e)
  }

  /** rest does not go on with an operator of level n or tighter. */
  predicate Ends(n: nat, rest: seq<string>)
  {
    rest == [] || forall k :: n <= k < 6 ==> rest[0] !in Ops(k)
  }

  lemma OpsDisjoint(n: nat, k: nat, op: string)
    requires op in Ops(n) && n < k < 6
    ensures op !in Ops(k)
  {
  }

  lemma OpEnds(n: nat, op: string, more: seq<string>)
    requires n < 6 && op in Ops(n)
    ensures Ends(n + 1, [op] + more)
  {
    forall k | n + 1 <= k < 6 ensures op !in Ops(k) {
      OpsDisjoint(n, k, op);
    }
  }

  lemma ParenEnds(more: seq<string>)
    ensures Ends(0, [")"] + more)
  {
  }

  function Steps(t: Tree, n: nat): (m: nat)
    requires n <= 6
  {
    if TreeLevel(t) < n then 20 - n else if TreeLevel(t) <= 6 then TreeLevel(t) - n else 0
  }

  lemma LoopEnds(lib: Library, n: nat, v: Value, rest: seq<string>)
    requires n < 6 && Ends(n, rest)
    ensures Loop(lib, n, v, rest) == Got(v, rest)
  {
  }

  /** A tree printed for level n, wherever level n or a looser one may go on. */
  lemma {:induction false} LevelPrints(lib: Library, t: Tree, n: nat, rest: seq<string>)
    requires Proper(t) && n < 6 && Ends(n + 1, rest)
    ensures Level(lib, n, Print(t, n) + rest)
         == match Eval(lib, t) case Fail(e) => Bad(e) case Ok(v) => Loop(lib, n, v, rest)
    decreases t, Steps(t, n), 1
  {
    hide Ops, Apply, Keyword, Ends;
    if TreeLevel(t) != n {
      UpPrints(lib, t, n + 1, rest);
    } else {
      var rest2 := Print(t.r, n + 1) + rest;
      var rest1 := [t.op] + rest2;
      assert Print(t, n) + rest == Print(t.l, n) + rest1;
      OpEnds(n, t.op, rest2);
      LevelPrints(lib, t.l, n, rest1);
      UpPrints(lib, t.r, n + 1, rest);
      assert rest1[1..] == rest2;
    }
  }

  /** A tree printed for level m, where neither level m nor a tighter one goes on. */
  lemma {:induction false} UpPrints(lib: Library, t: Tree, m: nat, rest: seq<string>)
    requires Proper(t) && m <= 6 && Ends(m, rest)
    ensures Level(lib, m, Print(t, m) + rest) == Expected(Eval(lib, t), rest)
    decreases t, Steps(t, m), 2
  {
    hide Print, Keyword, Eval, Ops;
    if m == 6 {
      KeywordPrints(lib, t, rest);
    } else {
      LevelPrints(lib, t, m, rest);
      if Eval(lib, t).Ok? {
        LoopEnds(lib, m, Eval(lib, t).v, rest);
      }
    }
  }

  /** A tree printed where an operand is wanted, whatever follows. */
  lemma {:induction false} KeywordPrints(lib: Library, t: Tree, rest: seq<string>)
    requires Proper(t)
    ensures Keyword(lib, Print(t, 6) + rest) == Expected(Eval(lib, t), rest)
    decreases t, Steps(t, 6), 0
  {
    if TreeLevel(t) < 6 {
      ParenPrints(lib, t, rest);
    } else {
      match t
      case Leaf(s, quoted) => LeafPrints(lib, s, quoted, rest);
      case Length(a) => KeywordPrints(lib, a, rest); LengthPrints(lib, a, rest);
      case Match(l, r) => KeywordPrints(lib, l, Print(r, 6) + rest); KeywordPrints(lib, r, rest); MatchPrints(lib, l, r, rest);
      case Find(l, r) => KeywordPrints(lib, l, Print(r, 6) + rest); KeywordPrints(lib, r, rest); FindPrints(lib, l, r, rest);
      case Part(a, b, c) =>
        KeywordPrints(lib, a, Print(b, 6) + (Print(c, 6) + rest));
        KeywordPrints(lib, b, Print(c, 6) + rest);
        KeywordPrints(lib, c, rest);
        PartPrints(lib, a, b, c, Print(a, 6), Print(b, 6), Print(c, 6), rest);
    }
  }

  lemma {:induction false} ParenPrints(lib: Library, t: Tree, rest: seq<string>)
    requires Proper(t) && TreeLevel(t) < 6
    ensures Keyword(lib, Print(t, 6) + rest) == Expected(Eval(lib, t), rest)
    decreases t, 10, 0
  {
    hide Eval, Level;
    var args := Print(t, 6) + rest;
    assert args[0] == "(" && args[1..] == Print(t, 0) + ([")"] + rest);
    hide Print;
    ParenEnds(rest);
    hide Ends;
    UpPrints(lib, t, 0, [")"] + rest);
    assert ([")"] + rest)[1..] == rest;
    assert Keyword(lib, args) == Primary(lib, args);
  }

  lemma LeafPrints(lib: Library, s: string, quoted: bool, rest: seq<string>)
    requires Proper(Leaf(s, quoted))
    ensures Keyword(lib, Print(Leaf(s, quoted), 6) + rest) == Got(Str(s), rest)
  {
    if quoted {
      assert (["quote", s] + rest)[2..] == rest;
    } else {
      assert ([s] + rest)[1..] == rest;
    }
  }

  lemma LengthPrints(lib: Library, a: Tree, rest: seq<string>)
    requires Proper(a) && Keyword(lib, Print(a, 6) + rest) == Expected(Eval(lib, a), rest)
    ensures Keyword(lib, Print(Length(a), 6) + rest) == Expected(Eval(lib, Length(a)), rest)
  {
    assert (["length"] + Print(a, 6) + rest)[1..] == Print(a, 6) + rest;
  }

  /** A keyword with two operands. */
  lemma KeywordTwo(lib: Library, args: seq<string>, p1: Parsed, p2: Parsed)
    requires args != [] && args[0] in ["match", "index"] && Keyword(lib, args[1..]) == p1
    requires p1.Got? ==> Keyword(lib, p1.rest) == p2
    ensures Keyword(lib, args)
         == if p1.Bad? then p1 else if p2.Bad? then p2
            else if args[0] == "match" then Expected(lib.colon(ToString(lib, p1.v), ToString(lib, p2.v)), p2.rest)
            else Got(Index(lib, p1.v, p2.v), p2.rest)
  {
    hide Primary, Index, ToString;
  }

  lemma KeywordThree(lib: Library, args: seq<string>, p1: Parsed, p2: Parsed, p3: Parsed)
    requires args != [] && args[0] == "substr" && Keyword(lib, args[1..]) == p1
    requires p1.Got? ==> Keyword(lib, p1.rest) == p2
    requires p1.Got? && p2.Got? ==> Keyword(lib, p2.rest) == p3
    ensures Keyword(lib, args)
         == if p1.Bad? then p1 else if p2.Bad? then p2 else if p3.Bad? then p3 else Got(Substr(lib, p1.v, p2.v, p3.v), p3.rest)
  {
    hide Primary, Substr, ToString;
  }

  lemma FlatTwo(key: string, x: seq<string>, y: seq<string>, rest: seq<string>)
    ensures var args := [key] + (x + y) + rest; args[0] == key && args[1..] == x + (y + rest)
  {
  }

  lemma FlatThree(key: string, x: seq<string>, y: seq<string>, z: seq<string>, rest: seq<string>)
    ensures var args := [key] + (x + (y + z)) + rest; args[0] == key && args[1..] == x + (y + (z + rest))
  {
  }

  lemma MatchPrints(lib: Library, l: Tree, r: Tree, rest: seq<string>)
    requires Proper(l) && Proper(r)
    requires Keyword(lib, Print(l, 6) + (Print(r, 6) + rest)) == Expected(Eval(lib, l), Print(r, 6) + rest)
    requires Keyword(lib, Print(r, 6) + rest) == Expected(Eval(lib, r), rest)
    ensures Keyword(lib, Print(Match(l, r), 6) + rest) == Expected(Eval(lib, Match(l, r)), rest)
  {
    hide Keyword, ToString;
    var x, y := Print(l, 6), Print(r, 6);
    assert Print(Match(l, r), 6) == ["match"] + (x + y);
    hide Print;
    var args := ["match"] + (x + y) + rest;
    FlatTwo("match", x, y, rest);
    KeywordTwo(lib, args, Expected(Eval(lib, l), Print(r, 6) + rest), Expected(Eval(lib, r), rest));
  }

  lemma FindPrints(lib: Library, l: Tree, r: Tree, rest: seq<string>)
    requires Proper(l) && Proper(r)
    requires Keyword(lib, Print(l, 6) + (Print(r, 6) + rest)) == Expected(Eval(lib, l), Print(r, 6) + rest)
    requires Keyword(lib, Print(r, 6) + rest) == Expected(Eval(lib, r), rest)
    ensures Keyword(lib, Print(Find(l, r), 6) + rest) == Expected(Eval(lib, Find(l, r)), rest)
  {
    hide Keyword, ToString, Index;
    var x, y := Print(l, 6), Print(r, 6);
    assert Print(Find(l, r), 6) == ["index"] + (x + y);
    hide Print;
    var args := ["index"] + (x + y) + rest;
    FlatTwo("index", x, y, rest);
    KeywordTwo(lib, args, Expected(Eval(lib, l), Print(r, 6) + rest), Expected(Eval(lib, r), rest));
  }

  lemma PartPrints(lib: Library, a: Tree, b: Tree, c: Tree, x: seq<string>, y: seq<string>, z: seq<string>, rest: seq<string>)
    requires Proper(a) && Proper(b) && Proper(c)
    requires Keyword(lib, x + (y + (z + rest))) == Expected(Eval(lib, a), y + (z + rest))
    requires Keyword(lib, y + (z + rest)) == Expected(Eval(lib, b), z + rest)
    requires Keyword(lib, z + rest) == Expected(Eval(lib, c), rest)
    ensures Keyword(lib, ["substr"] + (x + (y + z)) + rest) == Expected(Eval(lib, Part(a, b, c)), rest)
  {
    hide Keyword, ToString, Substr;
    FlatThree("substr", x, y, z, rest);
    KeywordThree(lib, ["substr"] + (x + (y + z)) + rest, Expected(Eval(lib, a), y + (z + rest)), Expected(Eval(lib, b), z + rest),
                 Expected(Eval(lib, c), rest));
  }

  // ---- the evaluator ----

  /** eval to eval7 over a shared cursor. */
  class Evaluator {
    const lib: Library
    const args: seq<string>
    var pos: nat              // G.args

    constructor (lib: Library, args: seq<string>)
      ensures this.lib == lib && this.args == args && pos == 0
    {
      this.lib, this.args, pos := lib, args, 0;
    }

    /** What a call should leave behind: the value and the cursor, or a failure. */
    ghost predicate Done(p: Parsed, o: Outcome)
      reads this
    {
      match p
      case Got(v, rest) => o == Ok(v) && pos <= |args| && args[pos..] == rest
      case Bad(e) => o == Fail(e)
    }

    predicate NextIs(s: string)
      reads this
    {
      pos < |args| && args[pos] == s
    }

    /** eval to eval5, which differ only in their operators. */
    method EvalLevel(n: nat) returns (o: Outcome)
      requires n <= 6 && pos <= |args|
      modifies this
      ensures Done(Level(lib, n, old(args[pos..])), o)
      decreases |args| - pos, 1, 7 - n
    {
      hide Apply, Keyword, Ops;
      if n == 6 {
        o := EvalKeyword();
        return;
      }
      ghost var p := Level(lib, n, args[pos..]);
      ghost var start := pos;
      o := EvalLevel(n + 1);
      if o.Fail? {
        return;
      }
      var l := o.v;
      while pos < |args| && args[pos] in Ops(n)
        invariant start < pos <= |args| && p == Loop(lib, n, l, args[pos..])
        decreases |args| - pos
      {
        var op := args[pos];
        assert args[pos..][0] == op && args[pos..][1..] == args[pos + 1..];
        pos := pos + 1;
        o := EvalLevel(n + 1);
        if o.Fail? {
          return;
        }
        o := Apply(lib, n, op, l, o.v);
        if o.Fail? {
          return;
        }
        l := o.v;
      }
      o := Ok(l);
      assert pos < |args| ==> args[pos..][0] == args[pos];
    }

    /** eval6 */
    method EvalKeyword() returns (o: Outcome)
      requires pos <= |args|
      modifies this
      ensures Done(Keyword(lib, old(args[pos..])), o)
      decreases |args| - pos, 1, 0
    {
      if pos == |args| || args[pos] !in ["quote", "length", "match", "index", "substr"] {
        o := EvalPrimary();
        return;
      }
      var key := args[pos];
      ghost var all := args[pos..];
      assert all[0] == key && all[1..] == args[pos + 1..];
      pos := pos + 1;
      if key == "quote" {
        if pos == |args| {
          return Fail(Syntax);
        }
        assert all[1] == args[pos] && all[2..] == args[pos + 1..];
        o := Ok(Str(args[pos]));
        pos := pos + 1;
        return;
      }
      o := EvalKeyword();
      if o.Fail? {
        return;
      }
      if key == "length" {
        return Ok(Int(|ToString(lib, o.v)|));
      }
      o := EvalOperands(key, o.v, all);
    }

    /** The other operands of a keyword. */
    method EvalOperands(key: string, l: Value, ghost all: seq<string>) returns (o: Outcome)
      requires pos <= |args| && key in ["match", "index", "substr"] && all != [] && all[0] == key
      requires Keyword(lib, all[1..]) == Got(l, args[pos..])
      modifies this
      ensures Done(Keyword(lib, all), o)
      decreases |args| - pos, 2, 0
    {
      hide Primary, Index, Substr, ToString;
      ghost var p1, p2 := Got(l, args[pos..]), Keyword(lib, args[pos..]);
      if key != "substr" {
        KeywordTwo(lib, all, p1, p2);
      }
      o := EvalKeyword();
      if o.Fail? {
        return;
      }
      var r := o.v;
      if key == "match" {
        return lib.colon(ToString(lib, l), ToString(lib, r));
      }
      if key == "index" {
        return Ok(Index(lib, l, r));
      }
      KeywordThree(lib, all, p1, p2, Keyword(lib, args[pos..]));
      o := EvalKeyword();
      if o.Fail? {
        return;
      }
      o := Ok(Substr(lib, l, r, o.v));
    }

    /** eval7 */
    method EvalPrimary() returns (o: Outcome)
      requires pos <= |args|
      modifies this
      ensures Done(Primary(lib, old(args[pos..])), o)
      decreases |args| - pos, 0, 0
    {
      if pos == |args| {
        return Fail(Syntax);
      }
      ghost var all := args[pos..];
      assert all[0] == args[pos] && all[1..] == args[pos + 1..];
      if NextIs("(") {
        pos := pos + 1;
        o := EvalLevel(0);
        if o.Fail? {
          return;
        }
        if !NextIs(")") {
          return Fail(Syntax);
        }
        assert args[pos..][1..] == args[pos + 1..];
        pos := pos + 1;
        return;
      }
      if NextIs(")") {
        return Fail(Syntax);
      }
      o := Ok(Str(args[pos]));
      pos := pos + 1;
    }
  }

  /** expr_main: every argument must be used. */
  method Run(lib: Library, args: seq<string>) returns (o: Outcome)
    ensures o == match Level(lib, 0, args) case Bad(e) => Fail(e) case Got(v, rest) => if rest == [] then Ok(v) else Fail(Syntax)
  {
    hide Level;
    var e := new Evaluator(lib, args);
    assert args[0..] == args;
    o := e.EvalLevel(0);
    if o.Ok? && e.pos < |args| {
      o := Fail(Syntax);
    }
  }

  /** Evaluating a printed tree gives the tree's value or its first failure, and uses every argument. */
  method RunTree(lib: Library, t: Tree) returns (o: Outcome)
    requires Proper(t)
    ensures o == Eval(lib, t)
  {
    hide Level, Print, Eval;
    o := Run(lib, Print(t, 0));
    assert Print(t, 0) + [] == Print(t, 0);
    NothingEnds();
    UpPrints(lib, t, 0, []);
  }

  lemma NothingEnds()
    ensures Ends(0, [])
  {
  }
}
