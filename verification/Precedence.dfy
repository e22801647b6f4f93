/**
 * How tightly the infix operators bind, by a table, and that the compiler groups them by it:
 * the table of C, but for `!=`, which binds tighter than `==`.
 */
module Precedence {
  import opened Words
  import opened Syntax
  import opened Grammar
  import opened Printer

  datatype Infix = OrElse | AndAlso | Plain(op: BinOp)

  function Rank(i: Infix): nat {
    match i
    case OrElse => 1
    case AndAlso => 2
    case Plain(op) =>
      match op
      case BOr => 3
      case BXor => 4
      case BAnd => 5
      case BEq => 6
      case BNe => 7
      case BLt => 8 case BGt => 8 case BLe => 8 case BGe => 8
      case BShl => 9 case BShr => 9
      case BAdd => 10 case BSub => 10
      case BMul => 11 case BDiv => 11 case BMod => 11
  }

  function Joined(i: Infix, a: Expr, b: Expr): Expr {
    match i
    case OrElse => LogicalOr(a, b)
    case AndAlso => LogicalAnd(a, b)
    case Plain(op) => Binary(op, a, b)
  }

  function Sign(i: Infix): Token {
    match i
    case OrElse => Tok(LOR)
    case AndAlso => Tok(LAN)
    case Plain(op) => Tok(KindOfBinOp(op))
  }

  // Names, numbers and strings, calls, indexings, and ++ and -- after a variable.
  predicate IsTight(e: Expr) {
    e.Num? || e.Str? || e.Ident? || e.Call? || e.Index? || e.PostStep?
  }

  // Two operators in a row: the second one takes the operand between them exactly when it
  // binds tighter; equals are grouped from the left.
  lemma BindsTighter(g: Scope, i: Infix, j: Infix, a: Expr, b: Expr, c: Expr)
    requires WellFormed(g, a) && WellFormed(g, b) && WellFormed(g, c) && IsTight(a) && IsTight(b) && IsTight(c)
    ensures ParseExpr(g, ASSIGN, Print(a) + [Sign(i)] + Print(b) + [Sign(j)] + Print(c))
      == Ok(if Rank(j) > Rank(i) then Joined(i, a, Joined(j, b, c)) else Joined(j, Joined(i, a, b), c), [])
  {
    var e := if Rank(j) > Rank(i) then Joined(i, a, Joined(j, b, c)) else Joined(j, Joined(i, a, b), c);
    PrintOfTwo(i, j, a, b, c);
    StaysWellFormed(g, i, j, a, b, c);
    hide *;
    assert Print(e) + [] == Print(e);
    NothingSeparates();
    ParseInvertsPrint(g, e, []);
  }

  lemma NothingSeparates()
    ensures Separates([]) && Kind([]) < ASSIGN
  {
  }

  lemma StaysWellFormed(g: Scope, i: Infix, j: Infix, a: Expr, b: Expr, c: Expr)
    requires WellFormed(g, a) && WellFormed(g, b) && WellFormed(g, c)
    ensures WellFormed(g, Joined(i, a, Joined(j, b, c))) && WellFormed(g, Joined(j, Joined(i, a, b), c))
  {
    hide *;
    JoinedIsWellFormed(g, i, a, b);
    JoinedIsWellFormed(g, j, b, c);
    JoinedIsWellFormed(g, i, a, Joined(j, b, c));
    JoinedIsWellFormed(g, j, Joined(i, a, b), c);
  }

  lemma JoinedIsWellFormed(g: Scope, i: Infix, a: Expr, b: Expr)
    requires WellFormed(g, a) && WellFormed(g, b)
    ensures WellFormed(g, Joined(i, a, b))
  {
    match i
    case OrElse => assert Joined(i, a, b) == LogicalOr(a, b);
    case AndAlso => assert Joined(i, a, b) == LogicalAnd(a, b);
    case Plain(op) => assert Joined(i, a, b) == Binary(op, a, b);
  }

  lemma PrintOfTwo(i: Infix, j: Infix, a: Expr, b: Expr, c: Expr)
    requires IsTight(a) && IsTight(b) && IsTight(c)
    ensures Print(a) + [Sign(i)] + Print(b) + [Sign(j)] + Print(c)
      == Print(if Rank(j) > Rank(i) then Joined(i, a, Joined(j, b, c)) else Joined(j, Joined(i, a, b), c))
  {
    PrintOfOne(i, a, b);
    PrintOfOne(j, b, c);
    if Rank(j) > Rank(i) {
      PrintRight(i, j, a, b, c);
      assert Print(a) + [Sign(i)] + (Print(b) + [Sign(j)] + Print(c))
          == Print(a) + [Sign(i)] + Print(b) + [Sign(j)] + Print(c);
    } else {
      PrintLeftOf(i, j, a, b, c);
    }
  }

  lemma PrintOfOne(i: Infix, a: Expr, b: Expr)
    requires IsTight(a) && IsTight(b)
    ensures Print(Joined(i, a, b)) == Print(a) + [Sign(i)] + Print(b)
  {
    hide Print;
    InfixPrint(i, a, b);
  }

  // The level of an operator, and of its right operand.
  function KindOfInfix(i: Infix): int {
    match i case OrElse => LOR case AndAlso => LAN case Plain(op) => KindOfBinOp(op)
  }

  function RightOf(i: Infix): int {
    match i case OrElse => LAN case AndAlso => OR case Plain(op) => RightLevel(op)
  }

  lemma InfixPrint(i: Infix, a: Expr, b: Expr)
    ensures Print(Joined(i, a, b)) == PrintLeft(a, KindOfInfix(i)) + [Sign(i)] + PrintAt(RightOf(i), b)
    ensures OuterLevel(Joined(i, a, b)) == KindOfInfix(i) && Grip(Joined(i, a, b)) == RightOf(i)
    ensures KindOfInfix(i) < TIGHTEST && RightOf(i) <= TIGHTEST
  {
  }

  lemma RanksAreLevels(i: Infix, j: Infix)
    ensures Rank(j) > Rank(i) <==> KindOfInfix(j) >= RightOf(i)
  {
  }

  lemma PrintRight(i: Infix, j: Infix, a: Expr, b: Expr, c: Expr)
    requires IsTight(a) && Rank(j) > Rank(i)
    ensures Print(Joined(i, a, Joined(j, b, c))) == Print(a) + [Sign(i)] + Print(Joined(j, b, c))
  {
    hide Print;
    RanksAreLevels(i, j);
    InfixPrint(i, a, Joined(j, b, c));
    InfixPrint(j, b, c);
  }

  lemma PrintLeftOf(i: Infix, j: Infix, a: Expr, b: Expr, c: Expr)
    requires IsTight(c) && Rank(j) <= Rank(i)
    ensures Print(Joined(j, Joined(i, a, b), c)) == Print(Joined(i, a, b)) + [Sign(j)] + Print(c)
  {
    hide Print;
    RanksAreLevels(i, j);
    InfixPrint(j, Joined(i, a, b), c);
    InfixPrint(i, a, b);
  }
}
