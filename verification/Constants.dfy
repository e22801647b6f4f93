/**
 * Expressions without variables and calls: they have a value exactly when no operator in the
 * evaluated part is undefined, whatever the memory, and need a known amount of stack.
 */
module Constants {
  import opened Words
  import opened Syntax
  import opened Operators
  import opened Semantics

  predicate IsConstant(e: Expr) {
    match e
    case Num(_) => true
    case NegNum(_) => true
    case SizeOf(_, _) => true
    case Cast(_, stars, e) => stars == 0 && IsConstant(e)
    case Unary(_, e) => IsConstant(e)
    case Conditional(c, a, b) => IsConstant(c) && IsConstant(a) && IsConstant(b)
    case LogicalOr(a, b) => IsConstant(a) && IsConstant(b)
    case LogicalAnd(a, b) => IsConstant(a) && IsConstant(b)
    case Binary(_, a, b) => IsConstant(a) && IsConstant(b)
    case _ => false
  }

  // The value, by the operators alone; None when an operator is undefined.
  function ValueOf(e: Expr): Option<Word>
    requires IsConstant(e)
  {
    match e
    case Num(v) => Some(v)
    case NegNum(v) => Some(ToWord(-(v as int)))
    case SizeOf(isChar, stars) => Some(if isChar && stars == 0 then 1 else 4)
    case Cast(_, _, e) => ValueOf(e)
    case Unary(op, e) =>
      (match ValueOf(e)
       case None => None
       case Some(v) =>
         match op
         case Not => Some(if v == 0 then 1 else 0)
         case Complement => Some(0xFFFF_FFFF - v)
         case Plus => Some(v)
         case Negate => Some(ToWord(-(v as int))))
    case Conditional(c, a, b) =>
      (match ValueOf(c) case None => None case Some(v) => if v != 0 then ValueOf(a) else ValueOf(b))
    case LogicalOr(a, b) =>
      (match ValueOf(a) case None => None case Some(v) => if v != 0 then Some(v) else ValueOf(b))
    case LogicalAnd(a, b) =>
      (match ValueOf(a) case None => None case Some(v) => if v == 0 then Some(v) else ValueOf(b))
    case Binary(op, a, b) =>
      match ValueOf(a)
      case None => None
      case Some(x) =>
        match ValueOf(b)
        case None => None
        case Some(y) => PlainValue(op, x, y)
  }

  // The words of stack the evaluation needs.
  function Height(e: Expr): nat
    requires IsConstant(e)
  {
    match e
    case Cast(_, _, e) => Height(e)
    case Unary(op, e) =>
      if op == Negate then 1 + Height(e) else if op == Plus then Height(e) else Max(1, Height(e))
    case Conditional(c, a, b) => Max(Height(c), Max(Height(a), Height(b)))
    case LogicalOr(a, b) => Max(Height(a), Height(b))
    case LogicalAnd(a, b) => Max(Height(a), Height(b))
    case Binary(_, a, b) => Max(Height(a), 1 + Height(b))
    case _ => 0
  }

  function Max(a: nat, b: nat): nat { if a > b then a else b }

  lemma {:induction false} ConstantType(g: Scope, e: Expr)
    requires IsConstant(e)
    ensures 0 <= TypeOf(g, e) <= INT_TYPE
  {
    match e
    case Conditional(c, a, b) => ConstantType(g, b);
    case Binary(_, a, b) => ConstantType(g, a); ConstantType(g, b);
    case _ =>
  }

  // With room for it, a constant expression evaluates to its value and changes nothing, or is
  // undefined just where its value is.
  lemma {:induction false} ConstantValue(p: Program, g: Scope, fuel: nat, bp: int, sp: int, e: Expr, st: State)
    requires IsConstant(e) && sp - 4 * Height(e) >= p.limit
    ensures Eval(p, g, fuel, bp, sp, e, st)
      == match ValueOf(e) case Some(v) => Done(st.(ax := v)) case None => Stuck
    decreases e
  {
    match e
    case Num(_) =>
    case NegNum(_) =>
    case SizeOf(_, _) =>
    case Cast(_, _, d) => ConstantValue(p, g, fuel, bp, sp, d, st);
    case Unary(op, d) =>
      if op == Negate {
        ConstantValue(p, g, fuel, bp, sp - 4, d, st.(ax := 0xFFFF_FFFF));
      } else {
        ConstantValue(p, g, fuel, bp, sp, d, st);
      }
    case Conditional(c, a, b) => ConditionalValue(p, g, fuel, bp, sp, e, st);
    case LogicalOr(a, b) => LogicalValue(p, g, fuel, bp, sp, e, a, b, st);
    case LogicalAnd(a, b) => LogicalValue(p, g, fuel, bp, sp, e, a, b, st);
    case Binary(op, a, b) => BinaryConstant(p, g, fuel, bp, sp, e, st);
  }

  lemma {:induction false} ConditionalValue(p: Program, g: Scope, fuel: nat, bp: int, sp: int, e: Expr, st: State)
    requires IsConstant(e) && e.Conditional? && sp - 4 * Height(e) >= p.limit
    ensures Eval(p, g, fuel, bp, sp, e, st)
      == match ValueOf(e) case Some(v) => Done(st.(ax := v)) case None => Stuck
    decreases e, 0
  {
    ConstantValue(p, g, fuel, bp, sp, e.c, st);
    if ValueOf(e.c).Some? {
      var v := ValueOf(e.c).value;
      ConstantValue(p, g, fuel, bp, sp, if v != 0 then e.a else e.b, st.(ax := v));
    }
  }

  lemma {:induction false} LogicalValue(p: Program, g: Scope, fuel: nat, bp: int, sp: int, e: Expr, a: Expr, b: Expr,
                                        st: State)
    requires IsConstant(e) && (e == LogicalOr(a, b) || e == LogicalAnd(a, b)) && sp - 4 * Height(e) >= p.limit
    ensures Eval(p, g, fuel, bp, sp, e, st)
      == match ValueOf(e) case Some(v) => Done(st.(ax := v)) case None => Stuck
    decreases e, 0
  {
    ConstantValue(p, g, fuel, bp, sp, a, st);
    if ValueOf(a).Some? {
      ConstantValue(p, g, fuel, bp, sp, b, st.(ax := ValueOf(a).value));
    }
  }

  lemma {:induction false} BinaryConstant(p: Program, g: Scope, fuel: nat, bp: int, sp: int, e: Expr, st: State)
    requires IsConstant(e) && e.Binary? && sp - 4 * Height(e) >= p.limit
    ensures Eval(p, g, fuel, bp, sp, e, st)
      == match ValueOf(e) case Some(v) => Done(st.(ax := v)) case None => Stuck
    decreases e, 0
  {
    hide PlainValue, BinaryValue, TypeOf, ToWord;
    ConstantType(g, e.a);
    ConstantValue(p, g, fuel, bp, sp, e.a, st);
    if ValueOf(e.a).Some? {
      var x := ValueOf(e.a).value;
      ConstantValue(p, g, fuel, bp, sp - 4, e.b, st.(ax := x));
      if ValueOf(e.b).Some? {
        PlainSum(e.op, TypeOf(g, e.a), TypeOf(g, e.b), x, ValueOf(e.b).value);
      }
    }
  }

  lemma PlainSum(op: BinOp, ta: int, tb: int, a: Word, b: Word)
    requires ta <= PTR_TYPE
    ensures BinaryValue(op, ta, tb, a, b) == PlainValue(op, a, b)
  {
    hide PlainValue;
    if op == BAdd || op == BSub { PointerMeans(op, ta, tb, a, b); }
  }
}
