/**
 * The code of an expression, a statement and a function, as a whole block.
 *
 * A block is position independent: the target of a jump is given relative to the word
 * that holds it, and becomes an absolute address when the block is placed.
 */
module Codegen {
  import opened Words
  import opened Syntax
  import M = Machine

  datatype Item =
    | Op(w: Word)       // an opcode
    | Arg(w: Word)      // an operand with a fixed value
    | Rel(k: int)       // a jump target, `k` words after this word

  type Code = seq<Item>

  function WordOf(address: int, item: Item): Word {
    match item
    case Op(w) => w
    case Arg(w) => w
    case Rel(k) => ToWord(address + 4 * k)
  }

  // The words of a block whose first word is at byte address `pos`.
  function Place(pos: int, code: Code): seq<Word> {
    seq(|code|, i requires 0 <= i < |code| => WordOf(pos + 4 * i, code[i]))
  }

  // ----- small pieces -----

  function LoadOp(t: int): Word { if t == CHAR_TYPE then M.LC else M.LI }
  function StoreOp(t: int): Word { if t == CHAR_TYPE then M.SC else M.SI }

  // What ++ and -- add: pointers other than `char *` move by a word.
  function StepSize(t: int): Word { if t > PTR_TYPE then 4 else 1 }

  function Opcode(op: BinOp): Word {
    match op
    case BOr => M.OR case BXor => M.XOR case BAnd => M.AND
    case BEq => M.EQ case BNe => M.NE
    case BLt => M.LT case BGt => M.GT case BLe => M.LE case BGe => M.GE
    case BShl => M.SHL case BShr => M.SHR
    case BAdd => M.ADD case BSub => M.SUB
    case BMul => M.MUL case BDiv => M.DIV case BMod => M.MOD
  }

  // Multiply the accumulator by the word size, for a pointer of type `t`.
  function Scale(t: int): Code {
    if t > PTR_TYPE then [Op(M.PUSH), Op(M.IMM), Arg(4), Op(M.MUL)] else []
  }

  // What follows the right operand of a binary operator, by the operand types.
  function BinaryTail(op: BinOp, ta: int, tb: int): Code {
    if op == BAdd then Scale(ta) + [Op(M.ADD)]
    else if op == BSub then
      if ta > PTR_TYPE && ta == tb then [Op(M.SUB), Op(M.PUSH), Op(M.IMM), Arg(4), Op(M.DIV)]
      else Scale(ta) + [Op(M.SUB)]
    else [Op(Opcode(op))]
  }

  // Read the variable, add or subtract a step, and write it back; the address is pushed.
  function StepCode(load: Word, t: int, up: bool): Code {
    [Op(M.PUSH), Op(load), Op(M.PUSH), Op(M.IMM), Arg(StepSize(t)),
     Op(if up then M.ADD else M.SUB), Op(StoreOp(t))]
  }

  function UndoStep(t: int, up: bool): Code {
    [Op(M.PUSH), Op(M.IMM), Arg(StepSize(t)), Op(if up then M.SUB else M.ADD)]
  }

  function DropLast(code: Code): Code {
    if |code| == 0 then [] else code[..|code| - 1]
  }

  // The generator's lvalue test: the last emitted word reads as a load.
  predicate EndsInLoad(code: Code) {
    |code| > 0 && !code[|code| - 1].Rel? && code[|code| - 1].w in {M.LI, M.LC}
  }

  function LastWord(code: Code): Word {
    if |code| > 0 && !code[|code| - 1].Rel? then code[|code| - 1].w else 0
  }

  // ----- expressions -----

  function IdentCode(g: Scope, x: nat): Code {
    var s := Lookup(g, x);
    if s.class_ == Enumerator then [Op(M.IMM), Arg(s.value)]
    else if s.class_ == Local then [Op(M.LEA), Arg(ToWord(g.indexOfBp - Signed(s.value))), Op(LoadOp(s.type_))]
    else [Op(M.IMM), Arg(s.value), Op(LoadOp(s.type_))]
  }

  function CallTail(s: Symbol, n: nat): Code {
    (if s.class_ == Library then [Op(s.value)] else [Op(M.CALL), Arg(s.value)])
    + if n > 0 then [Op(M.ADJ), Arg(ToWord(n))] else []
  }

  function ExprCode(g: Scope, e: Expr): Code
    decreases e, 0
  {
    match e
    case Num(v) => [Op(M.IMM), Arg(v)]
    case NegNum(v) => [Op(M.IMM), Arg(ToWord(-(v as int)))]
    case Str(a) => [Op(M.IMM), Arg(a)]
    case SizeOf(c, n) => [Op(M.IMM), Arg(if TypeName(c, n) == CHAR_TYPE then 1 else 4)]
    case Ident(x) => IdentCode(g, x)
    case Call(x, args) => ArgsCode(g, args) + CallTail(Lookup(g, x), Count(args))
    case Cast(_, _, e) => ExprCode(g, e)
    case Deref(e) => ExprCode(g, e) + [Op(LoadOp(TypeOf(g, e) - PTR_TYPE))]
    case AddressOf(e) => DropLast(ExprCode(g, e))
    case Unary(op, e) =>
      if op == Not then ExprCode(g, e) + [Op(M.PUSH), Op(M.IMM), Arg(0), Op(M.EQ)]
      else if op == Complement then ExprCode(g, e) + [Op(M.PUSH), Op(M.IMM), Arg(0xFFFF_FFFF), Op(M.XOR)]
      else if op == Plus then ExprCode(g, e)
      else [Op(M.IMM), Arg(0xFFFF_FFFF), Op(M.PUSH)] + ExprCode(g, e) + [Op(M.MUL)]
    case PreStep(up, e) =>
      var c := ExprCode(g, e);
      DropLast(c) + StepCode(LastWord(c), TypeOf(g, e), up)
    case PostStep(up, e) =>
      var c := ExprCode(g, e);
      DropLast(c) + StepCode(LastWord(c), TypeOf(g, e), up) + UndoStep(TypeOf(g, e), up)
    case Index(e, i) =>
      ExprCode(g, e) + [Op(M.PUSH)] + ExprCode(g, i) + Scale(TypeOf(g, e))
      + [Op(M.ADD), Op(LoadOp(TypeOf(g, e) - PTR_TYPE))]
    case Assign(l, r) => DropLast(ExprCode(g, l)) + [Op(M.PUSH)] + ExprCode(g, r) + [Op(StoreOp(TypeOf(g, l)))]
    case Conditional(c, a, b) => BranchCode(ExprCode(g, c), ExprCode(g, a), ExprCode(g, b))
    case LogicalOr(a, b) => ShortCode(M.JNZ, ExprCode(g, a), ExprCode(g, b))
    case LogicalAnd(a, b) => ShortCode(M.JZ, ExprCode(g, a), ExprCode(g, b))
    case Binary(op, a, b) =>
      ExprCode(g, a) + [Op(M.PUSH)] + ExprCode(g, b) + BinaryTail(op, TypeOf(g, a), TypeOf(g, b))
  }

  // Every argument is pushed as soon as it is computed, the first one first.
  function ArgsCode(g: Scope, args: List<Expr>): Code
    decreases args, 1
  {
    match args
    case Nil => []
    case Cons(e, rest) => ExprCode(g, e) + [Op(M.PUSH)] + ArgsCode(g, rest)
  }

  // c; JZ else; a; JMP end; else: b; end:
  function BranchCode(c: Code, a: Code, b: Code): Code {
    c + [Op(M.JZ), Rel(|a| + 3)] + a + [Op(M.JMP), Rel(|b| + 1)] + b
  }

  // a; jump end; b; end:
  function ShortCode(jump: Word, a: Code, b: Code): Code {
    a + [Op(jump), Rel(|b| + 1)] + b
  }

  // ----- statements and functions -----

  function StmtCode(g: Scope, s: Stmt): Code
    decreases s, 0
  {
    match s
    case If(c, s) => ShortCode(M.JZ, ExprCode(g, c), StmtCode(g, s))
    case IfElse(c, s, t) => BranchCode(ExprCode(g, c), StmtCode(g, s), StmtCode(g, t))
    case While(c, s) => LoopCode(ExprCode(g, c), StmtCode(g, s))
    case Block(ss) => StmtsCode(g, ss)
    case Return => [Op(M.LEV)]
    case ReturnValue(e) => ExprCode(g, e) + [Op(M.LEV)]
    case Empty => []
    case Evaluate(e) => ExprCode(g, e)
  }

  function StmtsCode(g: Scope, ss: List<Stmt>): Code
    decreases ss, 1
  {
    match ss
    case Nil => []
    case Cons(s, rest) => StmtCode(g, s) + StmtsCode(g, rest)
  }

  // top: c; JZ end; body; JMP top; end:
  function LoopCode(c: Code, body: Code): Code {
    c + [Op(M.JZ), Rel(|body| + 3)] + body + [Op(M.JMP), Rel(-(|c| + 2 + |body| + 1))]
  }

  // A function: the names its body sees, its numbers of parameters and locals, its body.
  datatype Routine = Routine(scope: Scope, params: nat, locals: nat, body: List<Stmt>)

  function FunctionCode(g: Scope, locals: nat, body: List<Stmt>): Code {
    [Op(M.ENT), Arg(ToWord(locals))] + StmtsCode(g, body) + [Op(M.LEV)]
  }
}
