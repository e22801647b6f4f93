/**
 * The meaning of the language: an evaluator on syntax trees and the program's own memory.
 *
 * The evaluator knows the stack only as the place where frames are allocated: `sp` is the
 * lowest used stack address, because the addresses of parameters and locals are visible
 * to the program through `&`. It has no code, no temporaries and no return addresses.
 * `Stuck` is every run the language gives no meaning to: undefined arithmetic, access
 * outside the memory the program owns, reading a byte never written, a call with the
 * wrong number of arguments, or running out of stack or of `fuel`.
 */
module Semantics {
  import opened Words
  import opened Syntax
  import opened Codegen
  import M = Machine

  // The addresses the program may write, and the bytes it has written so far.
  datatype UserMemory = UserMemory(own: set<int>, val: Memory)

  datatype State = State(ax: Word, mem: UserMemory)

  // Functions by entry address, and the lowest address of the stack.
  datatype Program = Program(funs: map<Word, Routine>, limit: int)

  datatype Result = Done(st: State) | Stuck

  datatype ArgsResult = Values(vs: seq<Word>, st: State) | NoValues

  datatype Effect = Normal(st: State) | Returned(st: State) | Undefined

  // ----- memory -----

  function LoadAt(op: Word, m: UserMemory, a: Word): Option<Word> {
    if op == M.LC then if a in m.val then Some(SignExtend(m.val[a])) else None
    else if HasWord(m.val, a) then Some(LoadWord(m.val, a)) else None
  }

  predicate OwnsWord(m: UserMemory, a: int) {
    a in m.own && a + 1 in m.own && a + 2 in m.own && a + 3 in m.own
  }

  // Storing a character leaves the stored character, sign extended, as the value.
  function StoreAt(op: Word, m: UserMemory, a: Word, v: Word): (r: Result)
    ensures r.Done? ==> r.st.mem.own == m.own
  {
    if op == M.SC then
      if a in m.own then Done(State(SignExtend(v % 256), m.(val := m.val[a := v % 256]))) else Stuck
    else
      if OwnsWord(m, a) then Done(State(v, m.(val := StoreWord(m.val, a, v)))) else Stuck
  }

  function Range(lo: int, hi: int): (r: set<int>)
    ensures forall a :: a in r <==> lo <= a < hi
    decreases hi - lo
  {
    if hi <= lo then {} else Range(lo, hi - 1) + {hi - 1}
  }

  // Bytes of the arguments, the first one at the highest address.
  function WithArgs(val: Memory, sp: int, vs: seq<Word>): Memory
    decreases |vs|
  {
    if |vs| == 0 then val else WithArgs(StoreWord(val, sp - 4, vs[0]), sp - 4, vs[1..])
  }

  // Entering a function: the argument slots below `sp`, two words the program does not
  // see, and the locals below them.
  function Enter(m: UserMemory, sp: int, vs: seq<Word>, locals: nat): UserMemory {
    var bp := FrameBase(sp, |vs|);
    UserMemory(m.own + Range(sp - 4 * |vs|, sp) + Range(bp - 4 * locals, bp), WithArgs(m.val, sp, vs))
  }

  function FrameBase(sp: int, args: nat): int {
    sp - 4 * args - 8
  }

  // Leaving a function: the frame is no longer the program's.
  function Leave(own: set<int>, m: UserMemory): UserMemory {
    UserMemory(own, map a | a in m.val && a in own :: m.val[a])
  }

  // ----- arithmetic -----

  // A step of ++ or --; pointers other than `char *` move by a word.
  function Moved(v: Word, t: int, up: bool): Word {
    var size := if t > PTR_TYPE then 4 else 1;
    if up then ToWord(v + size) else ToWord(v - size)
  }

  // An index as a number of bytes, for a pointer of type `t`.
  function Scaled(t: int, v: Word): int {
    if t > PTR_TYPE then 4 * v else v
  }

  // The value of a binary operator; the type of the left operand decides about scaling. None
  // where C leaves the result undefined.
  function BinaryValue(op: BinOp, ta: int, tb: int, a: Word, b: Word): Option<Word> {
    if op == BAdd then Some(ToWord(a + Scaled(ta, b)))
    else if op == BSub then
      if ta > PTR_TYPE && ta == tb then Some(ToWord(TruncDiv(Signed(ToWord(a - b)), 4)))
      else Some(ToWord(a - Scaled(ta, b)))
    else PlainValue(op, a, b)
  }

  // The operators that look at no type: on signed numbers, modulo 2^32.
  function PlainValue(op: BinOp, a: Word, b: Word): Option<Word> {
    var x, y := Signed(a), Signed(b);
    match op
    case BOr => Some(BitwiseWord(BitOr, a, b))
    case BXor => Some(BitwiseWord(BitXor, a, b))
    case BAnd => Some(BitwiseWord(BitAnd, a, b))
    case BEq => Some(if x == y then 1 else 0)
    case BNe => Some(if x == y then 0 else 1)
    case BLt => Some(if x < y then 1 else 0)
    case BGt => Some(if y < x then 1 else 0)
    case BLe => Some(if y < x then 0 else 1)
    case BGe => Some(if x < y then 0 else 1)
    case BShl => if 0 <= y < 32 then Some(ToWord(x * Pow2(y))) else None
    case BShr => if 0 <= y < 32 then Some(ToWord(x / Pow2(y))) else None
    case BAdd => Some(ToWord(x + y))
    case BSub => Some(ToWord(x - y))
    case BMul => Some(ToWord(x * y))
    case BDiv => if y == 0 || (x == -0x8000_0000 && y == -1) then None else Some(ToWord(TruncDiv(x, y)))
    case BMod => if y == 0 || (x == -0x8000_0000 && y == -1) then None else Some(ToWord(TruncMod(x, y)))
  }

  function LocalAddress(g: Scope, bp: int, x: nat): Word {
    ToWord(bp + 4 * Signed(ToWord(g.indexOfBp - Signed(Lookup(g, x).value))))
  }

  // Stack words needed for a binary operator besides its operands.
  predicate Room(p: Program, sp: int, words: int) {
    sp - 4 * words >= p.limit
  }

  function Depth(t: int): int {
    if t > PTR_TYPE then 2 else 1
  }

  // ----- expressions -----

  function Eval(p: Program, g: Scope, fuel: nat, bp: int, sp: int, e: Expr, st: State): (r: Result)
    ensures r.Done? ==> r.st.mem.own == st.mem.own
    decreases fuel, e, 3
  {
    match e
    case Num(v) => Done(st.(ax := v))
    case NegNum(v) => Done(st.(ax := ToWord(-(v as int))))
    case Str(a) => Done(st.(ax := a))
    case SizeOf(c, n) => Done(st.(ax := if TypeName(c, n) == CHAR_TYPE then 1 else 4))
    case Ident(x) =>
      if Lookup(g, x).class_ == Enumerator then Done(st.(ax := Lookup(g, x).value))
      else EvalLoad(p, g, fuel, bp, sp, e, st)
    case Deref(_) => EvalLoad(p, g, fuel, bp, sp, e, st)
    case Index(_, _) => EvalLoad(p, g, fuel, bp, sp, e, st)
    case Call(x, args) =>
      var entry := Lookup(g, x).value;
      if Lookup(g, x).class_ != Function || entry !in p.funs || Count(args) != p.funs[entry].params || fuel == 0
      then Stuck else
      (match EvalArgs(p, g, fuel, bp, sp, args, st)
       case NoValues => Stuck
       case Values(vs, st1) => CallFunction(p, fuel - 1, p.funs[entry], sp, vs, st1))
    case Cast(_, _, e) => Eval(p, g, fuel, bp, sp, e, st)
    case AddressOf(e) => EvalAddress(p, g, fuel, bp, sp, e, st)
    case Unary(op, e) =>
      if op == Negate then
        if !Room(p, sp, 1) then Stuck else
        (match Eval(p, g, fuel, bp, sp - 4, e, st.(ax := 0xFFFF_FFFF))
         case Stuck => Stuck
         case Done(st1) => Done(st1.(ax := ToWord(-(st1.ax as int)))))
      else
        (match Eval(p, g, fuel, bp, sp, e, st)
         case Stuck => Stuck
         case Done(st1) =>
           if op == Plus then Done(st1)
           else if !Room(p, sp, 1) then Stuck
           else if op == Not then Done(st1.(ax := if st1.ax == 0 then 1 else 0))
           else Done(st1.(ax := 0xFFFF_FFFF - st1.ax)))
    case PreStep(up, e) => EvalStep(p, g, fuel, bp, sp, up, e, st)
    case PostStep(up, e) =>
      // the old value is recovered from the stored one
      (match EvalStep(p, g, fuel, bp, sp, up, e, st)
       case Stuck => Stuck
       case Done(st1) => Done(st1.(ax := Moved(st1.ax, TypeOf(g, e), !up))))
    case Assign(l, r) =>
      if !Room(p, sp, 1) then Stuck else
      (match EvalAddress(p, g, fuel, bp, sp, l, st)
       case Stuck => Stuck
       case Done(st1) =>
         match Eval(p, g, fuel, bp, sp - 4, r, st1)
         case Stuck => Stuck
         case Done(st2) => StoreAt(StoreOp(TypeOf(g, l)), st2.mem, st1.ax, st2.ax))
    case Conditional(c, a, b) =>
      (match Eval(p, g, fuel, bp, sp, c, st)
       case Stuck => Stuck
       case Done(st1) => Eval(p, g, fuel, bp, sp, if st1.ax != 0 then a else b, st1))
    case LogicalOr(a, b) =>
      (match Eval(p, g, fuel, bp, sp, a, st)
       case Stuck => Stuck
       case Done(st1) => if st1.ax != 0 then Done(st1) else Eval(p, g, fuel, bp, sp, b, st1))
    case LogicalAnd(a, b) =>
      (match Eval(p, g, fuel, bp, sp, a, st)
       case Stuck => Stuck
       case Done(st1) => if st1.ax == 0 then Done(st1) else Eval(p, g, fuel, bp, sp, b, st1))
    case Binary(op, a, b) =>
      var ta, tb := TypeOf(g, a), TypeOf(g, b);
      (match EvalPair(p, g, fuel, bp, sp, e, a, b, st)
       case NoValues => Stuck
       case Values(vs, st1) =>
         if |vs| != 2 || (op in {BAdd, BSub} && !Room(p, sp, Depth(ta))) then Stuck else
         match BinaryValue(op, ta, tb, vs[0], vs[1])
         case None => Stuck
         case Some(v) => Done(st1.(ax := v)))
  }

  // Both operands of an operator, the left one kept on the stack meanwhile.
  function EvalPair(p: Program, g: Scope, fuel: nat, bp: int, sp: int, e: Expr, a: Expr, b: Expr,
                    st: State): (r: ArgsResult)
    requires a < e && b < e
    ensures r.Values? ==> |r.vs| == 2 && r.st.ax == r.vs[1] && r.st.mem.own == st.mem.own
    decreases fuel, e, 0
  {
    if !Room(p, sp, 1) then NoValues else
    match Eval(p, g, fuel, bp, sp, a, st)
    case Stuck => NoValues
    case Done(st1) =>
      match Eval(p, g, fuel, bp, sp - 4, b, st1)
      case Stuck => NoValues
      case Done(st2) => Values([st1.ax, st2.ax], st2)
  }

  // The value at the address an lvalue denotes.
  function EvalLoad(p: Program, g: Scope, fuel: nat, bp: int, sp: int, e: Expr, st: State): (r: Result)
    ensures r.Done? ==> r.st.mem.own == st.mem.own
    decreases fuel, e, 2
  {
    match EvalAddress(p, g, fuel, bp, sp, e, st)
    case Stuck => Stuck
    case Done(st1) =>
      match LoadAt(LoadOp(TypeOf(g, e)), st1.mem, st1.ax)
      case None => Stuck
      case Some(v) => Done(st1.(ax := v))
  }

  // The address an lvalue denotes.
  function EvalAddress(p: Program, g: Scope, fuel: nat, bp: int, sp: int, e: Expr, st: State): (r: Result)
    ensures r.Done? ==> r.st.mem.own == st.mem.own
    decreases fuel, e, 1
  {
    match e
    case Ident(x) =>
      if Lookup(g, x).class_ == Local then Done(st.(ax := LocalAddress(g, bp, x)))
      else if Lookup(g, x).class_ == Global then Done(st.(ax := Lookup(g, x).value))
      else Stuck
    case Deref(e) => Eval(p, g, fuel, bp, sp, e, st)
    case Index(a, i) =>
      (match EvalPair(p, g, fuel, bp, sp, e, a, i, st)
       case NoValues => Stuck
       case Values(vs, st1) =>
         if !Room(p, sp, Depth(TypeOf(g, a))) then Stuck
         else Done(st1.(ax := ToWord(vs[0] + Scaled(TypeOf(g, a), vs[1])))))
    case _ => Stuck
  }

  // ++ and --, leaving the stored value.
  function EvalStep(p: Program, g: Scope, fuel: nat, bp: int, sp: int, up: bool, e: Expr, st: State): (r: Result)
    ensures r.Done? ==> r.st.mem.own == st.mem.own
    decreases fuel, e, 2
  {
    if !Room(p, sp, 2) then Stuck else
    var t := TypeOf(g, e);
    match EvalAddress(p, g, fuel, bp, sp, e, st)
    case Stuck => Stuck
    case Done(st1) =>
      match LoadAt(LoadOp(t), st1.mem, st1.ax)
      case None => Stuck
      case Some(v) => StoreAt(StoreOp(t), st1.mem, st1.ax, Moved(v, t, up))
  }

  // The arguments of a call, each one kept on the stack while the next is evaluated.
  function EvalArgs(p: Program, g: Scope, fuel: nat, bp: int, sp: int, args: List<Expr>, st: State): (r: ArgsResult)
    ensures r.Values? ==> |r.vs| == Count(args) && r.st.mem.own == st.mem.own
    decreases fuel, args, 0
  {
    match args
    case Nil => Values([], st)
    case Cons(e, rest) =>
      if !Room(p, sp, 1) then NoValues else
      match Eval(p, g, fuel, bp, sp, e, st)
      case Stuck => NoValues
      case Done(st1) =>
        match EvalArgs(p, g, fuel, bp, sp - 4, rest, st1)
        case NoValues => NoValues
        case Values(vs, st2) => Values([st1.ax] + vs, st2)
  }

  // A call whose arguments, evaluated at `sp`, are `vs`.
  function CallFunction(p: Program, fuel: nat, f: Routine, sp: int, vs: seq<Word>, st: State): (r: Result)
    ensures r.Done? ==> r.st.mem.own == st.mem.own
    decreases fuel, f.body, 2
  {
    var bp := FrameBase(sp, |vs|);
    if bp - 4 * f.locals < p.limit then Stuck else
    match ExecAll(p, f.scope, fuel, bp, bp - 4 * f.locals, f.body, State(st.ax, Enter(st.mem, sp, vs, f.locals)))
    case Undefined => Stuck
    case Normal(st1) => Done(State(st1.ax, Leave(st.mem.own, st1.mem)))
    case Returned(st1) => Done(State(st1.ax, Leave(st.mem.own, st1.mem)))
  }

  // ----- statements -----

  function Exec(p: Program, g: Scope, fuel: nat, bp: int, sp: int, s: Stmt, st: State): (r: Effect)
    ensures !r.Undefined? ==> r.st.mem.own == st.mem.own
    decreases fuel, s, 0
  {
    match s
    case Empty => Normal(st)
    case Return => Returned(st)
    case Evaluate(e) =>
      (match Eval(p, g, fuel, bp, sp, e, st) case Stuck => Undefined case Done(st1) => Normal(st1))
    case ReturnValue(e) =>
      (match Eval(p, g, fuel, bp, sp, e, st) case Stuck => Undefined case Done(st1) => Returned(st1))
    case If(c, s) =>
      (match Eval(p, g, fuel, bp, sp, c, st)
       case Stuck => Undefined
       case Done(st1) => if st1.ax != 0 then Exec(p, g, fuel, bp, sp, s, st1) else Normal(st1))
    case IfElse(c, s, t) =>
      (match Eval(p, g, fuel, bp, sp, c, st)
       case Stuck => Undefined
       case Done(st1) => Exec(p, g, fuel, bp, sp, if st1.ax != 0 then s else t, st1))
    case While(c, body) =>
      if fuel == 0 then Undefined else
      (match Eval(p, g, fuel - 1, bp, sp, c, st)
       case Stuck => Undefined
       case Done(st1) =>
         if st1.ax == 0 then Normal(st1) else
         match Exec(p, g, fuel - 1, bp, sp, body, st1)
         case Undefined => Undefined
         case Returned(st2) => Returned(st2)
         case Normal(st2) => Exec(p, g, fuel - 1, bp, sp, s, st2))
    case Block(ss) => ExecAll(p, g, fuel, bp, sp, ss, st)
  }

  function ExecAll(p: Program, g: Scope, fuel: nat, bp: int, sp: int, ss: List<Stmt>, st: State): (r: Effect)
    ensures !r.Undefined? ==> r.st.mem.own == st.mem.own
    decreases fuel, ss, 1
  {
    match ss
    case Nil => Normal(st)
    case Cons(s, rest) =>
      match Exec(p, g, fuel, bp, sp, s, st)
      case Undefined => Undefined
      case Returned(st1) => Returned(st1)
      case Normal(st1) => ExecAll(p, g, fuel, bp, sp, rest, st1)
  }
}
