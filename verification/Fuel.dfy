/**
 * The meaning of a program does not depend on the fuel it is evaluated with: once there
 * is enough of it, more changes nothing.
 */
module Fuel {
  import opened Words
  import opened Syntax
  import opened Codegen
  import opened Semantics

  lemma {:induction false} EvalMore(p: Program, g: Scope, fuel: nat, bp: int, sp: int, e: Expr, st: State)
    requires Eval(p, g, fuel, bp, sp, e, st).Done?
    ensures Eval(p, g, fuel + 1, bp, sp, e, st) == Eval(p, g, fuel, bp, sp, e, st)
    decreases fuel, e, 3
  {
    hide EvalAddress, EvalLoad, EvalStep, EvalPair, EvalArgs, CallFunction, TypeOf, StoreAt, BinaryValue, Room, ToWord,
         Moved, Depth;
    match e
    case Num(_) =>
    case NegNum(_) =>
    case Str(_) =>
    case SizeOf(_, _) =>
    case Ident(x) => if Lookup(g, x).class_ != Enumerator { LoadMore(p, g, fuel, bp, sp, e, st); }
    case Deref(_) => LoadMore(p, g, fuel, bp, sp, e, st);
    case Index(_, _) => LoadMore(p, g, fuel, bp, sp, e, st);
    case Call(x, args) =>
      ArgsMore(p, g, fuel, bp, sp, args, st);
      var r := EvalArgs(p, g, fuel, bp, sp, args, st);
      CallMore(p, fuel - 1, p.funs[Lookup(g, x).value], sp, r.vs, r.st);
    case Cast(_, _, d) => EvalMore(p, g, fuel, bp, sp, d, st);
    case AddressOf(d) => AddressMore(p, g, fuel, bp, sp, d, st);
    case Unary(op, d) =>
      if op == Negate {
        EvalMore(p, g, fuel, bp, sp - 4, d, st.(ax := 0xFFFF_FFFF));
      } else {
        EvalMore(p, g, fuel, bp, sp, d, st);
      }
    case PreStep(up, d) => StepMore(p, g, fuel, bp, sp, up, d, st);
    case PostStep(up, d) => StepMore(p, g, fuel, bp, sp, up, d, st);
    case Assign(l, r) =>
      AddressMore(p, g, fuel, bp, sp, l, st);
      EvalMore(p, g, fuel, bp, sp - 4, r, EvalAddress(p, g, fuel, bp, sp, l, st).st);
    case Conditional(c, a, b) =>
      EvalMore(p, g, fuel, bp, sp, c, st);
      var st1 := Eval(p, g, fuel, bp, sp, c, st).st;
      EvalMore(p, g, fuel, bp, sp, if st1.ax != 0 then a else b, st1);
    case LogicalOr(a, b) =>
      EvalMore(p, g, fuel, bp, sp, a, st);
      var st1 := Eval(p, g, fuel, bp, sp, a, st).st;
      if st1.ax == 0 { EvalMore(p, g, fuel, bp, sp, b, st1); }
    case LogicalAnd(a, b) =>
      EvalMore(p, g, fuel, bp, sp, a, st);
      var st1 := Eval(p, g, fuel, bp, sp, a, st).st;
      if st1.ax != 0 { EvalMore(p, g, fuel, bp, sp, b, st1); }
    case Binary(_, a, b) => PairMore(p, g, fuel, bp, sp, e, a, b, st);
  }

  lemma {:induction false} PairMore(p: Program, g: Scope, fuel: nat, bp: int, sp: int, e: Expr, a: Expr, b: Expr,
                                    st: State)
    requires a < e && b < e && EvalPair(p, g, fuel, bp, sp, e, a, b, st).Values?
    ensures EvalPair(p, g, fuel + 1, bp, sp, e, a, b, st) == EvalPair(p, g, fuel, bp, sp, e, a, b, st)
    decreases fuel, e, 0
  {
    hide Eval;
    EvalMore(p, g, fuel, bp, sp, a, st);
    EvalMore(p, g, fuel, bp, sp - 4, b, Eval(p, g, fuel, bp, sp, a, st).st);
  }

  lemma {:induction false} LoadMore(p: Program, g: Scope, fuel: nat, bp: int, sp: int, e: Expr, st: State)
    requires EvalLoad(p, g, fuel, bp, sp, e, st).Done?
    ensures EvalLoad(p, g, fuel + 1, bp, sp, e, st) == EvalLoad(p, g, fuel, bp, sp, e, st)
    decreases fuel, e, 2
  {
    hide EvalAddress, LoadAt;
    AddressMore(p, g, fuel, bp, sp, e, st);
  }

  lemma {:induction false} AddressMore(p: Program, g: Scope, fuel: nat, bp: int, sp: int, e: Expr, st: State)
    requires EvalAddress(p, g, fuel, bp, sp, e, st).Done?
    ensures EvalAddress(p, g, fuel + 1, bp, sp, e, st) == EvalAddress(p, g, fuel, bp, sp, e, st)
    decreases fuel, e, 1
  {
    hide Eval, EvalPair;
    match e
    case Ident(_) =>
    case Deref(d) => EvalMore(p, g, fuel, bp, sp, d, st);
    case Index(a, i) => PairMore(p, g, fuel, bp, sp, e, a, i, st);
  }

  lemma {:induction false} StepMore(p: Program, g: Scope, fuel: nat, bp: int, sp: int, up: bool, e: Expr, st: State)
    requires EvalStep(p, g, fuel, bp, sp, up, e, st).Done?
    ensures EvalStep(p, g, fuel + 1, bp, sp, up, e, st) == EvalStep(p, g, fuel, bp, sp, up, e, st)
    decreases fuel, e, 2
  {
    hide EvalAddress, LoadAt, StoreAt;
    AddressMore(p, g, fuel, bp, sp, e, st);
  }

  lemma {:induction false} ArgsMore(p: Program, g: Scope, fuel: nat, bp: int, sp: int, args: List<Expr>, st: State)
    requires EvalArgs(p, g, fuel, bp, sp, args, st).Values?
    ensures EvalArgs(p, g, fuel + 1, bp, sp, args, st) == EvalArgs(p, g, fuel, bp, sp, args, st)
    decreases fuel, args, 0
  {
    hide Eval;
    match args
    case Nil =>
    case Cons(e, rest) =>
      EvalMore(p, g, fuel, bp, sp, e, st);
      ArgsMore(p, g, fuel, bp, sp - 4, rest, Eval(p, g, fuel, bp, sp, e, st).st);
  }

  lemma {:induction false} CallMore(p: Program, fuel: nat, f: Routine, sp: int, vs: seq<Word>, st: State)
    requires CallFunction(p, fuel, f, sp, vs, st).Done?
    ensures CallFunction(p, fuel + 1, f, sp, vs, st) == CallFunction(p, fuel, f, sp, vs, st)
    decreases fuel, f.body, 2
  {
    hide ExecAll, Enter, Leave;
    var bp := FrameBase(sp, |vs|);
    ExecAllMore(p, f.scope, fuel, bp, bp - 4 * f.locals, f.body, State(st.ax, Enter(st.mem, sp, vs, f.locals)));
  }

  lemma {:induction false} ExecMore(p: Program, g: Scope, fuel: nat, bp: int, sp: int, s: Stmt, st: State)
    requires !Exec(p, g, fuel, bp, sp, s, st).Undefined?
    ensures Exec(p, g, fuel + 1, bp, sp, s, st) == Exec(p, g, fuel, bp, sp, s, st)
    decreases fuel, s, 0
  {
    hide Eval, ExecAll;
    match s
    case Empty =>
    case Return =>
    case Evaluate(e) => EvalMore(p, g, fuel, bp, sp, e, st);
    case ReturnValue(e) => EvalMore(p, g, fuel, bp, sp, e, st);
    case If(c, s1) =>
      EvalMore(p, g, fuel, bp, sp, c, st);
      var st1 := Eval(p, g, fuel, bp, sp, c, st).st;
      if st1.ax != 0 { ExecMore(p, g, fuel, bp, sp, s1, st1); }
    case IfElse(c, s1, s2) =>
      EvalMore(p, g, fuel, bp, sp, c, st);
      var st1 := Eval(p, g, fuel, bp, sp, c, st).st;
      ExecMore(p, g, fuel, bp, sp, if st1.ax != 0 then s1 else s2, st1);
    case While(c, body) =>
      EvalMore(p, g, fuel - 1, bp, sp, c, st);
      var st1 := Eval(p, g, fuel - 1, bp, sp, c, st).st;
      if st1.ax != 0 {
        ExecMore(p, g, fuel - 1, bp, sp, body, st1);
        var r := Exec(p, g, fuel - 1, bp, sp, body, st1);
        if r.Normal? { ExecMore(p, g, fuel - 1, bp, sp, s, r.st); }
      }
    case Block(ss) => ExecAllMore(p, g, fuel, bp, sp, ss, st);
  }

  lemma {:induction false} ExecAllMore(p: Program, g: Scope, fuel: nat, bp: int, sp: int, ss: List<Stmt>, st: State)
    requires !ExecAll(p, g, fuel, bp, sp, ss, st).Undefined?
    ensures ExecAll(p, g, fuel + 1, bp, sp, ss, st) == ExecAll(p, g, fuel, bp, sp, ss, st)
    decreases fuel, ss, 1
  {
    hide Exec;
    match ss
    case Nil =>
    case Cons(s, rest) =>
      ExecMore(p, g, fuel, bp, sp, s, st);
      var r := Exec(p, g, fuel, bp, sp, s, st);
      if r.Normal? { ExecAllMore(p, g, fuel, bp, sp, rest, r.st); }
  }

  // Two runs of a call that both end, end the same.
  lemma {:induction false} CallIsUnique(p: Program, fuel: nat, more: nat, f: Routine, sp: int, vs: seq<Word>, st: State)
    requires CallFunction(p, fuel, f, sp, vs, st).Done? && fuel <= more
    ensures CallFunction(p, more, f, sp, vs, st) == CallFunction(p, fuel, f, sp, vs, st)
    decreases more
  {
    hide CallFunction;
    if fuel < more {
      CallIsUnique(p, fuel, more - 1, f, sp, vs, st);
      CallMore(p, more - 1, f, sp, vs, st);
    }
  }

  // e++ and e-- recover the old value from the stored one. That is the old value exactly
  // when the step does not leave the range of a character.
  lemma PostStepValue(p: Program, g: Scope, fuel: nat, bp: int, sp: int, up: bool, e: Expr, st: State, v: Word)
    requires Eval(p, g, fuel, bp, sp, PostStep(up, e), st).Done? && EvalAddress(p, g, fuel, bp, sp, e, st).Done?
    requires var st1 := EvalAddress(p, g, fuel, bp, sp, e, st).st; LoadAt(LoadOp(TypeOf(g, e)), st1.mem, st1.ax) == Some(v)
    ensures var r := Eval(p, g, fuel, bp, sp, PostStep(up, e), st).st;
      r.ax == v <==> TypeOf(g, e) != CHAR_TYPE || -128 <= Signed(v) + (if up then 1 else -1) <= 127
  {
    var st1 := EvalAddress(p, g, fuel, bp, sp, e, st).st;
    var t := TypeOf(g, e);
    var w := Moved(v, t, up);
    var stored := EvalStep(p, g, fuel, bp, sp, up, e, st).st.ax;
    assert Eval(p, g, fuel, bp, sp, PostStep(up, e), st).st.ax == Moved(stored, t, !up) by { hide EvalStep, Moved, ToWord; }
    assert EvalStep(p, g, fuel, bp, sp, up, e, st) == StoreAt(StoreOp(t), st1.mem, st1.ax, w) by {
      hide Eval, EvalAddress, Moved, ToWord;
    }
    hide Eval, EvalAddress, EvalStep, TypeOf;
    if t == CHAR_TYPE {
      CharStep(st1.mem.val[st1.ax], up);
    } else {
      WordStep(v, t, up);
    }
  }

  lemma WordStep(v: Word, t: int, up: bool)
    ensures Moved(Moved(v, t, up), t, !up) == v
  {
  }

  // For a local character `x`: `x++` at 127 has the value -129 and leaves -128, and `x--` at
  // -128 has the value 128 and leaves 127.
  lemma CharEdges(p: Program, g: Scope, fuel: nat, bp: int, sp: int, x: nat, st: State)
    requires Lookup(g, x).class_ == Local && Lookup(g, x).type_ == CHAR_TYPE && Room(p, sp, 2)
    requires LocalAddress(g, bp, x) in st.mem.own && LocalAddress(g, bp, x) in st.mem.val
    ensures st.mem.val[LocalAddress(g, bp, x)] == 127 ==>
      var r := Eval(p, g, fuel, bp, sp, PostStep(true, Ident(x)), st);
      r.Done? && Signed(r.st.ax) == -129 && r.st.mem.val == st.mem.val[LocalAddress(g, bp, x) := 128]
    ensures st.mem.val[LocalAddress(g, bp, x)] == 128 ==>
      var r := Eval(p, g, fuel, bp, sp, PostStep(false, Ident(x)), st);
      r.Done? && Signed(r.st.ax) == 128 && r.st.mem.val == st.mem.val[LocalAddress(g, bp, x) := 127]
  {
    var b := st.mem.val[LocalAddress(g, bp, x)];
    StepsOfByte(b);
    StepsOfByte(if b == 127 then 128 else 127);
    CharPost(p, g, fuel, bp, sp, true, x, st);
    CharPost(p, g, fuel, bp, sp, false, x, st);
    hide Eval, LocalAddress, Moved, Lookup;
  }

  // The value of a postfix step on a local character, and the byte it leaves.
  lemma CharPost(p: Program, g: Scope, fuel: nat, bp: int, sp: int, up: bool, x: nat, st: State)
    requires Lookup(g, x).class_ == Local && Lookup(g, x).type_ == CHAR_TYPE && Room(p, sp, 2)
    requires LocalAddress(g, bp, x) in st.mem.own && LocalAddress(g, bp, x) in st.mem.val
    ensures var a := LocalAddress(g, bp, x);
      var stored := Moved(SignExtend(st.mem.val[a]), CHAR_TYPE, up) % 256;
      Eval(p, g, fuel, bp, sp, PostStep(up, Ident(x)), st)
        == Done(State(Moved(SignExtend(stored), CHAR_TYPE, !up), st.mem.(val := st.mem.val[a := stored])))
  {
    hide LocalAddress, Moved, SignExtend, Lookup;
    var a := LocalAddress(g, bp, x);
    assert TypeOf(g, Ident(x)) == CHAR_TYPE;
    assert EvalAddress(p, g, fuel, bp, sp, Ident(x), st) == Done(st.(ax := a));
    assert LoadAt(LoadOp(CHAR_TYPE), st.mem, a) == Some(SignExtend(st.mem.val[a]));
    assert EvalStep(p, g, fuel, bp, sp, up, Ident(x), st)
        == StoreAt(StoreOp(CHAR_TYPE), st.mem, a, Moved(SignExtend(st.mem.val[a]), CHAR_TYPE, up));
    hide EvalStep;
  }

  lemma CharStep(b: Byte, up: bool)
    ensures Moved(SignExtend(Moved(SignExtend(b), CHAR_TYPE, up) % 256), CHAR_TYPE, !up) == SignExtend(b)
       <==> -128 <= Signed(SignExtend(b)) + (if up then 1 else -1) <= 127
  {
    StepsOfByte(b);
    hide ToWord, Moved;
    var b' := (b + (if up then 1 else 255)) % 256;
    assert b' == if up then (if b == 255 then 0 else b + 1) else if b == 0 then 255 else b - 1;
    StepsOfByte(b');
  }

  // The steps of a character, in the accumulator.
  lemma StepsOfByte(b: Byte)
    ensures var v := SignExtend(b);
      && Moved(v, CHAR_TYPE, true) == (if v == WORD_LIMIT - 1 then 0 else v + 1)
      && Moved(v, CHAR_TYPE, false) == (if v == 0 then WORD_LIMIT - 1 else v - 1)
      && Moved(v, CHAR_TYPE, true) % 256 == (b + 1) % 256
      && Moved(v, CHAR_TYPE, false) % 256 == (b + 255) % 256
  {
  }
}
