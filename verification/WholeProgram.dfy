/**
 * A whole program: from the text the compiler leaves behind and the stack the interpreter
 * sets up, through the main function, to the value with which the program ends.
 */
module WholeProgram {
  import opened Words
  import opened Codegen
  import opened CodeShape
  import opened Semantics
  import opened Simulation
  import opened Calls
  import opened Correctness
  import opened Interpreter
  import M = Machine

  // ----- the compiled text in memory -----

  // The words of the text area stand in memory from `base` on.
  predicate TextAt(text: Memory, base: int, words: seq<Word>) {
    forall i :: 0 <= i < |words| ==> Holds(text, base + 4 * i, words[i])
  }

  // A function compiled at some point of the text is loaded, whatever is compiled after it.
  lemma CompiledIsLoaded(text: Memory, base: int, start: seq<Word>, f: Routine, more: seq<Word>)
    requires TextAt(text, base, With(base, start, FunctionCode(f.scope, f.locals, f.body)) + more)
    ensures FunctionAt(text, base + 4 * |start|, f)
  {
    var code := FunctionCode(f.scope, f.locals, f.body);
    hide Holds, FunctionCode;
    var words := With(base, start, code) + more;
    forall i | 0 <= i < |code|
      ensures Holds(text, base + 4 * |start| + 4 * i, WordOf(base + 4 * |start| + 4 * i, code[i]))
    {
      assert words[|start| + i] == WordOf(base + 4 * |start| + 4 * i, code[i]);
      assert base + 4 * (|start| + i) == base + 4 * |start| + 4 * i;
    }
  }

  // ----- parameters -----

  // On entry, the parameter in slot p + 1 - i holds the i-th argument, and the linkage
  // words are not the program's.
  lemma ParameterIsArgument(m: UserMemory, sp: int, vs: seq<Word>, locals: nat, i: nat)
    requires i < |vs| && m.val.Keys <= m.own
    ensures var a := FrameBase(sp, |vs|) + 4 * (|vs| + 1 - i);
      var mem := Enter(m, sp, vs, locals);
      OwnsWord(mem, a) && HasWord(mem.val, a) && LoadWord(mem.val, a) == vs[i]
  {
    ArgumentStored(m.val, sp, vs, i);
  }

  lemma {:induction false} ArgumentStored(val: Memory, sp: int, vs: seq<Word>, i: nat)
    requires i < |vs|
    ensures Holds(WithArgs(val, sp, vs), sp - 4 * (i + 1), vs[i])
    ensures LoadWord(WithArgs(val, sp, vs), sp - 4 * (i + 1)) == vs[i]
    decreases |vs|
  {
    hide StoreWord, Holds, LoadWord;
    var val1, val2 := StoreWord(val, sp - 4, vs[0]), WithArgs(val, sp, vs);
    assert val2 == WithArgs(val1, sp - 4, vs[1..]);
    StoredHolds(val, sp - 4, vs[0]);
    hide WithArgs;
    if i == 0 {
      ArgumentsBelow(val1, sp - 4, vs[1..]);
      HoldsAgain(val1, val2, sp - 4, vs[0]);
    } else {
      ArgumentStored(val1, sp - 4, vs[1..], i - 1);
    }
    HoldsLoads(val2, sp - 4 * (i + 1), vs[i]);
  }

  lemma StoredHolds(m: Memory, a: int, v: Word)
    ensures Holds(StoreWord(m, a, v), a, v)
    ensures StoreWord(m, a, v).Keys == m.Keys + {a, a + 1, a + 2, a + 3}
    ensures forall b :: b in m && !(a <= b < a + 4) ==> StoreWord(m, a, v)[b] == m[b]
  {
  }

  lemma HoldsAgain(m: Memory, m': Memory, a: int, v: Word)
    requires Holds(m, a, v) && forall b :: a <= b < a + 4 ==> b in m' && (b in m ==> m'[b] == m[b])
    ensures Holds(m', a, v)
  {
  }

  // Only the slots of the arguments change.
  lemma {:induction false} ArgumentsBelow(val: Memory, sp: int, vs: seq<Word>)
    ensures WithArgs(val, sp, vs).Keys == val.Keys + Range(sp - 4 * |vs|, sp)
    ensures forall a :: a in val && !(sp - 4 * |vs| <= a < sp) ==> WithArgs(val, sp, vs)[a] == val[a]
    decreases |vs|
  {
    hide StoreWord, Holds;
    if |vs| > 0 {
      StoredHolds(val, sp - 4, vs[0]);
      ArgumentsBelow(StoreWord(val, sp - 4, vs[0]), sp - 4, vs[1..]);
    }
  }

  // ----- the main function -----

  // The words a main function with that many parameters finds in its slots.
  function MainArgs(params: nat, argc: Word, argv: Word): (vs: seq<Word>)
    requires params <= 2
    ensures |vs| == params
  {
    if params == 0 then [] else if params == 1 then [argv] else [argc, argv]
  }

  // Before the program starts: the text and the program's data are in memory, and the
  // stack area belongs to nobody.
  ghost predicate Prepared(p: Program, text: Memory, top: Word, m: Memory, data: UserMemory) {
    && 0 <= p.limit <= top - 24
    && Agree(m, text) && Agree(m, data.val)
    && data.own <= m.Keys && data.val.Keys <= data.own
    && (forall a :: a in data.own ==> a !in text && !(p.limit <= a < top))
    && (forall a :: p.limit <= a < top ==> a in m && a !in text)
  }

  lemma StartWords(m: Memory, top: Word, argc: Word, argv: Word)
    requires 24 <= top && forall a :: top - 24 <= a < top ==> a in m
    ensures var m' := StartMemory(m, top, argc, argv);
      && Holds(m', top - 4, M.EXIT) && Holds(m', top - 8, M.PUSH)
      && Holds(m', top - 12, argc) && Holds(m', top - 16, argv) && Holds(m', top - 20, top - 8)
      && m'.Keys == m.Keys && forall a :: a in m && !(top - 20 <= a < top) ==> m'[a] == m[a]
  {
    hide *;
    StartIsPushed(m, top, argc, argv);
    PushedWords(m, top, M.EXIT, M.PUSH, argc, argv, top - 8);
    StartFrame(m, top, argc, argv);
  }

  lemma PushedWords(m: Memory, top: Word, a: Word, b: Word, c: Word, d: Word, e: Word)
    ensures var m' := WithArgs(m, top, [a, b, c, d, e]);
      && Holds(m', top - 4, a) && Holds(m', top - 8, b)
      && Holds(m', top - 12, c) && Holds(m', top - 16, d) && Holds(m', top - 20, e)
  {
    hide *;
    var vs := [a, b, c, d, e];
    ArgumentStored(m, top, vs, 0);
    ArgumentStored(m, top, vs, 1);
    ArgumentStored(m, top, vs, 2);
    ArgumentStored(m, top, vs, 3);
    ArgumentStored(m, top, vs, 4);
  }

  lemma StartFrame(m: Memory, top: Word, argc: Word, argv: Word)
    requires 24 <= top && forall a :: top - 24 <= a < top ==> a in m
    ensures var m' := StartMemory(m, top, argc, argv);
      m'.Keys == m.Keys && forall a :: a in m && !(top - 20 <= a < top) ==> m'[a] == m[a]
  {
    hide *;
    StartIsPushed(m, top, argc, argv);
    ArgumentsBelow(m, top, [M.EXIT, M.PUSH, argc, argv, top - 8]);
  }

  // The loader pushes five words.
  lemma StartIsPushed(m: Memory, top: Word, argc: Word, argv: Word)
    requires 24 <= top
    ensures StartMemory(m, top, argc, argv) == WithArgs(m, top, [M.EXIT, M.PUSH, argc, argv, top - 8])
  {
    hide StoreWord;
    var m1 := StoreWord(m, top - 4, M.EXIT);
    var m2 := StoreWord(m1, top - 8, M.PUSH);
    var m3 := StoreWord(m2, top - 12, argc);
    var m4 := StoreWord(m3, top - 16, argv);
    var m5 := StoreWord(m4, top - 20, top - 8);
    PushOne(m, top, M.EXIT, [M.PUSH, argc, argv, top - 8]);
    PushOne(m1, top - 4, M.PUSH, [argc, argv, top - 8]);
    PushOne(m2, top - 8, argc, [argv, top - 8]);
    PushOne(m3, top - 12, argv, [top - 8]);
    PushOne(m4, top - 16, top - 8, []);
    assert WithArgs(m5, top - 20, []) == m5;
    hide WithArgs;
    assert [top - 8] == [top - 8] + [] && [argv, top - 8] == [argv] + [top - 8];
    assert [argc, argv, top - 8] == [argc] + [argv, top - 8];
    assert [M.PUSH, argc, argv, top - 8] == [M.PUSH] + [argc, argv, top - 8];
    assert [M.EXIT, M.PUSH, argc, argv, top - 8] == [M.EXIT] + [M.PUSH, argc, argv, top - 8];
  }

  lemma PushOne(m: Memory, sp: int, v: Word, vs: seq<Word>)
    ensures WithArgs(m, sp, [v] + vs) == WithArgs(StoreWord(m, sp - 4, v), sp - 4, vs)
  {
    assert ([v] + vs)[1..] == vs;
  }

  // The start of the main function, seen as the end of a call.
  lemma StartState(p: Program, text: Memory, top: Word, m: Memory, data: UserMemory, entry: Word, argc: Word,
                   argv: Word)
    returns (s: M.Machine)
    requires Prepared(p, text, top, m, data)
    ensures s == M.Machine(entry, top - 20, top, 0, StartMemory(m, top, argc, argv))
    ensures Sim(p, text, top, top - 20, State(0, data), s)
    ensures Holds(s.mem, top - 4, M.EXIT) && Holds(s.mem, top - 8, M.PUSH)
    ensures Holds(s.mem, top - 12, argc) && Holds(s.mem, top - 16, argv) && Holds(s.mem, top - 20, top - 8)
    ensures Unowned(text, p.limit, top, data, s.mem.Keys)
  {
    hide StartMemory, Holds;
    s := M.Machine(entry, top - 20, top, 0, StartMemory(m, top, argc, argv));
    StartWords(m, top, argc, argv);
    assert Agree(s.mem, text);
    assert Agree(s.mem, data.val);
    hide Agree;
    assert Safe(p.limit, text, top - 20, data, s.mem.Keys);
  }

  // The first instruction of the main function.
  lemma MainFirstStep(p: Program, text: Memory, top: Word, m: Memory, data: UserMemory, entry: Word, locals: nat,
                      argc: Word, argv: Word)
    returns (s: M.Machine, t: M.Machine)
    requires 24 <= top && Prepared(p, text, top, m, data) && 0 <= p.limit <= top - 24 - 4 * locals
    requires CodeAt(text, entry, [Op(M.ENT), Arg(ToWord(locals))])
    ensures s == M.Machine(entry, top - 20, top, 0, StartMemory(m, top, argc, argv))
    ensures M.Reaches(s, t) && t.pc == entry + 8 && t.bp == top - 24 && t.sp == top - 24 - 4 * locals
    ensures Sim(p, text, top, top - 24, State(0, data), t.(bp := top, sp := top - 24))
    ensures Holds(t.mem, top - 24, top) && MainStack(p, text, top, data, s.mem, t.mem, argc, argv)
  {
    hide *;
    s := StartState(p, text, top, m, data, entry, argc, argv);
    var saved;
    RoomForEntry(p, top, locals);
    t, saved := EnterStep(p, text, top, top - 20, State(0, data), s, locals);
    MainStackStands(p, text, top, data, s.mem, t.mem, argc, argv);
  }

  lemma RoomForEntry(p: Program, top: Word, locals: nat)
    requires 24 <= top && 0 <= p.limit <= top - 24 - 4 * locals
    ensures Room(p, top - 20, 1) && 0 <= (top as int) < WORD_LIMIT && locals < 0x8000_0000
  {
  }

  lemma MainStackStands(p: Program, text: Memory, top: Word, data: UserMemory, m: Memory, m': Memory, argc: Word,
                        argv: Word)
    requires 24 <= top && p.limit <= top - 20
    requires Frame(m, m', data.own, p.limit, top - 20) && Unowned(text, p.limit, top, data, m.Keys)
    requires Holds(m, top - 4, M.EXIT) && Holds(m, top - 8, M.PUSH)
    requires Holds(m, top - 12, argc) && Holds(m, top - 16, argv) && Holds(m, top - 20, top - 8)
    ensures MainStack(p, text, top, data, m, m', argc, argv)
  {
    hide Frame, Unowned, Holds;
  }

  // The words of the start stack, before and after the entry of the main function.
  ghost predicate MainStack(p: Program, text: Memory, top: Word, data: UserMemory, m: Memory, m': Memory, argc: Word,
                            argv: Word)
    requires 24 <= top
  {
    && p.limit <= top - 20 && Frame(m, m', data.own, p.limit, top - 20) && Unowned(text, p.limit, top, data, m.Keys)
    && Holds(m, top - 4, M.EXIT) && Holds(m, top - 8, M.PUSH)
    && Holds(m, top - 12, argc) && Holds(m, top - 16, argv) && Holds(m, top - 20, top - 8)
  }

  lemma MainStackKept(p: Program, text: Memory, top: Word, data: UserMemory, m: Memory, m': Memory, params: nat,
                      argc: Word, argv: Word)
    requires 24 <= top && params <= 2 && MainStack(p, text, top, data, m, m', argc, argv)
    ensures Holds(m', top - 20, top - 8) && Holds(m', top - 8, M.PUSH) && Holds(m', top - 4, M.EXIT)
    ensures Frame(m, m', data.own, p.limit, top - 16)
    ensures Unowned(text, p.limit, top - 16, data, m.Keys)
    ensures Unowned(text, top - 16, top - 16 + 4 * params, data, m.Keys)
    ensures ArgsAt(m, top - 16 + 4 * params, MainArgs(params, argc, argv))
  {
    hide ArgsAt, Holds, MainArgs;
    MainArgsAt(m, top, params, argc, argv);
    KeptAbove(text, m, m', p.limit, top, top - 20, data, top - 20, top - 8);
    KeptAbove(text, m, m', p.limit, top, top - 20, data, top - 8, M.PUSH);
    KeptAbove(text, m, m', p.limit, top, top - 20, data, top - 4, M.EXIT);
  }

  // Entering the main function: its arguments are where a call would have left them.
  lemma MainEnters(p: Program, text: Memory, top: Word, m: Memory, data: UserMemory, entry: Word, f: Routine,
                   argc: Word, argv: Word)
    returns (s: M.Machine, t: M.Machine)
    requires 24 <= top && Prepared(p, text, top, m, data) && f.params <= 2
    requires CodeAt(text, entry, [Op(M.ENT), Arg(ToWord(f.locals))])
    requires 0 <= p.limit <= top - 24 - 4 * f.locals
    ensures s == M.Machine(entry, top - 20, top, 0, StartMemory(m, top, argc, argv))
    ensures M.Reaches(s, t) && t.pc == entry + 8
    ensures var mem := Enter(data, top - 16 + 4 * f.params, MainArgs(f.params, argc, argv), f.locals);
      Sim(p, text, top - 24, top - 24 - 4 * f.locals, State(0, mem), t)
      && Linked(t.mem, mem.own, top - 24, top - 24 - 4 * f.locals, top, top - 8)
    ensures Holds(t.mem, top - 8, M.PUSH) && Holds(t.mem, top - 4, M.EXIT)
  {
    hide *;
    s, t := MainFirstStep(p, text, top, m, data, entry, f.locals, argc, argv);
    MainStackKept(p, text, top, data, s.mem, t.mem, f.params, argc, argv);
    MainFrame(p, text, top, data, s, t, MainArgs(f.params, argc, argv), f.params, f.locals);
  }

  lemma MainFrame(p: Program, text: Memory, top: Word, data: UserMemory, s: M.Machine, t: M.Machine, vs: seq<Word>,
                  params: nat, locals: nat)
    requires 24 <= top && |vs| == params && ArgsAt(s.mem, top - 16 + 4 * params, vs)
    requires Unowned(text, top - 16, top - 16 + 4 * params, data, s.mem.Keys)
    requires Unowned(text, p.limit, top - 16, data, s.mem.Keys)
    requires top - 24 - 4 * locals >= p.limit && Frame(s.mem, t.mem, data.own, p.limit, top - 16)
    requires t.bp == top - 24 && t.sp == top - 24 - 4 * locals
    requires Sim(p, text, top, top - 24, State(0, data), t.(bp := top, sp := top - 24))
    requires Holds(t.mem, top - 24, top) && Holds(t.mem, top - 20, top - 8)
    ensures var mem := Enter(data, top - 16 + 4 * params, vs, locals);
      Sim(p, text, top - 24, top - 24 - 4 * locals, State(0, mem), t)
      && Linked(t.mem, mem.own, top - 24, top - 24 - 4 * locals, top, top - 8)
  {
    var sp := top - 16 + 4 * params;
    assert FrameBase(sp, |vs|) == top - 24;
    assert sp - 4 * |vs| == top - 16;
    hide *;
    FrameEntered(p, text, top, sp, State(0, data), s, vs, locals, t.(bp := top, sp := top - 24), top, top - 8);
  }

  lemma MainArgsAt(m: Memory, top: Word, params: nat, argc: Word, argv: Word)
    requires params <= 2 && Holds(m, top - 12, argc) && Holds(m, top - 16, argv)
    ensures ArgsAt(m, top - 16 + 4 * params, MainArgs(params, argc, argv))
  {
    hide Holds;
    var vs := MainArgs(params, argc, argv);
    if params == 1 {
      assert vs[1..] == [];
    } else if params == 2 {
      assert vs[1..] == [argv] && vs[1..][1..] == [];
      assert ArgsAt(m, top - 12, [argv]) by { assert [argv][1..] == []; }
    }
  }

  // A word above the stack pointer that nobody owns keeps its value.
  lemma KeptAbove(text: Memory, m: Memory, m': Memory, limit: int, top: int, sp: int, data: UserMemory, a: int, v: Word)
    requires Frame(m, m', data.own, limit, sp) && Unowned(text, limit, top, data, m.Keys)
    requires limit <= sp <= a && a + 4 <= top && Holds(m, a, v)
    ensures Holds(m', a, v)
  {
  }

  // After the return from the main function: its value is pushed, and ends the program.
  lemma MainExits(text: Memory, top: Word, t: M.Machine)
    requires t.pc == top - 8 && t.sp == top - 16 && HasWord(t.mem, top - 20)
    requires Holds(t.mem, top - 8, M.PUSH) && Holds(t.mem, top - 4, M.EXIT)
    ensures M.ExitsWith(t, t.ax)
  {
    var u := M.PushWord(t, t.ax).(pc := top - 4);
    HoldsLoads(t.mem, top - 8, M.PUSH);
    assert M.Step(t) == M.Next(u) by { hide Holds, LoadWord, StoreWord; }
    assert Holds(u.mem, top - 4, M.EXIT);
    LoadAfterStore(t.mem, top - 20, t.ax);
    HoldsLoads(u.mem, top - 4, M.EXIT);
    assert M.Step(u) == M.Exited(t.ax) by { hide Holds, LoadWord, StoreWord; }
    assert M.Run(2, t) == M.Run(1, u);
    assert M.Run(1, u) == M.Exited(t.ax);
  }

  // The main function, called with the words on the start stack, returns `v`.
  ghost predicate MainReturns(p: Program, f: Routine, fuel: nat, top: Word, data: UserMemory, argc: Word, argv: Word,
                              v: Word) {
    f.params <= 2
    && var r := CallFunction(p, fuel, f, top - 16 + 4 * f.params, MainArgs(f.params, argc, argv), State(0, data));
      r.Done? && r.st.ax == v
  }

  // The run of the body behind it.
  lemma MainBody(p: Program, text: Memory, f: Routine, fuel: nat, top: Word, m: Memory, data: UserMemory, argc: Word,
                 argv: Word, v: Word)
    returns (st: State, r: Effect)
    requires MainReturns(p, f, fuel, top, data, argc, argv, v) && Prepared(p, text, top, m, data)
    ensures f.params <= 2 && 0 <= p.limit <= top - 24 - 4 * f.locals && InStack(top - 24, top - 24 - 4 * f.locals)
    ensures 24 <= top
    ensures st == State(0, Enter(data, top - 16 + 4 * f.params, MainArgs(f.params, argc, argv), f.locals))
    ensures r == ExecAll(p, f.scope, fuel, top - 24, top - 24 - 4 * f.locals, f.body, st)
    ensures !r.Undefined? && r.st.ax == v
    ensures FreeOf(st.mem.own, top - 8, top)
  {
    hide ExecAll, CallFunction, Enter, Leave, MainArgs, FreeOf, Agree;
    var sp, vs := top - 16 + 4 * f.params, MainArgs(f.params, argc, argv);
    assert |vs| == f.params && FrameBase(sp, |vs|) == top - 24;
    CallParts(p, fuel, f, sp, vs, State(0, data));
    FrameOwns(p, text, top, m, data, f, argc, argv);
    st := State(0, Enter(data, sp, vs, f.locals));
    r := ExecAll(p, f.scope, fuel, top - 24, top - 24 - 4 * f.locals, f.body, st);
  }

  // What the main function computes is what the program ends with.
  lemma ProgramRuns(p: Program, text: Memory, top: Word, m: Memory, data: UserMemory, entry: Word, f: Routine,
                    fuel: nat, argc: Word, argv: Word, v: Word)
    requires 24 <= top && Prepared(p, text, top, m, data)
    requires Loaded(p, text) && entry in p.funs && p.funs[entry] == f
    requires MainReturns(p, f, fuel, top, data, argc, argv, v)
    ensures M.ExitsWith(M.Machine(entry, top - 20, top, 0, StartMemory(m, top, argc, argv)), v)
  {
    hide *;
    LoadedFunctionAt(p, text, entry, f);
    MainRuns(p, text, top, m, data, entry, f, fuel, argc, argv, v);
  }

  lemma MainRuns(p: Program, text: Memory, top: Word, m: Memory, data: UserMemory, entry: Word, f: Routine, fuel: nat,
                 argc: Word, argv: Word, v: Word)
    requires 24 <= top && Prepared(p, text, top, m, data)
    requires Loaded(p, text) && FunctionAt(text, entry, f)
    requires MainReturns(p, f, fuel, top, data, argc, argv, v)
    ensures M.ExitsWith(M.Machine(entry, top - 20, top, 0, StartMemory(m, top, argc, argv)), v)
  {
    hide *;
    FunctionParts(text, entry, f);
    var st, r := MainBody(p, text, f, fuel, top, m, data, argc, argv, v);
    var s, t := MainEnters(p, text, top, m, data, entry, f, argc, argv);
    var u := MainBodyRuns(p, text, top, fuel, f, st, t, r);
    MainExits(text, top, u);
    M.ReachesTransitive(s, t, u);
    M.ReachesThenExits(s, u, v);
  }

  // From the start of the body to the two instructions at the top of the stack.
  lemma MainBodyRuns(p: Program, text: Memory, top: Word, fuel: nat, f: Routine, st: State, t: M.Machine, r: Effect)
    returns (u: M.Machine)
    requires 24 <= top && InStack(top - 24, top - 24 - 4 * f.locals) && Loaded(p, text)
    requires Sim(p, text, top - 24, top - 24 - 4 * f.locals, st, t) && CodeAt(text, t.pc, StmtsCode(f.scope, f.body))
    requires CodeAt(text, t.pc + 4 * |StmtsCode(f.scope, f.body)|, [Op(M.LEV)])
    requires Linked(t.mem, st.mem.own, top - 24, top - 24 - 4 * f.locals, top, top - 8)
    requires r == ExecAll(p, f.scope, fuel, top - 24, top - 24 - 4 * f.locals, f.body, st) && !r.Undefined?
    requires Holds(t.mem, top - 8, M.PUSH) && Holds(t.mem, top - 4, M.EXIT) && FreeOf(st.mem.own, top - 8, top)
    ensures Holds(u.mem, top - 8, M.PUSH) && Holds(u.mem, top - 4, M.EXIT) && HasWord(u.mem, top - 20)
    ensures u.pc == top - 8 && u.sp == top - 16 && u.ax == r.st.ax && M.Reaches(t, u)
  {
    hide *;
    ReadyForBody(p, text, top, st, t, f);
    u := BodyRuns(p, text, f.scope, fuel, top - 24, top - 24 - 4 * f.locals, f.body, st, t, top, top - 8);
    ReturnedKeeps(p, text, top, top - 24 - 4 * f.locals, st, t, r.st, u);
  }

  lemma ReadyForBody(p: Program, text: Memory, top: Word, st: State, t: M.Machine, f: Routine)
    requires Sim(p, text, top - 24, top - 24 - 4 * f.locals, st, t) && CodeAt(text, t.pc, StmtsCode(f.scope, f.body))
    requires Loaded(p, text)
    requires InStack(top - 24, top - 24 - 4 * f.locals)
    ensures Ready(p, text, top - 24, top - 24 - 4 * f.locals, st, t, StmtsCode(f.scope, f.body))
  {
  }

  ghost predicate FreeOf(own: set<int>, lo: int, hi: int) {
    forall a :: lo <= a < hi ==> a !in own
  }

  // The frame of the main function leaves out the two instructions.
  lemma FrameOwns(p: Program, text: Memory, top: Word, m: Memory, data: UserMemory, f: Routine, argc: Word, argv: Word)
    requires Prepared(p, text, top, m, data) && f.params <= 2 && top - 24 - 4 * f.locals >= p.limit
    ensures FreeOf(Enter(data, top - 16 + 4 * f.params, MainArgs(f.params, argc, argv), f.locals).own, top - 8, top)
  {
    assert |MainArgs(f.params, argc, argv)| == f.params;
    var own := Enter(data, top - 16 + 4 * f.params, MainArgs(f.params, argc, argv), f.locals).own;
    assert own == data.own + Range(top - 16, top - 16 + 4 * f.params) + Range(top - 24 - 4 * f.locals, top - 24);
  }

  // The body returns to the two instructions, which are still there.
  lemma ReturnedKeeps(p: Program, text: Memory, top: Word, sp: int, st: State, s: M.Machine, st1: State, t: M.Machine)
    requires 24 <= top
    requires Returns(p, text, top - 24, sp, st, s, top, top - 8, st1, t)
    requires Linked(s.mem, st.mem.own, top - 24, sp, top, top - 8)
    requires Holds(s.mem, top - 8, M.PUSH) && Holds(s.mem, top - 4, M.EXIT) && FreeOf(st.mem.own, top - 8, top)
    ensures Holds(t.mem, top - 8, M.PUSH) && Holds(t.mem, top - 4, M.EXIT) && HasWord(t.mem, top - 20)
    ensures t.pc == top - 8 && t.sp == top - 16 && t.ax == st1.ax && M.Reaches(s, t)
  {
    hide M.Reaches;
  }

  lemma StepsToExit(p: Program, text: Memory, top: Word, s: M.Machine, m: Memory, data: UserMemory, entry: Word,
                    f: Routine, fuel: nat,
                    argc: Word, argv: Word, v: Word)
    returns (steps: nat)
    requires 24 <= top && Prepared(p, text, top, m, data)
    requires Loaded(p, text) && entry in p.funs && p.funs[entry] == f
    requires MainReturns(p, f, fuel, top, data, argc, argv, v)
    requires s == M.Machine(entry, top - 20, top, 0, StartMemory(m, top, argc, argv))
    ensures M.Run(steps, s) == M.Exited(v)
  {
    hide Loaded, Prepared, MainReturns, StartMemory, M.Run;
    ProgramRuns(p, text, top, m, data, entry, f, fuel, argc, argv, v);
    steps :| M.Run(steps, s) == M.Exited(v);
  }

  // Run a loaded program: what its main function returns is the result.
  method RunProgram(vm: Vm, stack: nat, entry: Word, argc: Word, argv: Word,
                    ghost p: Program, ghost text: Memory, ghost data: UserMemory, ghost f: Routine, ghost fuel: nat,
                    ghost v: Word)
    returns (result: Option<Word>)
    requires stack + STACK_SIZE < WORD_LIMIT && vm.bp == stack + STACK_SIZE - 2 && vm.ax == 0
    requires Loaded(p, text) && entry in p.funs && p.funs[entry] == f
    requires Prepared(p, text, stack + STACK_SIZE - 2, vm.mem, data)
    requires MainReturns(p, f, fuel, stack + STACK_SIZE - 2, data, argc, argv, v)
    modifies vm
    ensures result == Some(v)
  {
    hide Loaded, Prepared, MainReturns, StartMemory, M.Run;
    ghost var top: Word := stack + STACK_SIZE - 2;
    ghost var m := vm.mem;
    vm.SetupStack(stack, argc, argv);
    vm.pc := entry;
    ghost var steps := StepsToExit(p, text, top, vm.State(), m, data, entry, f, fuel, argc, argv, v);
    result := vm.Eval(steps);
  }
}
