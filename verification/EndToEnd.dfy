/**
 * From source to result: a function is compiled behind the text that is already there, the
 * machine runs it as the main function, and its value is the one the language gives it.
 */
module EndToEnd {
  import opened Words
  import opened Syntax
  import opened Codegen
  import opened CodeShape
  import opened Declarations
  import opened Printer
  import opened FunctionPrinter
  import opened Semantics
  import opened Simulation
  import opened Correctness
  import opened Interpreter
  import opened Constants
  import opened WholeProgram
  import opened OnePass

  // ----- the text area -----

  function ByteOfWord(w: Word, i: int): Byte {
    if i == 0 then w % 256 else if i == 1 then w / 256 % 256 else if i == 2 then w / 65536 % 256 else w / 16777216
  }

  function TextByte(base: int, words: seq<Word>, a: int): Byte
    requires base <= a < base + 4 * |words|
  {
    ByteOfWord(words[(a - base) / 4], (a - base) % 4)
  }

  // The bytes of the text area, which starts at `base`.
  function TextMemory(base: int, words: seq<Word>): Memory {
    map a | base <= a < base + 4 * |words| :: TextByte(base, words, a)
  }

  lemma WordStands(base: int, words: seq<Word>, i: nat)
    requires i < |words|
    ensures Holds(TextMemory(base, words), base + 4 * i, words[i])
  {
    hide ByteOfWord;
    var m, a, w := TextMemory(base, words), base + 4 * i, words[i];
    assert (a - base) / 4 == i && (a + 1 - base) / 4 == i && (a + 2 - base) / 4 == i && (a + 3 - base) / 4 == i;
    assert m[a] == ByteOfWord(w, 0) && m[a + 1] == ByteOfWord(w, 1);
    assert m[a + 2] == ByteOfWord(w, 2) && m[a + 3] == ByteOfWord(w, 3);
    BytesOf(w);
  }

  lemma BytesOf(w: Word)
    ensures ByteOfWord(w, 0) == w % 256 && ByteOfWord(w, 1) == w / 256 % 256
    ensures ByteOfWord(w, 2) == w / 65536 % 256 && ByteOfWord(w, 3) == w / 16777216
  {
  }

  lemma TextStands(base: int, words: seq<Word>)
    ensures TextAt(TextMemory(base, words), base, words)
  {
    hide Holds, TextMemory;
    forall i | 0 <= i < |words|
      ensures Holds(TextMemory(base, words), base + 4 * i, words[i])
    {
      WordStands(base, words, i);
    }
  }

  // What stands in the text area stays when more is compiled.
  lemma TextGrows(base: int, words: seq<Word>, more: seq<Word>)
    ensures Agree(TextMemory(base, words + more), TextMemory(base, words))
  {
    hide ByteOfWord;
  }

  lemma FunctionStays(m: Memory, m': Memory, entry: int, f: Routine)
    requires FunctionAt(m, entry, f) && Agree(m', m)
    ensures FunctionAt(m', entry, f)
  {
    hide FunctionCode;
    var code := FunctionCode(f.scope, f.locals, f.body);
    forall i | 0 <= i < |code|
      ensures Holds(m', entry + 4 * i, WordOf(entry + 4 * i, code[i]))
    {
      assert Holds(m, entry + 4 * i, WordOf(entry + 4 * i, code[i]));
    }
  }

  // ----- the memory of a thread -----

  // The text area, the stack and the data of the program do not overlap.
  ghost predicate AreasApart(p: Program, base: int, size: nat, top: Word, m: Memory, data: UserMemory) {
    && 0 <= p.limit <= top - 24
    && 0 <= base && base + size < WORD_LIMIT && (base + size <= p.limit || top <= base)
    && data.own <= m.Keys && data.val.Keys <= data.own && Agree(m, data.val)
    && (forall a :: a in data.own ==> !(base <= a < base + size) && !(p.limit <= a < top))
    && (forall a :: p.limit <= a < top ==> a in m)
  }

  lemma TextIsPrepared(p: Program, base: int, words: seq<Word>, top: Word, m: Memory, data: UserMemory)
    requires AreasApart(p, base, 4 * |words|, top, m, data)
    ensures Prepared(p, TextMemory(base, words), top, m + TextMemory(base, words), data)
    ensures InSpace(TextMemory(base, words))
  {
    hide ByteOfWord;
  }

  // With the new function, all functions of the program are in the text.
  lemma ProgramIsLoaded(p: Program, base: int, start: seq<Word>, f: Routine)
    requires 0 <= p.limit && InSpace(TextMemory(base, With(base, start, FunctionCode(f.scope, f.locals, f.body))))
    requires forall e :: e in p.funs && e != base + 4 * |start| ==> FunctionAt(TextMemory(base, start), e, p.funs[e])
    requires forall e :: e in p.funs && e == base + 4 * |start| ==> p.funs[e] == f
    ensures Loaded(p, TextMemory(base, With(base, start, FunctionCode(f.scope, f.locals, f.body))))
  {
    hide FunctionAt, FunctionCode, TextMemory, InSpace, TextAt;
    var code := FunctionCode(f.scope, f.locals, f.body);
    var words := With(base, start, code);
    var text := TextMemory(base, words);
    TextStands(base, words);
    assert words + [] == words;
    CompiledIsLoaded(text, base, start, f, []);
    TextGrows(base, start, Place(base + 4 * |start|, code));
    forall e | e in p.funs && e != base + 4 * |start|
      ensures FunctionAt(text, e, p.funs[e])
    {
      FunctionStays(TextMemory(base, start), text, e, p.funs[e]);
    }
  }

  // The main function is the next one to be compiled; the functions it calls are in the
  // text already.
  ghost predicate NextIsMain(p: Program, base: int, start: seq<Word>, symbols: Symbols, ts: seq<Token>, f: Routine) {
    && ParseFunction(symbols, ts).Ok? && ParseFunction(symbols, ts).value.fun == f
    && (forall e :: e in p.funs ==>
          if e == base + 4 * |start| then p.funs[e] == f else FunctionAt(TextMemory(base, start), e, p.funs[e]))
    && base + 4 * |start| in p.funs
  }

  // Compile the main function and run it: the result is the value the evaluator gives it.
  method CompileAndRun(c: Compiler, vm: Vm, stack: nat, argc: Word, argv: Word,
                       ghost p: Program, ghost f: Routine, ghost data: UserMemory, ghost fuel: nat, ghost v: Word)
    returns (err: int, result: Option<Word>)
    requires c.Valid() && NextIsMain(p, c.base, c.text, c.symbols, c.rest, f)
    requires stack + STACK_SIZE < WORD_LIMIT && vm.bp == stack + STACK_SIZE - 2 && vm.ax == 0
    requires AreasApart(p, c.base, 4 * (|c.text| + |FunctionCode(f.scope, f.locals, f.body)|), stack + STACK_SIZE - 2,
                        vm.mem, data)
    requires MainReturns(p, f, fuel, stack + STACK_SIZE - 2, data, argc, argv, v)
    modifies c, vm
    ensures err == 0 && result == Some(v)
  {
    hide AreasApart, MainReturns, FunctionCode, FunctionAt, TextMemory, Loaded, Prepared, With, InSpace, ParseFunction;
    ghost var start, top: Word := c.text, stack + STACK_SIZE - 2;
    var entry := c.Here();
    assert entry in p.funs;
    err := c.FunctionDeclaration();
    ghost var text := TextMemory(c.base, c.text);
    TextIsPrepared(p, c.base, c.text, top, vm.mem, data);
    LimitIsKnown(p, c.base, 4 * |c.text|, top, vm.mem, data);
    ProgramIsLoaded(p, c.base, start, f);
    vm.mem := vm.mem + TextMemory(c.base, c.text);
    result := RunProgram(vm, stack, entry, argc, argv, p, text, data, f, fuel, v);
  }

  lemma LimitIsKnown(p: Program, base: int, size: nat, top: Word, m: Memory, data: UserMemory)
    requires AreasApart(p, base, size, top, m, data)
    ensures 0 <= p.limit
  {
  }

  // The names are new, and the body is well formed where it sees them.
  ghost predicate Declarable(symbols: Symbols, ps: seq<Param>, ls: seq<LocalDecl>, body: List<Stmt>) {
    && NewParams(Bindings(symbols, 0, []), ps)
    && var b := AddParams(Bindings(symbols, 0, []), ps);
      var all := AddLocals(b.(count := b.count + 1), ls);
      NewLocals(b.(count := b.count + 1), ls) && WellFormedStmts(Scope(all.symbols, b.count + 1), body)
  }

  // The function a declaration makes.
  function DeclaredRoutine(symbols: Symbols, ps: seq<Param>, ls: seq<LocalDecl>, body: List<Stmt>): Routine {
    var b := AddParams(Bindings(symbols, 0, []), ps);
    var all := AddLocals(b.(count := b.count + 1), ls);
    Routine(Scope(all.symbols, b.count + 1), b.count, all.count - b.count - 1, body)
  }

  // The same for the printed form of a main function: from its syntax to its value.
  method RunPrinted(c: Compiler, vm: Vm, stack: nat, argc: Word, argv: Word,
                    ghost ps: seq<Param>, ghost ls: seq<LocalDecl>, ghost body: List<Stmt>, ghost closing: seq<Token>,
                    ghost p: Program, ghost data: UserMemory, ghost fuel: nat, ghost v: Word)
    returns (err: int, result: Option<Word>)
    requires stack + STACK_SIZE < WORD_LIMIT && vm.bp == stack + STACK_SIZE - 2 && vm.ax == 0
    requires c.Valid() && Kind(closing) == RBRACE && c.rest == PrintFunction(ps, ls, body) + closing
    requires Declarable(c.symbols, ps, ls, body)
    requires var f := DeclaredRoutine(c.symbols, ps, ls, body);
      && c.base + 4 * |c.text| in p.funs
      && (forall e :: e in p.funs ==>
            if e == c.base + 4 * |c.text| then p.funs[e] == f else FunctionAt(TextMemory(c.base, c.text), e, p.funs[e]))
      && AreasApart(p, c.base, 4 * (|c.text| + |FunctionCode(f.scope, f.locals, f.body)|), stack + STACK_SIZE - 2, vm.mem, data)
      && MainReturns(p, f, fuel, stack + STACK_SIZE - 2, data, argc, argv, v)
    modifies c, vm
    ensures err == 0 && result == Some(v)
  {
    hide AreasApart, MainReturns, FunctionCode, FunctionAt, TextMemory, PrintFunction, ParseFunction, AddParams,
         AddLocals, NewParams, NewLocals;
    ParseInvertsPrintFunction(c.symbols, ps, ls, body, closing);
    err, result := CompileAndRun(c, vm, stack, argc, argv, p, DeclaredRoutine(c.symbols, ps, ls, body), data, fuel, v);
  }

  // `main() { return e; }` returns the value of `e`, on every stack with room for its frame.
  lemma ConstantMain(p: Program, g: Scope, fuel: nat, top: Word, data: UserMemory, argc: Word, argv: Word, e: Expr,
                     v: Word)
    requires IsConstant(e) && ValueOf(e) == Some(v)
    requires 0 <= p.limit <= top - 24 - 4 * Height(e)
    ensures MainReturns(p, Routine(g, 0, 0, Cons(ReturnValue(e), Nil)), fuel, top, data, argc, argv, v)
  {
    hide Eval, ValueOf, Height, IsConstant;
    var body := Cons(ReturnValue(e), Nil);
    var st := State(0, Enter(data, top - 16, [], 0));
    ConstantValue(p, g, fuel, top - 24, top - 24, e, st);
    assert FrameBase(top - 16, 0) == top - 24;
    assert Exec(p, g, fuel, top - 24, top - 24, ReturnValue(e), st) == Returned(st.(ax := v));
    assert ExecAll(p, g, fuel, top - 24, top - 24, body, st) == Returned(st.(ax := v));
    var r := CallFunction(p, fuel, Routine(g, 0, 0, body), top - 16, [], State(0, data));
    assert r == Done(State(v, Leave(data.own, st.mem)));
  }

  // `return 3 < 5;` returns 1, `return -7 / 2;` returns -3, and `return 1 - 2 - 3;` returns -4.
  lemma ConstantCases()
    ensures ValueOf(Binary(BLt, Num(3), Num(5))) == Some(1)
    ensures ValueOf(Binary(BDiv, NegNum(7), Num(2))) == Some(0xFFFF_FFFD)
    ensures ValueOf(Binary(BSub, Binary(BSub, Num(1), Num(2)), Num(3))) == Some(0xFFFF_FFFC)
  {
    hide Bitwise, Pow2, TruncMod;
    assert ValueOf(Num(3)) == Some(3) && ValueOf(Num(5)) == Some(5);
    assert ValueOf(NegNum(7)) == Some(0xFFFF_FFF9) && ValueOf(Num(2)) == Some(2);
    assert ValueOf(Binary(BSub, Num(1), Num(2))) == Some(0xFFFF_FFFF);
  }
}
