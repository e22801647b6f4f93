/** Printed functions are read back as they were. */
module FunctionPrinter {
  import opened Words
  import opened Syntax
  import opened Codegen
  import opened Grammar
  import opened Printer
  import opened Declarations

  datatype Declarator = Declarator(stars: nat, sym: nat)

  datatype Param = Param(isChar: bool, d: Declarator)

  // One declaration of locals: a type and its names.
  datatype LocalDecl = LocalDecl(isChar: bool, ds: seq<Declarator>)

  function PrintDeclarator(d: Declarator, last: bool): seq<Token> {
    Stars(d.stars) + [IdTok(d.sym)] + if last then [] else [Tok(COMMA)]
  }

  function TypeKeyword(isChar: bool): Token {
    Keyword(if isChar then CHAR else INT)
  }

  function PrintParams(ps: seq<Param>): seq<Token> {
    if |ps| == 0 then []
    else [TypeKeyword(ps[0].isChar)] + PrintDeclarator(ps[0].d, |ps| == 1) + PrintParams(ps[1..])
  }

  function PrintNames(ds: seq<Declarator>): seq<Token> {
    if |ds| == 0 then [] else PrintDeclarator(ds[0], |ds| == 1) + PrintNames(ds[1..])
  }

  function PrintLocals(ls: seq<LocalDecl>): seq<Token> {
    if |ls| == 0 then []
    else [TypeKeyword(ls[0].isChar)] + PrintNames(ls[0].ds) + [Tok(SEMI)] + PrintLocals(ls[1..])
  }

  // The closing brace is left to what follows.
  function PrintFunction(ps: seq<Param>, ls: seq<LocalDecl>, body: List<Stmt>): seq<Token> {
    [Tok(LPAREN)] + PrintParams(ps) + [Tok(RPAREN), Tok(LBRACE)] + PrintLocals(ls) + PrintStmts(body)
  }

  // One more name, with the number `v`.
  function Added(b: Bindings, t: int, v: nat, x: nat): Bindings {
    Bindings(Bind(b.symbols, x, t, ToWord(v)), b.count + 1, b.names + [x])
  }

  function AddParams(b: Bindings, ps: seq<Param>): Bindings
    decreases |ps|
  {
    if |ps| == 0 then b
    else AddParams(Added(b, TypeName(ps[0].isChar, ps[0].d.stars), b.count, ps[0].d.sym), ps[1..])
  }

  function AddNames(b: Bindings, isChar: bool, ds: seq<Declarator>): (r: Bindings)
    ensures r.count >= b.count
    decreases |ds|
  {
    if |ds| == 0 then b
    else AddNames(Added(b, TypeName(isChar, ds[0].stars), b.count + 1, ds[0].sym), isChar, ds[1..])
  }

  function AddLocals(b: Bindings, ls: seq<LocalDecl>): (r: Bindings)
    ensures r.count >= b.count
    decreases |ls|
  {
    if |ls| == 0 then b else AddLocals(AddNames(b, ls[0].isChar, ls[0].ds), ls[1..])
  }

  // No name is declared that is already local.
  predicate NewParams(b: Bindings, ps: seq<Param>)
    decreases |ps|
  {
    |ps| == 0 || (!IsLocal(b.symbols, ps[0].d.sym)
                  && NewParams(Added(b, TypeName(ps[0].isChar, ps[0].d.stars), b.count, ps[0].d.sym), ps[1..]))
  }

  predicate NewNames(b: Bindings, isChar: bool, ds: seq<Declarator>)
    decreases |ds|
  {
    |ds| == 0 || (!IsLocal(b.symbols, ds[0].sym)
                  && NewNames(Added(b, TypeName(isChar, ds[0].stars), b.count + 1, ds[0].sym), isChar, ds[1..]))
  }

  predicate NewLocals(b: Bindings, ls: seq<LocalDecl>)
    decreases |ls|
  {
    |ls| == 0 || (NewNames(b, ls[0].isChar, ls[0].ds) && NewLocals(AddNames(b, ls[0].isChar, ls[0].ds), ls[1..]))
  }

  lemma ParsePrintDeclarator(b: Bindings, isChar: bool, v: nat, bad: ErrorNumber, again: ErrorNumber, d: Declarator,
                             last: bool, tail: seq<Token>)
    requires !IsLocal(b.symbols, d.sym) && (last ==> |tail| > 0 && !HasSymbol(tail[0]) && Kind(tail) != COMMA)
    ensures ParseDeclarator(b, TypeName(isChar, 0), v, bad, again, PrintDeclarator(d, last) + tail)
         == Ok(Added(b, TypeName(isChar, d.stars), v, d.sym), tail)
  {
    var after := (if last then [] else [Tok(COMMA)]) + tail;
    var ts := PrintDeclarator(d, last) + tail;
    assert ts == Stars(d.stars) + ([IdTok(d.sym)] + after);
    SkipStars(d.stars, [IdTok(d.sym)] + after);
    assert ([IdTok(d.sym)] + after)[1..] == after;
    assert !last ==> after[1..] == tail;
    assert last ==> after == tail;
    hide Bind, ToWord, Stars;
  }

  // After the type of a parameter.
  lemma ParamsStep(b: Bindings, isChar: bool, ts: seq<Token>)
    ensures var r := ParseDeclarator(b, TypeName(isChar, 0), b.count, BAD_PARAMETER, DUPLICATE_PARAMETER, ts);
      r.Ok? ==> ParseParams(b, [TypeKeyword(isChar)] + ts) == ParseParams(r.value, r.rest)
  {
    assert ([TypeKeyword(isChar)] + ts)[1..] == ts;
    hide ParseDeclarator;
  }

  // After the type of a declaration of locals.
  lemma LocalsStep(b: Bindings, isChar: bool, ts: seq<Token>)
    ensures var r := ParseNames(b, TypeName(isChar, 0), ts);
      r.Ok? ==> ParseLocals(b, [TypeKeyword(isChar)] + ts) == ParseLocals(r.value, r.rest[1..])
  {
    assert ([TypeKeyword(isChar)] + ts)[1..] == ts;
    hide ParseNames;
  }

  lemma PrintParamsStep(ps: seq<Param>, tail: seq<Token>)
    requires |ps| > 0
    ensures PrintParams(ps) + tail
         == [TypeKeyword(ps[0].isChar)] + (PrintDeclarator(ps[0].d, |ps| == 1) + (PrintParams(ps[1..]) + tail))
  {
    hide PrintDeclarator, Keyword;
    var a, b, c := [TypeKeyword(ps[0].isChar)], PrintDeclarator(ps[0].d, |ps| == 1), PrintParams(ps[1..]);
    assert PrintParams(ps) == a + b + c;
    hide PrintParams;
    Associate(a, b, c, tail);
  }

  lemma Associate<T>(a: seq<T>, b: seq<T>, c: seq<T>, d: seq<T>)
    ensures a + b + c + d == a + (b + (c + d))
  {
  }

  lemma NoParams(ps: seq<Param>, tail: seq<Token>)
    requires |ps| == 0
    ensures PrintParams(ps) + tail == tail
  {
  }

  lemma {:induction false} ParsePrintParams(b: Bindings, ps: seq<Param>, tail: seq<Token>)
    requires NewParams(b, ps) && |tail| > 0 && tail[0] == Tok(RPAREN)
    ensures ParseParams(b, PrintParams(ps) + tail) == Ok(AddParams(b, ps), tail)
    decreases |ps|
  {
    if |ps| == 0 {
      assert PrintParams(ps) + tail == tail;
    } else {
      hide PrintDeclarator, PrintParams, ParseDeclarator, ParseParams, IsLocal, Added, Keyword;
      var p := ps[0];
      var more := PrintParams(ps[1..]) + tail;
      PrintParamsStep(ps, tail);
      if |ps| == 1 { NoParams(ps[1..], tail); }
      ParsePrintDeclarator(b, p.isChar, b.count, BAD_PARAMETER, DUPLICATE_PARAMETER, p.d, |ps| == 1, more);
      ParamsStep(b, p.isChar, PrintDeclarator(p.d, |ps| == 1) + more);
      ParsePrintParams(Added(b, TypeName(p.isChar, p.d.stars), b.count, p.d.sym), ps[1..], tail);
    }
  }

  lemma {:induction false} ParsePrintNames(b: Bindings, isChar: bool, ds: seq<Declarator>, tail: seq<Token>)
    requires NewNames(b, isChar, ds) && |tail| > 0 && tail[0] == Tok(SEMI)
    ensures ParseNames(b, TypeName(isChar, 0), PrintNames(ds) + tail) == Ok(AddNames(b, isChar, ds), tail)
    decreases |ds|
  {
    if |ds| == 0 {
      assert PrintNames(ds) + tail == tail;
    } else {
      var d := ds[0];
      var more := PrintNames(ds[1..]) + tail;
      var ts := PrintNames(ds) + tail;
      assert |ds| == 1 ==> more == tail;
      assert ts == PrintDeclarator(d, |ds| == 1) + more;
      assert Kind(ts) in {MUL, ID};
      hide PrintDeclarator, PrintNames, ParseDeclarator, IsLocal, Added;
      ParsePrintDeclarator(b, isChar, b.count + 1, BAD_LOCAL, DUPLICATE_LOCAL, d, |ds| == 1, more);
      ParsePrintNames(Added(b, TypeName(isChar, d.stars), b.count + 1, d.sym), isChar, ds[1..], tail);
    }
  }

  lemma PrintLocalsStep(ls: seq<LocalDecl>, tail: seq<Token>)
    requires |ls| > 0
    ensures PrintLocals(ls) + tail
         == [TypeKeyword(ls[0].isChar)] + (PrintNames(ls[0].ds) + ([Tok(SEMI)] + (PrintLocals(ls[1..]) + tail)))
  {
    hide PrintNames, Keyword;
  }

  lemma {:induction false} ParsePrintLocals(b: Bindings, ls: seq<LocalDecl>, tail: seq<Token>)
    requires NewLocals(b, ls) && Kind(tail) !in {INT, CHAR}
    ensures ParseLocals(b, PrintLocals(ls) + tail) == Ok(AddLocals(b, ls), tail)
    decreases |ls|
  {
    if |ls| == 0 {
      assert PrintLocals(ls) + tail == tail;
    } else {
      hide PrintNames, PrintLocals, ParseNames, ParseLocals, NewNames, AddNames, Keyword;
      var l := ls[0];
      var more := PrintLocals(ls[1..]) + tail;
      PrintLocalsStep(ls, tail);
      assert ([Tok(SEMI)] + more)[1..] == more;
      ParsePrintNames(b, l.isChar, l.ds, [Tok(SEMI)] + more);
      LocalsStep(b, l.isChar, PrintNames(l.ds) + ([Tok(SEMI)] + more));
      ParsePrintLocals(AddNames(b, l.isChar, l.ds), ls[1..], tail);
    }
  }

  // A printed function is read back as its parameters, its locals and its body.
  lemma ParseInvertsPrintFunction(symbols: Symbols, ps: seq<Param>, ls: seq<LocalDecl>, body: List<Stmt>,
                                  closing: seq<Token>)
    requires NewParams(Bindings(symbols, 0, []), ps) && Kind(closing) == RBRACE
    requires var b := AddParams(Bindings(symbols, 0, []), ps);
      var all := AddLocals(b.(count := b.count + 1), ls);
      NewLocals(b.(count := b.count + 1), ls) && WellFormedStmts(Scope(all.symbols, b.count + 1), body)
    ensures var b := AddParams(Bindings(symbols, 0, []), ps);
      var all := AddLocals(b.(count := b.count + 1), ls);
      ParseFunction(symbols, PrintFunction(ps, ls, body) + closing)
      == Ok(Declared(Routine(Scope(all.symbols, b.count + 1), b.count, all.count - b.count - 1, body), all.names), closing)
  {
    hide PrintParams, PrintLocals, PrintStmts, ParseParams, ParseLocals, ParseStmts, AddParams, AddLocals, NewParams,
         NewLocals, WellFormedStmts;
    var b := AddParams(Bindings(symbols, 0, []), ps);
    var statements := PrintStmts(body) + closing;
    var inner := PrintLocals(ls) + statements;
    var outer := [Tok(RPAREN), Tok(LBRACE)] + inner;
    var ts := PrintFunction(ps, ls, body) + closing;
    assert ts == [Tok(LPAREN)] + (PrintParams(ps) + outer);
    assert ts[1..] == PrintParams(ps) + outer && outer[2..] == inner && outer[1..] == [Tok(LBRACE)] + inner;
    ParsePrintParams(Bindings(symbols, 0, []), ps, outer);
    BodyStarts(body, closing);
    ParsePrintLocals(b.(count := b.count + 1), ls, statements);
    ParseInvertsPrintStmts(Scope(AddLocals(b.(count := b.count + 1), ls).symbols, b.count + 1), body, closing);
  }

  lemma BodyStarts(body: List<Stmt>, closing: seq<Token>)
    requires Kind(closing) == RBRACE
    ensures Kind(PrintStmts(body) + closing) !in {INT, CHAR}
  {
    if body.Cons? {
      StmtStarts(body.head);
    } else {
      assert PrintStmts(body) + closing == closing;
    }
  }
}
