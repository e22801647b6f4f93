/**
 * Function declarations: parameters and locals shadow the outer meaning of their names,
 * get slots relative to the frame pointer, and are taken back after the body.
 */
module Declarations {
  import opened Words
  import opened Syntax
  import opened Codegen
  import opened Grammar

  const BAD_PARAMETER: int := 14
  const DUPLICATE_PARAMETER: int := 15
  const BAD_LOCAL: int := 16
  const DUPLICATE_LOCAL: int := 17

  type Symbols = map<nat, Symbol>

  // The symbol table, how many slots have been handed out, and the names made local so far.
  datatype Bindings = Bindings(symbols: Symbols, count: nat, names: seq<nat>)

  // A function and the names its header and its body declare.
  datatype Declared = Declared(fun: Routine, names: seq<nat>)

  function Entry(symbols: Symbols, x: nat): Symbol {
    Lookup(Scope(symbols, 0), x)
  }

  predicate IsLocal(symbols: Symbols, x: nat) {
    Entry(symbols, x).class_ == Local
  }

  // A name becomes local; what it meant before is kept in its entry.
  function Bind(symbols: Symbols, x: nat, t: int, v: Word): Symbols {
    var s := Entry(symbols, x);
    symbols[x := Symbol(Local, t, v, s.class_, s.type_, s.value)]
  }

  // A local entry takes back what it meant before.
  function Unbound(s: Symbol): Symbol {
    if s.class_ == Local then s.(class_ := s.outerClass, type_ := s.outerType, value := s.outerValue) else s
  }

  // One name of a declaration, from its stars to the comma that may follow it.
  // It gets the number `v` and makes `b.count` one larger.
  function ParseDeclarator(b: Bindings, base: int, v: nat, bad: ErrorNumber, again: ErrorNumber,
                           ts: seq<Token>): (r: Parsed<Bindings>)
    ensures r.Ok? ==> |r.rest| < |ts| && r.value.count == b.count + 1
  {
    var ts1 := SkipKind(MUL, ts);
    if |ts1| == 0 || !ts1[0].IdTok? then Err(bad)
    else if IsLocal(b.symbols, ts1[0].sym) then Err(again)
    else
      var x, rest := SymbolPast(ts1), ts1[1..];
      Ok(Bindings(Bind(b.symbols, x, base + CountKind(MUL, ts) * PTR_TYPE, ToWord(v)), b.count + 1, b.names + [x]),
         if Kind(rest) == COMMA then rest[1..] else rest)
  }

  // Parameters up to the closing parenthesis; a missing type is `int`.
  function ParseParams(b: Bindings, ts: seq<Token>): (r: Parsed<Bindings>)
    ensures r.Ok? ==> Kind(r.rest) == RPAREN && |r.rest| <= |ts| && b.count <= r.value.count <= b.count + |ts|
    decreases |ts|
  {
    if Kind(ts) == RPAREN then Ok(b, ts) else
    var base := if Kind(ts) == CHAR then CHAR_TYPE else INT_TYPE;
    match ParseDeclarator(b, base, b.count, BAD_PARAMETER, DUPLICATE_PARAMETER,
                          if Kind(ts) in {INT, CHAR} then ts[1..] else ts)
    case Err(c) => Err(c)
    case Ok(b1, rest) => ParseParams(b1, rest)
  }

  // The names of one local declaration, up to its semicolon.
  function ParseNames(b: Bindings, base: int, ts: seq<Token>): (r: Parsed<Bindings>)
    ensures r.Ok? ==> Kind(r.rest) == SEMI && |r.rest| <= |ts| && b.count <= r.value.count <= b.count + |ts| - |r.rest|
    decreases |ts|
  {
    if Kind(ts) == SEMI then Ok(b, ts) else
    match ParseDeclarator(b, base, b.count + 1, BAD_LOCAL, DUPLICATE_LOCAL, ts)
    case Err(c) => Err(c)
    case Ok(b1, rest) => ParseNames(b1, base, rest)
  }

  // All local declarations at the top of a body.
  function ParseLocals(b: Bindings, ts: seq<Token>): (r: Parsed<Bindings>)
    ensures r.Ok? ==> |r.rest| <= |ts| && b.count <= r.value.count <= b.count + |ts|
    decreases |ts|
  {
    if Kind(ts) != INT && Kind(ts) != CHAR then Ok(b, ts) else
    match ParseNames(b, if Kind(ts) == CHAR then CHAR_TYPE else INT_TYPE, ts[1..])
    case Err(c) => Err(c)
    case Ok(b1, rest) => ParseLocals(b1, rest[1..])
  }

  // A function from its opening parenthesis up to the brace that closes its body.
  function ParseFunction(symbols: Symbols, ts: seq<Token>): (r: Parsed<Declared>)
    ensures r.Ok? ==> Kind(r.rest) == RBRACE && |r.rest| < |ts|
  {
    if Kind(ts) != LPAREN then Err(EXPECTED_TOKEN) else
    match ParseParams(Bindings(symbols, 0, []), ts[1..])
    case Err(c) => Err(c)
    case Ok(b, rest) =>
      if Kind(rest[1..]) != LBRACE then Err(EXPECTED_TOKEN) else
      match ParseBody(b, rest[2..])
      case Err(c) => Err(c)
      case Ok(d, rest1) => Ok(d, rest1)
  }

  // A body whose parameters are bound: the slot after the last parameter stays empty.
  function ParseBody(b: Bindings, ts: seq<Token>): (r: Parsed<Declared>)
    ensures r.Ok? ==> Kind(r.rest) == RBRACE && |r.rest| <= |ts|
  {
    match ParseLocals(b.(count := b.count + 1), ts)
    case Err(c) => Err(c)
    case Ok(all, rest) =>
      var g := Scope(all.symbols, b.count + 1);
      match ParseStmts(g, rest)
      case Err(c) => Err(c)
      case Ok(body, rest1) => Ok(Declared(Routine(g, b.count, all.count - b.count - 1, body), all.names), rest1)
  }

  // ----- the declared names, read from the tokens alone -----

  // Names in the order in which they are bound, and the tokens after the declarations.
  datatype Header = Header(names: seq<nat>, rest: seq<Token>)

  // From one declarator on; the tokens end where no name can follow.
  function NamesUpTo(end: int, typed: bool, ts: seq<Token>): (h: Header)
    ensures |h.rest| <= |ts|
    decreases |ts|
  {
    if Kind(ts) == end then Header([], ts) else
    var ts1 := SkipKind(MUL, if typed && Kind(ts) in {INT, CHAR} then ts[1..] else ts);
    if |ts1| == 0 || !ts1[0].IdTok? then Header([], []) else
    var h := NamesUpTo(end, typed, if Kind(ts1[1..]) == COMMA then ts1[2..] else ts1[1..]);
    Header([SymbolPast(ts1)] + h.names, h.rest)
  }

  function LocalNames(ts: seq<Token>): seq<nat>
    decreases |ts|
  {
    if Kind(ts) != INT && Kind(ts) != CHAR then [] else
    var h := NamesUpTo(SEMI, false, ts[1..]);
    h.names + if |h.rest| == 0 then [] else LocalNames(h.rest[1..])
  }

  // What a function declares, from its opening parenthesis on: for each name the word that
  // the name register holds once the token after the name has been scanned.
  function NamesOf(ts: seq<Token>): seq<nat> {
    if |ts| == 0 then [] else
    var h := NamesUpTo(RPAREN, true, ts[1..]);
    h.names + if |h.rest| < 2 then [] else LocalNames(h.rest[2..])
  }
}
