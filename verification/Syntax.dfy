/** Tokens, symbols, and the abstract syntax of the C subset. */
module Syntax {
  import opened Words

  // ----- token kinds (a token with a printable spelling has its character code) -----

  const EOF: int := 0
  const BANG: int := '!' as int
  const QUOTE: int := '"' as int
  const LPAREN: int := '(' as int
  const RPAREN: int := ')' as int
  const COMMA: int := ',' as int
  const COLON: int := ':' as int
  const SEMI: int := ';' as int
  const RBRACK: int := ']' as int
  const LBRACE: int := '{' as int
  const RBRACE: int := '}' as int
  const TILDE: int := '~' as int

  const NUM: int := 128
  const ID: int := 133
  const CHAR: int := 134
  const ELSE: int := 135
  const IF: int := 137
  const INT: int := 138
  const RETURN: int := 139
  const SIZEOF: int := 140
  const WHILE: int := 141

  // Operators, in the order that is their precedence.
  const ASSIGN: int := 142
  const COND: int := 143
  const LOR: int := 144
  const LAN: int := 145
  const OR: int := 146
  const XOR: int := 147
  const AND: int := 148
  const EQ: int := 149
  const NE: int := 150
  const LT: int := 151
  const GT: int := 152
  const LE: int := 153
  const GE: int := 154
  const SHL: int := 155
  const SHR: int := 156
  const ADD: int := 157
  const SUB: int := 158
  const MUL: int := 159
  const DIV: int := 160
  const MOD: int := 161
  const INC: int := 162
  const DEC: int := 163
  const BRAK: int := 164

  // A scanned token. Numbers and strings carry a value (a string's is the address of its
  // bytes), words carry the symbol-table entry the scanner stopped at.
  datatype Token =
    | NumTok(value: Word)
    | StrTok(value: Word)
    | IdTok(sym: nat)
    | KeyTok(keyword: int, sym: nat)
    | Tok(kind: int)

  predicate HasValue(t: Token) { t.NumTok? || t.StrTok? }
  predicate HasSymbol(t: Token) { t.IdTok? || t.KeyTok? }

  function KindOf(t: Token): int {
    match t
    case NumTok(_) => NUM
    case StrTok(_) => QUOTE
    case IdTok(_) => ID
    case KeyTok(k, _) => k
    case Tok(k) => k
  }

  // The kind of the current token; the end of the input reads as 0.
  function Kind(ts: seq<Token>): int {
    if |ts| == 0 then EOF else KindOf(ts[0])
  }

  // ----- types and symbols -----

  // A type is CHAR_TYPE or INT_TYPE plus PTR_TYPE for every star.
  const CHAR_TYPE: int := 0
  const INT_TYPE: int := 1
  const PTR_TYPE: int := 2

  datatype Class = Unused | Enumerator | Function | Library | Global | Local

  // A symbol-table entry, with the bindings a local declaration hides.
  datatype Symbol = Symbol(class_: Class, type_: int, value: Word,
                           outerClass: Class, outerType: int, outerValue: Word)

  // What the code generator knows while it compiles a function body.
  datatype Scope = Scope(symbols: map<nat, Symbol>, indexOfBp: int)

  function Lookup(g: Scope, sym: nat): Symbol {
    if sym in g.symbols then g.symbols[sym] else Symbol(Unused, 0, 0, Unused, 0, 0)
  }

  // ----- expressions and statements -----

  datatype BinOp = BOr | BXor | BAnd | BEq | BNe | BLt | BGt | BLe | BGe | BShl | BShr | BAdd | BSub | BMul | BDiv | BMod

  datatype UnOp = Not | Complement | Plus | Negate

  datatype List<T> = Nil | Cons(head: T, tail: List<T>)

  datatype Expr =
    | Num(v: Word)
    | NegNum(v: Word)                          // a minus sign directly before a number
    | Str(address: Word)
    | SizeOf(isChar: bool, stars: nat)
    | Ident(sym: nat)
    | Call(sym: nat, args: List<Expr>)
    | Cast(isChar: bool, stars: nat, e: Expr)
    | Deref(e: Expr)
    | AddressOf(e: Expr)
    | Unary(uop: UnOp, e: Expr)
    | PreStep(up: bool, e: Expr)               // ++e and --e
    | PostStep(up: bool, e: Expr)              // e++ and e--
    | Index(e: Expr, i: Expr)
    | Assign(l: Expr, r: Expr)
    | Conditional(c: Expr, a: Expr, b: Expr)
    | LogicalOr(a: Expr, b: Expr)
    | LogicalAnd(a: Expr, b: Expr)
    | Binary(op: BinOp, a: Expr, b: Expr)

  datatype Stmt =
    | If(c: Expr, s: Stmt)
    | IfElse(c: Expr, s: Stmt, t: Stmt)
    | While(c: Expr, s: Stmt)
    | Block(ss: List<Stmt>)
    | Return
    | ReturnValue(e: Expr)
    | Empty
    | Evaluate(e: Expr)

  function TypeName(isChar: bool, stars: nat): int {
    (if isChar then CHAR_TYPE else INT_TYPE) + stars * PTR_TYPE
  }

  function Count<T>(l: List<T>): nat {
    match l
    case Nil => 0
    case Cons(_, t) => 1 + Count(t)
  }

  // The type the code generator records for an expression.
  function TypeOf(g: Scope, e: Expr): int {
    match e
    case Num(_) => INT_TYPE
    case NegNum(_) => INT_TYPE
    case Str(_) => PTR_TYPE
    case SizeOf(_, _) => INT_TYPE
    case Ident(x) => if Lookup(g, x).class_ == Enumerator then INT_TYPE else Lookup(g, x).type_
    case Call(x, _) => Lookup(g, x).type_
    case Cast(c, n, _) => TypeName(c, n)
    case Deref(e) => TypeOf(g, e) - PTR_TYPE
    case AddressOf(e) => TypeOf(g, e) + PTR_TYPE
    case Unary(_, _) => INT_TYPE
    case PreStep(_, e) => TypeOf(g, e)
    case PostStep(_, e) => TypeOf(g, e)
    case Index(e, _) => TypeOf(g, e) - PTR_TYPE
    case Assign(l, _) => TypeOf(g, l)
    case Conditional(_, _, b) => TypeOf(g, b)
    case LogicalOr(_, _) => INT_TYPE
    case LogicalAnd(_, _) => INT_TYPE
    case Binary(op, a, b) =>
      var t := TypeOf(g, a);
      if op == BAdd || op == BMul || op == BDiv || op == BMod then t
      else if op == BSub then (if t > PTR_TYPE && t == TypeOf(g, b) then INT_TYPE else t)
      else INT_TYPE
  }

  // The forms whose value is loaded from an address the program can name.
  predicate IsLvalue(g: Scope, e: Expr) {
    (e.Ident? && Lookup(g, e.sym).class_ in {Local, Global}) || e.Deref? || e.Index?
  }
}
