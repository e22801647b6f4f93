/**
 * The one-pass compiler: recursive routines over the current token that append words to
 * the text area, rewrite its last word for lvalues and patch jump targets afterwards.
 *
 * Every routine is proved to consume what the grammar says and to leave exactly the
 * placed code of the tree the grammar builds. Where the program would print a message
 * and end the thread, a routine returns the number of the message (0 when all is well).
 */
module OnePass {
  import opened Words
  import opened Syntax
  import opened Codegen
  import opened Grammar
  import opened CodeShape
  import opened Declarations
  import M = Machine

  // What the scanner can deliver: kinds with a payload come only with it.
  predicate ValidToken(t: Token) {
    (t.Tok? || t.KeyTok?) ==> KindOf(t) !in {EOF, NUM, QUOTE, ID}
  }

  class Compiler {
    // scanner registers; `src` is the input after the current token
    var token: int
    var tokenVal: Word
    var currentId: nat
    var src: seq<Token>
    // generator state
    var text: seq<Word>
    var exprType: int
    var symbols: map<nat, Symbol>
    var indexOfBp: int
    const base: int          // byte address of the text area

    ghost var rest: seq<Token>   // the input from the current token on

    ghost predicate Valid()
      reads `token, `tokenVal, `currentId, `src, `rest, `symbols
    {
      && (if |rest| == 0 then token == EOF && src == [] else token == KindOf(rest[0]) && src == rest[1..])
      && (|rest| > 0 && HasValue(rest[0]) ==> tokenVal == rest[0].value)
      && (|rest| > 0 && HasSymbol(rest[0]) ==> currentId == rest[0].sym)
      && (forall i :: 0 <= i < |rest| ==> ValidToken(rest[i]))
      && GoodSymbols(symbols)
    }

    function Here(): int
      reads this
    {
      base + 4 * |text|
    }

    ghost function Names(): Scope
      reads this
    {
      Scope(symbols, indexOfBp)
    }

    // The text has grown by `code`, placed where it stands.
    twostate predicate Emitted(code: Code)
      reads this
    {
      text == With(base, old(text), code)
    }

    constructor (input: seq<Token>, names: map<nat, Symbol>, address: int)
      requires forall i :: 0 <= i < |input| ==> ValidToken(input[i])
      requires GoodSymbols(names)
      ensures Valid() && rest == input && text == [] && symbols == names && base == address
    {
      token, tokenVal, currentId, src := EOF, 0, 0, [];
      text, exprType, symbols, indexOfBp := [], INT_TYPE, names, 0;
      base := address;
      rest := input;
      if |input| > 0 {
        token := KindOf(input[0]);
        src := input[1..];
        if HasValue(input[0]) { tokenVal := input[0].value; }
        if HasSymbol(input[0]) { currentId := input[0].sym; }
      }
    }

    // Step to the next token; the value and symbol registers keep their old contents
    // unless the token brings its own.
    method Next()
      requires Valid()
      modifies `token, `tokenVal, `currentId, `src, `rest
      ensures Valid()
      ensures rest == if |old(rest)| == 0 then [] else old(rest)[1..]
      ensures !(|rest| > 0 && HasValue(rest[0])) ==> tokenVal == old(tokenVal)
      ensures !(|rest| > 0 && HasSymbol(rest[0])) ==> currentId == old(currentId)
    {
      rest := if |rest| == 0 then [] else rest[1..];
      if |src| == 0 {
        token := EOF;
      } else {
        var t := src[0];
        token := KindOf(t);
        if HasValue(t) { tokenVal := t.value; }
        if HasSymbol(t) { currentId := t.sym; }
        src := src[1..];
      }
    }

    // Require a token of the given kind and step past it.
    method Match(kind: int) returns (err: int)
      requires Valid()
      modifies `token, `tokenVal, `currentId, `src, `rest
      ensures Valid()
      ensures Kind(old(rest)) != kind ==> err == EXPECTED_TOKEN
      ensures Kind(old(rest)) == kind != EOF ==> err == 0 && |old(rest)| > 0 && rest == old(rest)[1..]
      ensures err == 0 ==> Kind(old(rest)) == kind
      ensures !(|rest| > 0 && HasValue(rest[0])) ==> tokenVal == old(tokenVal)
      ensures !(|rest| > 0 && HasSymbol(rest[0])) ==> currentId == old(currentId)
    {
      if token == kind {
        Next();
        return 0;
      }
      return EXPECTED_TOKEN;
    }

    // Append words; `tail` is what they are as a piece of a block.
    method Emit(words: seq<Word>, ghost start: seq<Word>, ghost front: Code, ghost tail: Code)
      requires text == With(base, start, front)
      requires |words| == |tail| && forall i :: 0 <= i < |tail| ==> !tail[i].Rel? && words[i] == tail[i].w
      modifies `text
      ensures text == With(base, start, front + tail)
    {
      WithWords(base, start, front, tail, words);
      text := text + words;
    }

    // Append the words of a block that starts here.
    method EmitBlock(words: seq<Word>, ghost tail: Code)
      requires |words| == |tail| && forall i :: 0 <= i < |tail| ==> !tail[i].Rel? && words[i] == tail[i].w
      modifies `text
      ensures Emitted(tail)
    {
      WithNothing(base, text);
      WithWords(base, text, [], tail, words);
      assert [] + tail == tail;
      text := text + words;
    }

    // Append a jump whose target is not known yet; `addr` is where the target goes.
    method EmitJump(jump: Word, ghost start: seq<Word>, ghost front: Code) returns (addr: nat)
      requires text == With(base, start, front)
      modifies `text
      ensures text == Open(base, start, front, jump) && addr == |start| + |front| + 1
    {
      text := text + [jump, 0];
      addr := |text| - 1;
    }

    // Let the jump at `addr` lead `skip` words past the block that has followed it.
    method Patch(addr: nat, skip: nat, ghost start: seq<Word>, ghost front: Code, ghost jump: Word, ghost block: Code)
      requires text == With(base, Open(base, start, front, jump), block) && addr == |start| + |front| + 1
      modifies `text
      ensures text == With(base, start, front + [Op(jump), Rel(|block| + 1 + skip)] + block)
    {
      var target := ToWord(Here() + 4 * skip);
      WithPatch(base, start, front, jump, block, |block| + 1 + skip, target);
      text := text[addr := target];
    }

    lemma ValidParts()
      requires Valid()
      ensures Kind(rest) == token && GoodSymbols(symbols) && (token != EOF ==> |rest| > 0)
    {
    }

    // ----- expressions -----

    // The text is `start` and the code of the accepted tree `e`, whose type is current.
    ghost predicate Stands(start: seq<Word>, e: Expr)
      reads this
    {
      text == With(base, start, ExprCode(Names(), e)) && exprType == TypeOf(Names(), e) && Accepted(Names(), e)
    }

    // Everything up to the first operator below `level`.
    method Expression(level: int) returns (err: int)
      requires Valid() && level >= ASSIGN
      modifies `token, `tokenVal, `currentId, `src, `rest, `text, `exprType
      ensures Valid()
      ensures match ParseExpr(Names(), level, old(rest))
        case Err(c) => err == c
        case Ok(e, r) => err == 0 && rest == r && Emitted(ExprCode(Names(), e)) && exprType == TypeOf(Names(), e)
      decreases |rest|, 3
    {
      hide ParseUnit, ParseOp, ExprCode, TypeOf, With, Accepted, GoodSymbols, ValidToken;
      ghost var g, all, start := Names(), rest, text;
      err := Unit();
      if err != 0 { return; }
      ghost var left := ParseUnit(g, all).value;
      while token >= level
        invariant Valid() && err == 0 && |rest| < |all|
        invariant ParseOps(g, level, left, rest) == ParseExpr(g, level, all)
        invariant Stands(start, left)
        decreases |rest|
      {
        ghost var before := rest;
        err := Operator(left, start);
        if err != 0 { return; }
        left := ParseOp(g, left, before).value;
      }
    }

    // An expression in the middle of a block.
    method Operand(level: int, ghost start: seq<Word>, ghost front: Code) returns (err: int)
      requires Valid() && level >= ASSIGN && text == With(base, start, front)
      modifies `token, `tokenVal, `currentId, `src, `rest, `text, `exprType
      ensures Valid()
      ensures match ParseExpr(Names(), level, old(rest))
        case Err(c) => err == c
        case Ok(e, r) =>
          err == 0 && rest == r && text == With(base, start, front + ExprCode(Names(), e)) && exprType == TypeOf(Names(), e)
      decreases |rest|, 4
    {
      ghost var p := ParseExpr(Names(), level, rest);
      hide ParseExpr, ExprCode, With;
      err := Expression(level);
      if p.Ok? {
        WithAppend(base, start, front, ExprCode(Names(), p.value));
      }
    }

    // A unit: a constant, a name, a call, a parenthesis, or a prefix operator and its operand.
    method Unit() returns (err: int)
      requires Valid()
      modifies `token, `tokenVal, `currentId, `src, `rest, `text, `exprType
      ensures Valid()
      ensures match ParseUnit(Names(), old(rest))
        case Err(c) => err == c
        case Ok(e, r) => err == 0 && rest == r && Emitted(ExprCode(Names(), e)) && exprType == TypeOf(Names(), e)
      decreases |rest|, 2
    {
      if token == EOF { return UNEXPECTED_EOF; }
      if token == NUM {
        err := NumberConstant();
      } else if token == QUOTE {
        err := StringConstant();
      } else if token == SIZEOF {
        err := SizeOfConstant();
      } else if token == ID {
        err := Name();
      } else if token == LPAREN {
        err := Parenthesis();
      } else if token == SUB {
        err := Minus();
      } else if token == MUL || token == AND || token == BANG || token == TILDE || token == ADD
                || token == INC || token == DEC {
        err := Prefix();
      } else {
        return BAD_EXPRESSION;
      }
    }

    // A number is stepped past before its value is emitted.
    method NumberConstant() returns (err: int)
      requires Valid() && token == NUM
      modifies `token, `tokenVal, `currentId, `src, `rest, `text, `exprType
      ensures Valid()
      ensures match ParseUnit(Names(), old(rest))
        case Err(c) => err == c
        case Ok(e, r) => err == 0 && rest == r && Emitted(ExprCode(Names(), e)) && exprType == TypeOf(Names(), e)
    {
      err := Match(NUM);
      EmitBlock([M.IMM, tokenVal], [Op(M.IMM), Arg(tokenVal)]);
      exprType := INT_TYPE;
    }

    // A string, and the pieces written directly after it.
    method StringConstant() returns (err: int)
      requires Valid() && token == QUOTE
      modifies `token, `tokenVal, `currentId, `src, `rest, `text, `exprType
      ensures Valid()
      ensures match ParseUnit(Names(), old(rest))
        case Err(c) => err == c
        case Ok(e, r) => err == 0 && rest == r && Emitted(ExprCode(Names(), e)) && exprType == TypeOf(Names(), e)
    {
      ghost var all, start := rest, text;
      ghost var code := [Op(M.IMM), Arg(tokenVal)];
      EmitBlock([M.IMM, tokenVal], code);
      hide With;
      err := Match(QUOTE);
      while token == QUOTE
        invariant Valid() && err == 0 && text == With(base, start, code)
        invariant SkipKind(QUOTE, rest) == SkipKind(QUOTE, all[1..])
        decreases |rest|
      {
        err := Match(QUOTE);
      }
      exprType := PTR_TYPE;
    }

    // Skip stars after a type name; each makes the type one pointer deeper.
    method PointerStars(type_: int) returns (t: int)
      requires Valid()
      modifies `token, `tokenVal, `currentId, `src, `rest
      ensures Valid() && rest == SkipKind(MUL, old(rest))
      ensures t == type_ + CountKind(MUL, old(rest)) * PTR_TYPE
    {
      t := type_;
      while token == MUL
        invariant Valid()
        invariant SkipKind(MUL, rest) == SkipKind(MUL, old(rest))
        invariant t + CountKind(MUL, rest) * PTR_TYPE == type_ + CountKind(MUL, old(rest)) * PTR_TYPE
        decreases |rest|
      {
        var _ := Match(MUL);
        t := t + PTR_TYPE;
      }
    }

    method SizeOfConstant() returns (err: int)
      requires Valid() && token == SIZEOF
      modifies `token, `tokenVal, `currentId, `src, `rest, `text, `exprType
      ensures Valid()
      ensures match ParseSizeOf(Names(), old(rest)[1..])
        case Err(c) => err == c
        case Ok(e, r) => err == 0 && rest == r && Emitted(ExprCode(Names(), e)) && exprType == TypeOf(Names(), e)
    {
      hide With, SkipKind, CountKind, GoodSymbols, ValidToken, ExprCode, TypeOf, ParseSizeOf;
      err := Match(SIZEOF);
      ghost var ts := rest;
      err := Match(LPAREN);
      GrammarOfSizeOf(Names(), ts);
      if err != 0 { return; }
      var t := INT_TYPE;
      if token == INT {
        err := Match(INT);
      } else if token == CHAR {
        err := Match(CHAR);
        t := CHAR_TYPE;
      }
      t := PointerStars(t);
      err := Match(RPAREN);
      if err != 0 { return; }
      var size := if t == CHAR_TYPE then 1 else 4;
      CodeOfSizeOf(Names());
      EmitBlock([M.IMM, size], [Op(M.IMM), Arg(size)]);
      exprType := INT_TYPE;
    }

    // A cast or a parenthesised expression.
    method Parenthesis() returns (err: int)
      requires Valid() && token == LPAREN
      modifies `token, `tokenVal, `currentId, `src, `rest, `text, `exprType
      ensures Valid()
      ensures match ParseUnit(Names(), old(rest))
        case Err(c) => err == c
        case Ok(e, r) => err == 0 && rest == r && Emitted(ExprCode(Names(), e)) && exprType == TypeOf(Names(), e)
      decreases |rest|, 1
    {
      err := Match(LPAREN);
      if token == INT || token == CHAR {
        err := CastOperand();
      } else {
        hide ParseExpr, ExprCode, TypeOf, With;
        err := Expression(ASSIGN);
        if err != 0 { return; }
        err := Match(RPAREN);
      }
    }

    method CastOperand() returns (err: int)
      requires Valid() && (token == INT || token == CHAR)
      modifies `token, `tokenVal, `currentId, `src, `rest, `text, `exprType
      ensures Valid()
      ensures match ParseCast(Names(), old(rest))
        case Err(c) => err == c
        case Ok(e, r) => err == 0 && rest == r && Emitted(ExprCode(Names(), e)) && exprType == TypeOf(Names(), e)
      decreases |rest|, 4
    {
      hide ParseExpr, With, SkipKind, CountKind, GoodSymbols, ValidToken;
      var t := if token == CHAR then CHAR_TYPE else INT_TYPE;
      err := Match(token);
      t := PointerStars(t);
      err := Match(RPAREN);
      if err != 0 { return; }
      err := Expression(INC);
      if err != 0 { return; }
      exprType := t;
    }

    // A minus sign: before a number it is folded into the constant.
    method Minus() returns (err: int)
      requires Valid() && token == SUB
      modifies `token, `tokenVal, `currentId, `src, `rest, `text, `exprType
      ensures Valid()
      ensures match ParseUnit(Names(), old(rest))
        case Err(c) => err == c
        case Ok(e, r) => err == 0 && rest == r && Emitted(ExprCode(Names(), e)) && exprType == TypeOf(Names(), e)
      decreases |rest|, 1
    {
      hide ParseUnit, ParseExpr, ExprCode, With, GoodSymbols;
      ghost var all := rest;
      err := Match(SUB);
      if token == NUM {
        GrammarOfNegNum(Names(), all);
        var v := ToWord(-(tokenVal as int));
        EmitBlock([M.IMM, v], [Op(M.IMM), Arg(v)]);
        err := Match(NUM);
        exprType := INT_TYPE;
      } else {
        GrammarOfPrefix(Names(), all);
        err := Negation();
      }
    }

    // A negation is emitted as a product with -1, the constant first.
    method Negation() returns (err: int)
      requires Valid()
      modifies `token, `tokenVal, `currentId, `src, `rest, `text, `exprType
      ensures Valid()
      ensures match ParseExpr(Names(), INC, old(rest))
        case Err(c) => err == c
        case Ok(e, r) => err == 0 && rest == r && exprType == INT_TYPE && Emitted(ExprCode(Names(), Unary(Negate, e)))
      decreases |rest|, 5
    {
      hide ParseExpr, ExprCode, TypeOf, With, GoodSymbols, ValidToken;
      ghost var start, operand := text, ParseExpr(Names(), INC, rest);
      ghost var front: Code := [Op(M.IMM), Arg(0xFFFF_FFFF), Op(M.PUSH)];
      EmitBlock([M.IMM, 0xFFFF_FFFF, M.PUSH], front);
      err := Operand(INC, start, front);
      if err != 0 { return; }
      Emit([M.MUL], start, front + ExprCode(Names(), operand.value), [Op(M.MUL)]);
      CodeOfUnary(Names(), operand.value);
      exprType := INT_TYPE;
    }

    // The other prefix operators; those on an lvalue rewrite the load at its end.
    method Prefix() returns (err: int)
      requires Valid() && token in {MUL, AND, BANG, TILDE, ADD, INC, DEC}
      modifies `token, `tokenVal, `currentId, `src, `rest, `text, `exprType
      ensures Valid()
      ensures match ParseUnit(Names(), old(rest))
        case Err(c) => err == c
        case Ok(e, r) => err == 0 && rest == r && Emitted(ExprCode(Names(), e)) && exprType == TypeOf(Names(), e)
      decreases |rest|, 1
    {
      hide ParseUnit, ParseExpr, ParseOps, ExprCode, TypeOf, With, Accepted, GoodSymbols;
      ghost var start, g, all := text, Names(), rest;
      var kind := token;
      err := Match(kind);
      ghost var operand := ParseExpr(g, INC, rest);
      GrammarOfPrefix(g, all);
      err := Expression(INC);
      if err != 0 { return; }
      err := PrefixCode(kind, start, operand.value);
    }

    // The code a prefix operator adds to that of its operand `e`.
    method PrefixCode(kind: int, ghost start: seq<Word>, ghost e: Expr) returns (err: int)
      requires kind in {MUL, AND, BANG, TILDE, ADD, INC, DEC} && Stands(start, e) && GoodSymbols(symbols)
      modifies `text, `exprType
      ensures match ParsePrefix(Names(), kind, e, rest)
        case Err(c) => err == c
        case Ok(p, _) => err == 0 && text == With(base, start, ExprCode(Names(), p)) && exprType == TypeOf(Names(), p)
    {
      ghost var g := Names();
      ghost var c := ExprCode(g, e);
      hide ExprCode, TypeOf, With, Accepted, Shaped, EndsInLoad, LastWord, DropLast, GoodSymbols, StepCode;
      ExprShaped(g, e);
      CodeOfPrefix(g, kind == INC, e);
      TypeOfPrefix(g, kind == INC, if kind == BANG then Not else if kind == TILDE then Complement else Plus, e);
      err := 0;
      if kind == MUL {
        if exprType < PTR_TYPE { return BAD_DEREFERENCE; }
        exprType := exprType - PTR_TYPE;
        Emit([LoadOp(exprType)], start, c, [Op(LoadOp(exprType))]);
      } else if kind == AND {
        WithLast(base, start, c, M.PUSH);
        if text[|text| - 1] != M.LC && text[|text| - 1] != M.LI { return BAD_ADDRESS_OF; }
        text := text[..|text| - 1];
        exprType := exprType + PTR_TYPE;
      } else if kind == BANG {
        Emit([M.PUSH, M.IMM, 0, M.EQ], start, c, [Op(M.PUSH), Op(M.IMM), Arg(0), Op(M.EQ)]);
        exprType := INT_TYPE;
      } else if kind == TILDE {
        Emit([M.PUSH, M.IMM, 0xFFFF_FFFF, M.XOR], start, c, [Op(M.PUSH), Op(M.IMM), Arg(0xFFFF_FFFF), Op(M.XOR)]);
        exprType := INT_TYPE;
      } else if kind == ADD {
        exprType := INT_TYPE;
      } else {
        err := StepInPlace(kind == INC, BAD_PRE_INCREMENT, start, c);
      }
    }

    // Turn the load that ends `code` into a read, a step and a write back.
    method StepInPlace(up: bool, message: ErrorNumber, ghost start: seq<Word>, ghost code: Code) returns (err: int)
      requires text == With(base, start, code) && Shaped(code)
      modifies `text
      ensures EndsInLoad(code) ==>
        (err == 0 && text == With(base, start, DropLast(code) + StepCode(LastWord(code), exprType, up)))
      ensures !EndsInLoad(code) ==> err == message
    {
      hide With, Shaped;
      var last;
      err, last := PushAddress(message, start, code);
      if err != 0 { return; }
      var op, store, size := if up then M.ADD else M.SUB, StoreOp(exprType), StepSize(exprType);
      ghost var front := DropLast(code) + [Op(M.PUSH)];
      ghost var tail := [Op(last), Op(M.PUSH), Op(M.IMM), Arg(size), Op(op), Op(store)];
      Emit([last, M.PUSH, M.IMM, size, op, store], start, front, tail);
      assert front + tail == DropLast(code) + StepCode(last, exprType, up);
    }

    // Rewrite the load that ends `code` into a push of the address it loads from.
    method PushAddress(message: ErrorNumber, ghost start: seq<Word>, ghost code: Code) returns (err: int, last: Word)
      requires text == With(base, start, code) && Shaped(code)
      modifies `text
      ensures EndsInLoad(code) ==>
        (err == 0 && last == LastWord(code) && text == With(base, start, DropLast(code) + [Op(M.PUSH)]))
      ensures !EndsInLoad(code) ==> err == message
    {
      WithLast(base, start, code, M.PUSH);
      hide With, Shaped;
      err, last := 0, text[|text| - 1];
      if last != M.LC && last != M.LI { return message, last; }
      text := text[|text| - 1 := M.PUSH];
    }

    // A name: a call when a parenthesis follows, a constant or a variable otherwise.
    method Name() returns (err: int)
      requires Valid() && token == ID
      modifies `token, `tokenVal, `currentId, `src, `rest, `text, `exprType
      ensures Valid()
      ensures match ParseName(Names(), old(rest))
        case Err(c) => err == c
        case Ok(e, r) => err == 0 && rest == r && Emitted(ExprCode(Names(), e)) && exprType == TypeOf(Names(), e)
      decreases |rest|, 1
    {
      ghost var all := rest;
      err := Match(ID);
      var x := currentId;
      if token == LPAREN {
        hide ExprCode, TypeOf;
        err := CallTo(x, all);
      } else {
        err := Variable(x);
      }
    }

    // The arguments of a call and the call itself; the name has been stepped past.
    method CallTo(x: nat, ghost all: seq<Token>) returns (err: int)
      requires Valid() && token == LPAREN
      requires |all| > 0 && all[0].IdTok? && SymbolPast(all) == x && rest == all[1..]
      modifies `token, `tokenVal, `currentId, `src, `rest, `text, `exprType
      ensures Valid()
      ensures match ParseName(Names(), all)
        case Err(c) => err == c
        case Ok(e, r) => err == 0 && rest == r && Emitted(ExprCode(Names(), e)) && exprType == TypeOf(Names(), e)
      decreases |rest|, 6
    {
      ghost var start, g := text, Names();
      var entry := if x in symbols then symbols[x] else Symbol(Unused, 0, 0, Unused, 0, 0);
      assert entry == Lookup(g, x);
      err := Match(LPAREN);
      assert rest == all[2..];
      ghost var args := ParseArgs(g, rest);
      GrammarOfCall(g, all);
      hide ParseName, ParseArgs, With, ExprCode, ArgsCode, TypeOf, SymbolPast, Valid;
      var n;
      err, n := Arguments();
      if err != 0 { return; }
      ghost var code := ArgsCode(g, args.value);
      CodeOfCall(g, x, args.value);
      err := CallCode(entry, n, start, code);
    }

    // The call instruction, and the removal of the `n` arguments from the stack.
    method CallCode(entry: Symbol, n: nat, ghost start: seq<Word>, ghost code: Code) returns (err: int)
      requires text == With(base, start, code)
      modifies `text, `exprType
      ensures entry.class_ in {Library, Function} ==>
        (err == 0 && text == With(base, start, code + CallTail(entry, n)) && exprType == entry.type_)
      ensures entry.class_ !in {Library, Function} ==> err == BAD_CALL
    {
      hide With;
      ghost var target: Code;
      if entry.class_ == Library {
        target := [Op(entry.value)];
        Emit([entry.value], start, code, target);
      } else if entry.class_ == Function {
        target := [Op(M.CALL), Arg(entry.value)];
        Emit([M.CALL, entry.value], start, code, target);
      } else {
        return BAD_CALL;
      }
      if n > 0 {
        Emit([M.ADJ, ToWord(n)], start, code + target, [Op(M.ADJ), Arg(ToWord(n))]);
        assert code + target + [Op(M.ADJ), Arg(ToWord(n))] == code + CallTail(entry, n);
      } else {
        assert target == CallTail(entry, n);
      }
      exprType := entry.type_;
      err := 0;
    }

    // An enumeration constant or a variable; the name has been stepped past.
    method Variable(x: nat) returns (err: int)
      requires Valid()
      modifies `text, `exprType
      ensures Lookup(Names(), x).class_ in {Enumerator, Local, Global} ==>
        (err == 0 && Emitted(IdentCode(Names(), x)) && exprType == TypeOf(Names(), Ident(x)))
      ensures Lookup(Names(), x).class_ !in {Enumerator, Local, Global} ==> err == UNDEFINED_VARIABLE
    {
      var entry := if x in symbols then symbols[x] else Symbol(Unused, 0, 0, Unused, 0, 0);
      assert entry == Lookup(Names(), x);
      hide With;
      if entry.class_ == Enumerator {
        EmitBlock([M.IMM, entry.value], IdentCode(Names(), x));
        exprType := INT_TYPE;
      } else if entry.class_ == Local {
        var offset := ToWord(indexOfBp - Signed(entry.value));
        exprType := entry.type_;
        EmitBlock([M.LEA, offset, LoadOp(exprType)], IdentCode(Names(), x));
      } else if entry.class_ == Global {
        exprType := entry.type_;
        EmitBlock([M.IMM, entry.value, LoadOp(exprType)], IdentCode(Names(), x));
      } else {
        return UNDEFINED_VARIABLE;
      }
      err := 0;
    }

    // Arguments up to and including the closing parenthesis, each pushed.
    method Arguments() returns (err: int, n: nat)
      requires Valid()
      modifies `token, `tokenVal, `currentId, `src, `rest, `text, `exprType
      ensures Valid()
      ensures match ParseArgs(Names(), old(rest))
        case Err(c) => err == c
        case Ok(args, r) => err == 0 && rest == r && Emitted(ArgsCode(Names(), args)) && n == Count(args)
      decreases |rest|, 5
    {
      hide With, ParseExpr, ExprCode, GoodSymbols, ValidToken, ArgsFrom;
      ghost var start, g, all := text, Names(), rest;
      ghost var seen: Code := [];
      n := 0;
      err := 0;
      WithNothing(base, start);
      ArgsNone(g, all);
      while token != RPAREN
        invariant Valid() && err == 0 && |rest| <= |all|
        invariant text == With(base, start, seen)
        invariant ArgsFrom(g, all, seen, n, rest)
        decreases |rest|
      {
        ghost var e := ParseExpr(g, ASSIGN, rest);
        ghost var before := rest;
        err := Operand(ASSIGN, start, seen);
        if err != 0 {
          ArgsFail(g, all, seen, n, before);
          return;
        }
        ghost var c := ExprCode(g, e.value);
        Emit([M.PUSH], start, seen + c, [Op(M.PUSH)]);
        if token == COMMA {
          err := Match(COMMA);
        }
        ArgsStep(g, all, seen, n, before, e.value, e.rest);
        n := n + 1;
        seen := seen + c + [Op(M.PUSH)];
      }
      ArgsEnd(g, all, seen, n, rest);
      err := Match(RPAREN);
    }

    // One operator after the tree `left`, whose code starts where the text was `start`.
    method Operator(ghost left: Expr, ghost start: seq<Word>) returns (err: int)
      requires Valid() && token >= ASSIGN && Stands(start, left)
      modifies `token, `tokenVal, `currentId, `src, `rest, `text, `exprType
      ensures Valid()
      ensures match ParseOp(Names(), left, old(rest))
        case Err(c) => err == c
        case Ok(e, r) => err == 0 && rest == r && Stands(start, e)
      decreases |rest|, 2
    {
      if token == ASSIGN {
        err := AssignTail(left, start);
      } else if token == COND {
        err := ConditionalTail(left, start);
      } else if token == LOR || token == LAN {
        err := ShortCircuitTail(left, start);
      } else if token == INC || token == DEC {
        err := StepTail(left, start);
      } else if token == BRAK {
        err := IndexTail(left, start);
      } else if BinOpOf(token).Some? {
        err := InfixTail(left, start);
      } else {
        return COMPILER_ERROR;
      }
    }

    method AssignTail(ghost left: Expr, ghost start: seq<Word>) returns (err: int)
      requires Valid() && token == ASSIGN && Stands(start, left)
      modifies `token, `tokenVal, `currentId, `src, `rest, `text, `exprType
      ensures Valid()
      ensures match ParseOp(Names(), left, old(rest))
        case Err(c) => err == c
        case Ok(e, r) => err == 0 && rest == r && Stands(start, e)
      decreases |rest|, 1
    {
      hide ParseExpr, ParseOps, ParseUnit, ParseOp, ExprCode, TypeOf, With, Accepted;
      hide Shaped, EndsInLoad, LastWord, DropLast, GoodSymbols, Valid;
      ghost var g := Names();
      ghost var c := ExprCode(g, left);
      ValidParts();
      GrammarOfAssign(g, left, rest);
      ExprShaped(g, left);
      var t, last := exprType, 0;
      err := Match(ASSIGN);
      err, last := PushAddress(BAD_ASSIGNMENT, start, c);
      if err != 0 { return; }
      ghost var right := ParseExpr(g, ASSIGN, rest);
      ghost var front := DropLast(c) + [Op(M.PUSH)];
      err := Operand(ASSIGN, start, front);
      if err != 0 { return; }
      exprType := t;
      Emit([StoreOp(exprType)], start, front + ExprCode(g, right.value), [Op(StoreOp(t))]);
      CodeOfAssign(g, left, right.value);
    }

    method ConditionalTail(ghost left: Expr, ghost start: seq<Word>) returns (err: int)
      requires Valid() && token == COND && Stands(start, left)
      modifies `token, `tokenVal, `currentId, `src, `rest, `text, `exprType
      ensures Valid()
      ensures match ParseOp(Names(), left, old(rest))
        case Err(c) => err == c
        case Ok(e, r) => err == 0 && rest == r && Stands(start, e)
      decreases |rest|, 1
    {
      hide ParseExpr, ParseOps, ParseUnit, ParseOp, ExprCode, TypeOf, With, Accepted, Shaped, Open, GoodSymbols, Valid;
      ghost var g := Names();
      ghost var c := ExprCode(g, left);
      ValidParts();
      GrammarOfConditional(g, left, rest);
      err := Match(COND);
      var addr := EmitJump(M.JZ, start, c);
      ghost var first := ParseExpr(g, ASSIGN, rest);
      err := Expression(ASSIGN);
      if err != 0 { return; }
      ghost var a := ExprCode(g, first.value);
      ValidParts();
      if token != COLON { return MISSING_COLON; }
      err := Match(COLON);
      ghost var second := ParseExpr(g, COND, rest);
      err := OtherOperand(addr, start, c, a);
      if err != 0 { return; }
      CodeOfConditional(g, left, first.value, second.value);
    }

    // The first operand jumps over the second one; the condition jumps to the second one.
    method OtherOperand(addr: nat, ghost start: seq<Word>, ghost c: Code, ghost a: Code) returns (err: int)
      requires Valid() && addr == |start| + |c| + 1
      requires text == With(base, Open(base, start, c, M.JZ), a)
      modifies `token, `tokenVal, `currentId, `src, `rest, `text, `exprType
      ensures Valid()
      ensures match ParseExpr(Names(), COND, old(rest))
        case Err(t) => err == t
        case Ok(e, r) =>
          && err == 0 && rest == r && exprType == TypeOf(Names(), e)
          && text == With(base, start, BranchCode(c, a, ExprCode(Names(), e)))
      decreases |rest|, 4
    {
      hide ParseExpr, ExprCode, TypeOf, With, Open, Valid;
      ghost var g, p := Names(), ParseExpr(Names(), COND, rest);
      Patch(addr, 2, start, c, M.JZ, a);
      ghost var front := c + [Op(M.JZ), Rel(|a| + 3)] + a;
      var next := EmitJump(M.JMP, start, front);
      err := Expression(COND);
      if err != 0 { return; }
      Patch(next, 0, start, front, M.JMP, ExprCode(g, p.value));
    }

    method ShortCircuitTail(ghost left: Expr, ghost start: seq<Word>) returns (err: int)
      requires Valid() && (token == LOR || token == LAN) && Stands(start, left)
      modifies `token, `tokenVal, `currentId, `src, `rest, `text, `exprType
      ensures Valid()
      ensures match ParseOp(Names(), left, old(rest))
        case Err(c) => err == c
        case Ok(e, r) => err == 0 && rest == r && Stands(start, e)
      decreases |rest|, 1
    {
      ghost var g := Names();
      ghost var c := ExprCode(g, left);
      hide ParseExpr, ParseOps, ParseUnit, ExprCode, TypeOf, With, Accepted, Shaped, Open, GoodSymbols, ValidToken;
      var jump, level := if token == LOR then M.JNZ else M.JZ, if token == LOR then LAN else OR;
      err := Match(token);
      var addr := EmitJump(jump, start, c);
      ghost var right := ParseExpr(g, level, rest);
      err := Expression(level);
      if err != 0 { return; }
      ghost var b := ExprCode(g, right.value);
      Patch(addr, 0, start, c, jump, b);
      exprType := INT_TYPE;
      CodeOfLogical(g, left, right.value);
    }

    method InfixTail(ghost left: Expr, ghost start: seq<Word>) returns (err: int)
      requires Valid() && BinOpOf(token).Some? && Stands(start, left)
      modifies `token, `tokenVal, `currentId, `src, `rest, `text, `exprType
      ensures Valid()
      ensures match ParseOp(Names(), left, old(rest))
        case Err(c) => err == c
        case Ok(e, r) => err == 0 && rest == r && Stands(start, e)
      decreases |rest|, 1
    {
      hide ParseExpr, ParseOps, ParseUnit, ParseOp, ExprCode, TypeOf, With, Accepted, Shaped;
      hide BinOpOf, RightLevel, BinaryTail, GoodSymbols, Valid;
      ghost var g, all := Names(), rest;
      ghost var c := ExprCode(g, left);
      var op, t := BinOpOf(token).value, exprType;
      ValidParts();
      OperatorIsNoEnd(token);
      GrammarOfInfix(g, left, all, op);
      CodeOfBinaryType(g, op, left);
      RightLevelIsOperator(op);
      ghost var right := ParseExpr(g, RightLevel(op), all[1..]);
      err := Match(token);
      ghost var front := c + [Op(M.PUSH)];
      Emit([M.PUSH], start, c, [Op(M.PUSH)]);
      err := Operand(RightLevel(op), start, front);
      if err != 0 { return; }
      InfixCode(op, t, start, front + ExprCode(g, right.value));
      CodeOfBinary(g, op, left, right.value);
    }

    // The code after the right operand of a binary operator, and the type of the result.
    method InfixCode(op: BinOp, t: int, ghost start: seq<Word>, ghost front: Code)
      requires text == With(base, start, front)
      modifies `text, `exprType
      ensures text == With(base, start, front + BinaryTail(op, t, old(exprType)))
      ensures exprType == if op == BSub && t > PTR_TYPE && t == old(exprType) then INT_TYPE
                          else if op in {BAdd, BSub, BMul, BDiv, BMod} then t else INT_TYPE
    {
      hide With;
      if op == BSub && t > PTR_TYPE && t == exprType {
        Emit([M.SUB, M.PUSH, M.IMM, 4, M.DIV], start, front, BinaryTail(op, t, exprType));
        exprType := INT_TYPE;
      } else if op == BAdd || op == BSub {
        ScaleIndex(t, start, front);
        Emit([Opcode(op)], start, front + Scale(t), [Op(Opcode(op))]);
        assert front + Scale(t) + [Op(Opcode(op))] == front + BinaryTail(op, t, exprType);
        exprType := t;
      } else {
        Emit([Opcode(op)], start, front, BinaryTail(op, t, exprType));
        exprType := if op == BMul || op == BDiv || op == BMod then t else INT_TYPE;
      }
    }

    // Multiply the accumulator by the word size for a pointer other than `char *`.
    method ScaleIndex(t: int, ghost start: seq<Word>, ghost front: Code)
      requires text == With(base, start, front)
      modifies `text
      ensures text == With(base, start, front + Scale(t))
    {
      if t > PTR_TYPE {
        Emit([M.PUSH, M.IMM, 4, M.MUL], start, front, Scale(t));
      } else {
        assert front + [] == front;
      }
    }

    method StepTail(ghost left: Expr, ghost start: seq<Word>) returns (err: int)
      requires Valid() && (token == INC || token == DEC) && Stands(start, left)
      modifies `token, `tokenVal, `currentId, `src, `rest, `text, `exprType
      ensures Valid()
      ensures match ParseOp(Names(), left, old(rest))
        case Err(c) => err == c
        case Ok(e, r) => err == 0 && rest == r && Stands(start, e)
      decreases |rest|, 1
    {
      hide ParseExpr, ParseOps, ParseUnit, ParseOp, ExprCode, TypeOf, With, Accepted;
      hide Shaped, EndsInLoad, LastWord, DropLast, GoodSymbols, StepCode, Valid;
      ghost var g := Names();
      ghost var c := ExprCode(g, left);
      ValidParts();
      GrammarOfStep(g, left, rest);
      ExprShaped(g, left);
      CodeOfStep(g, token == INC, left);
      TypeOfPrefix(g, token == INC, Plus, left);
      var up := token == INC;
      err := StepInPlace(up, BAD_INCREMENT, start, c);
      if err != 0 { return; }
      var undo := if up then M.SUB else M.ADD;
      Emit([M.PUSH, M.IMM, StepSize(exprType), undo], start,
           DropLast(c) + StepCode(LastWord(c), exprType, up), UndoStep(exprType, up));
      err := Match(token);
    }

    method IndexTail(ghost left: Expr, ghost start: seq<Word>) returns (err: int)
      requires Valid() && token == BRAK && Stands(start, left)
      modifies `token, `tokenVal, `currentId, `src, `rest, `text, `exprType
      ensures Valid()
      ensures match ParseOp(Names(), left, old(rest))
        case Err(c) => err == c
        case Ok(e, r) => err == 0 && rest == r && Stands(start, e)
      decreases |rest|, 1
    {
      hide ParseExpr, ParseOps, ParseUnit, ParseOp, ExprCode, TypeOf, With, Accepted, Shaped, GoodSymbols, Valid;
      ghost var g := Names();
      ghost var c := ExprCode(g, left);
      ValidParts();
      GrammarOfIndex(g, left, rest);
      var t := exprType;
      err := Match(BRAK);
      ghost var front := c + [Op(M.PUSH)];
      Emit([M.PUSH], start, c, [Op(M.PUSH)]);
      ghost var index := ParseExpr(g, ASSIGN, rest);
      err := Operand(ASSIGN, start, front);
      if err != 0 { return; }
      err := Match(RBRACK);
      if err != 0 { return; }
      if t < PTR_TYPE { return POINTER_EXPECTED; }
      ghost var i := ExprCode(g, index.value);
      ScaleIndex(t, start, front + i);
      exprType := t - PTR_TYPE;
      Emit([M.ADD, LoadOp(exprType)], start, front + i + Scale(t), [Op(M.ADD), Op(LoadOp(t - PTR_TYPE))]);
      CodeOfIndex(g, left, index.value);
    }

    // ----- statements -----

    method Statement() returns (err: int)
      requires Valid()
      modifies `token, `tokenVal, `currentId, `src, `rest, `text, `exprType
      ensures Valid()
      ensures match ParseStmt(Names(), old(rest))
        case Err(c) => err == c
        case Ok(s, r) => err == 0 && rest == r && Emitted(StmtCode(Names(), s))
      decreases |rest|, 6
    {
      hide With, ParseExpr, ExprCode, ParseCondition, ParseStmts, GoodSymbols, ValidToken;
      if token == IF {
        err := IfStatement();
      } else if token == WHILE {
        err := WhileStatement();
      } else if token == LBRACE {
        err := Match(LBRACE);
        err := Statements();
        if err != 0 { return; }
        err := Match(RBRACE);
      } else if token == RETURN {
        err := ReturnStatement();
      } else if token == SEMI {
        WithNothing(base, text);
        err := Match(SEMI);
      } else {
        err := Expression(ASSIGN);
        if err != 0 { return; }
        err := Match(SEMI);
      }
    }

    // A condition in parentheses.
    method Condition() returns (err: int)
      requires Valid()
      modifies `token, `tokenVal, `currentId, `src, `rest, `text, `exprType
      ensures Valid()
      ensures match ParseCondition(Names(), old(rest))
        case Err(c) => err == c
        case Ok(e, r) => err == 0 && rest == r && Emitted(ExprCode(Names(), e))
      decreases |rest|, 4
    {
      err := Match(LPAREN);
      if err != 0 { return; }
      hide ParseExpr, ExprCode, With;
      err := Expression(ASSIGN);
      if err != 0 { return; }
      err := Match(RPAREN);
    }

    // A jump over the first branch; with an `else`, a second one over the other branch.
    method IfStatement() returns (err: int)
      requires Valid() && token == IF
      modifies `token, `tokenVal, `currentId, `src, `rest, `text, `exprType
      ensures Valid()
      ensures match ParseStmt(Names(), old(rest))
        case Err(c) => err == c
        case Ok(s, r) => err == 0 && rest == r && Emitted(StmtCode(Names(), s))
      decreases |rest|, 5
    {
      ghost var all, start := rest, text;
      assert |all| > 0 && Kind(all) == IF;
      hide ParseStmt, StmtCode, ParseCondition, ParseExpr, ExprCode, With, Open;
      err := Match(IF);
      ghost var p := ParseCondition(Names(), rest);
      err := Condition();
      if err != 0 {
        GrammarOfIfError(Names(), all);
        return;
      }
      err := Branches(all, start, p.value);
    }

    // The branches of an `if`, after the condition `c`.
    method Branches(ghost all: seq<Token>, ghost start: seq<Word>, ghost c: Expr) returns (err: int)
      requires Valid() && |all| > 0 && Kind(all) == IF && |rest| < |all|
      requires ParseCondition(Names(), all[1..]) == Ok(c, rest)
      requires text == With(base, start, ExprCode(Names(), c))
      modifies `token, `tokenVal, `currentId, `src, `rest, `text, `exprType
      ensures Valid()
      ensures match ParseStmt(Names(), all)
        case Err(c) => err == c
        case Ok(s, r) => err == 0 && rest == r && text == With(base, start, StmtCode(Names(), s))
      decreases |rest|, 7
    {
      ghost var g, p := Names(), ParseStmt(Names(), rest);
      hide ParseStmt, StmtCode, ParseCondition, ParseExpr, ExprCode, With, Open;
      var addr := EmitJump(M.JZ, start, ExprCode(g, c));
      err := Statement();
      if err != 0 {
        GrammarOfIf(g, all, c, p);
        return;
      }
      ghost var code := StmtCode(g, p.value);
      if token == ELSE {
        ghost var q := ParseStmt(g, rest[1..]);
        GrammarOfElse(g, all, c, p, q);
        CodeOfBranches(g, c, p.value, if q.Ok? then q.value else Empty);
        err := ElseBranch(addr, start, ExprCode(g, c), code);
      } else {
        GrammarOfIf(g, all, c, p);
        CodeOfBranches(g, c, p.value, Empty);
        Patch(addr, 0, start, ExprCode(g, c), M.JZ, code);
      }
    }

    // The first branch jumps over the second one; the condition jumps to the second one.
    method ElseBranch(addr: nat, ghost start: seq<Word>, ghost c: Code, ghost a: Code) returns (err: int)
      requires Valid() && token == ELSE && addr == |start| + |c| + 1
      requires text == With(base, Open(base, start, c, M.JZ), a)
      modifies `token, `tokenVal, `currentId, `src, `rest, `text, `exprType
      ensures Valid()
      ensures match ParseStmt(Names(), old(rest)[1..])
        case Err(t) => err == t
        case Ok(s, r) => err == 0 && rest == r && text == With(base, start, BranchCode(c, a, StmtCode(Names(), s)))
      decreases |rest|, 4
    {
      hide ParseStmt, StmtCode, ParseExpr, ExprCode, With, Open;
      err := Match(ELSE);
      Patch(addr, 2, start, c, M.JZ, a);
      ghost var front := c + [Op(M.JZ), Rel(|a| + 3)] + a;
      var next := EmitJump(M.JMP, start, front);
      ghost var p := ParseStmt(Names(), rest);
      err := Statement();
      if err != 0 { return; }
      Patch(next, 0, start, front, M.JMP, StmtCode(Names(), p.value));
    }

    // A jump over the body, and one back to the condition after it.
    method WhileStatement() returns (err: int)
      requires Valid() && token == WHILE
      modifies `token, `tokenVal, `currentId, `src, `rest, `text, `exprType
      ensures Valid()
      ensures match ParseStmt(Names(), old(rest))
        case Err(c) => err == c
        case Ok(s, r) => err == 0 && rest == r && Emitted(StmtCode(Names(), s))
      decreases |rest|, 5
    {
      ghost var g, start := Names(), text;
      hide ParseStmt, StmtCode, ParseCondition, ParseExpr, ExprCode, With, Open, GoodSymbols, ValidToken;
      GrammarOfWhile(g, rest);
      err := Match(WHILE);
      var top := Here();
      ghost var p := ParseCondition(g, rest);
      err := Condition();
      if err != 0 { return; }
      ghost var c := ExprCode(g, p.value);
      var addr := EmitJump(M.JZ, start, c);
      ghost var p1 := ParseStmt(g, rest);
      err := Statement();
      if err != 0 { return; }
      ghost var a := StmtCode(g, p1.value);
      CloseLoop(top, addr, start, c, a);
      CodeOfBranches(g, p.value, p1.value, Empty);
    }

    // The jump back to `top`, and the exit of the loop after it.
    method CloseLoop(top: int, addr: nat, ghost start: seq<Word>, ghost c: Code, ghost body: Code)
      requires text == With(base, Open(base, start, c, M.JZ), body) && addr == |start| + |c| + 1
      requires top == base + 4 * |start|
      modifies `text
      ensures text == With(base, start, LoopCode(c, body))
    {
      WithLoop(base, start, c, body);
      text := text + [M.JMP, ToWord(top)];
      text := text[addr := ToWord(Here())];
    }

    method ReturnStatement() returns (err: int)
      requires Valid() && token == RETURN
      modifies `token, `tokenVal, `currentId, `src, `rest, `text, `exprType
      ensures Valid()
      ensures match ParseStmt(Names(), old(rest))
        case Err(c) => err == c
        case Ok(s, r) => err == 0 && rest == r && Emitted(StmtCode(Names(), s))
      decreases |rest|, 5
    {
      hide ParseExpr, ExprCode, With, ParseCondition, ParseStmts, GoodSymbols, ValidToken;
      ghost var g, start, all := Names(), text, rest;
      err := Match(RETURN);
      if token == SEMI {
        err := Match(SEMI);
        EmitBlock([M.LEV], [Op(M.LEV)]);
        assert rest == all[2..];
      } else {
        ghost var p := ParseExpr(g, ASSIGN, rest);
        err := Expression(ASSIGN);
        if err != 0 { return; }
        err := Match(SEMI);
        if err != 0 { return; }
        Emit([M.LEV], start, ExprCode(g, p.value), [Op(M.LEV)]);
      }
    }

    // Statements up to a closing brace, which is left to the caller.
    method Statements() returns (err: int)
      requires Valid()
      modifies `token, `tokenVal, `currentId, `src, `rest, `text, `exprType
      ensures Valid()
      ensures match ParseStmts(Names(), old(rest))
        case Err(c) => err == c
        case Ok(ss, r) => err == 0 && rest == r && Emitted(StmtsCode(Names(), ss))
      decreases |rest|, 7
    {
      ghost var start, g, all := text, Names(), rest;
      ghost var seen: Code := [];
      err := 0;
      WithNothing(base, start);
      assert forall c: Code :: [] + c == c;
      while token != RBRACE
        invariant Valid() && err == 0 && |rest| <= |all|
        invariant text == With(base, start, seen)
        invariant StmtsFrom(g, all, seen, rest)
        decreases |rest|
      {
        ghost var p := ParseStmt(g, rest);
        ghost var before := rest;
        hide With, ParseStmt, StmtCode;
        err := Statement();
        if err != 0 { return; }
        WithAppend(base, start, seen, StmtCode(g, p.value));
        StmtsStep(g, all, seen, before, p.value, rest);
        seen := seen + StmtCode(g, p.value);
      }
      assert seen + [] == seen;
    }

    // ----- function declarations -----

    // One declared name, which becomes local and gets the number `v`.
    method Declarator(base: int, v: nat, bad: ErrorNumber, again: ErrorNumber, ghost b: Bindings) returns (err: int)
      requires Valid() && b.symbols == symbols
      modifies `token, `tokenVal, `currentId, `src, `rest, `symbols
      ensures Valid()
      ensures match ParseDeclarator(b, base, v, bad, again, old(rest))
        case Err(c) => err == c
        case Ok(b1, r) => err == 0 && rest == r && symbols == b1.symbols
    {
      hide GoodSymbols;
      GoodSymbolsBind(symbols);
      var t := PointerStars(base);
      if token != ID { return bad; }
      if IsLocal(symbols, currentId) { return again; }
      err := Match(ID);
      symbols := Bind(symbols, currentId, t, ToWord(v));
      if token == COMMA {
        err := Match(COMMA);
      }
    }

    // Parameters up to the closing parenthesis; then the slots of the locals are known.
    method FunctionParameter() returns (err: int)
      requires Valid()
      modifies `token, `tokenVal, `currentId, `src, `rest, `symbols, `indexOfBp
      ensures Valid()
      ensures match ParseParams(Bindings(old(symbols), 0, []), old(rest))
        case Err(c) => err == c
        case Ok(b, r) => err == 0 && rest == r && Names() == Scope(b.symbols, b.count + 1)
    {
      ghost var whole := ParseParams(Bindings(symbols, 0, []), rest);
      ghost var b := Bindings(symbols, 0, []);
      var params := 0;
      while token != RPAREN
        invariant Valid() && b.symbols == symbols && b.count == params
        invariant ParseParams(b, rest) == whole
        decreases |rest|
      {
        hide ParseDeclarator;
        ghost var all := rest;
        var t := INT_TYPE;
        if token == INT {
          err := Match(INT);
        } else if token == CHAR {
          t := CHAR_TYPE;
          err := Match(CHAR);
        }
        ghost var p := ParseDeclarator(b, t, params, BAD_PARAMETER, DUPLICATE_PARAMETER, rest);
        err := Declarator(t, params, BAD_PARAMETER, DUPLICATE_PARAMETER, b);
        if err != 0 { return; }
        b := p.value;
        params := params + 1;
      }
      err := 0;
      indexOfBp := params + 1;
    }

    // Local declarations; returns the number of the last slot.
    method LocalDeclarations(ghost b0: Bindings) returns (err: int, pos: int)
      requires Valid() && b0.symbols == symbols && b0.count == indexOfBp
      modifies `token, `tokenVal, `currentId, `src, `rest, `symbols
      ensures Valid()
      ensures match ParseLocals(b0, old(rest))
        case Err(c) => err == c
        case Ok(b, r) => err == 0 && rest == r && symbols == b.symbols && pos == b.count
    {
      ghost var whole, b := ParseLocals(b0, rest), b0;
      pos := indexOfBp;
      while token == INT || token == CHAR
        invariant Valid() && b.symbols == symbols && b.count == pos
        invariant ParseLocals(b, rest) == whole
        decreases |rest|
      {
        hide ParseNames;
        var base := if token == INT then INT_TYPE else CHAR_TYPE;
        err := Match(token);
        ghost var p := ParseNames(b, base, rest);
        err, pos := DeclaredNames(base, pos, b);
        if err != 0 { return; }
        b := p.value;
        err := Match(SEMI);
      }
      err := 0;
    }

    // The names of one declaration, up to its semicolon.
    method DeclaredNames(base: int, first: nat, ghost b0: Bindings) returns (err: int, pos: nat)
      requires Valid() && b0.symbols == symbols && b0.count == first
      modifies `token, `tokenVal, `currentId, `src, `rest, `symbols
      ensures Valid()
      ensures match ParseNames(b0, base, old(rest))
        case Err(c) => err == c
        case Ok(b, r) => err == 0 && rest == r && symbols == b.symbols && pos == b.count
    {
      ghost var whole, b := ParseNames(b0, base, rest), b0;
      pos := first;
      while token != SEMI
        invariant Valid() && b.symbols == symbols && b.count == pos
        invariant ParseNames(b, base, rest) == whole
        decreases |rest|
      {
        hide ParseDeclarator;
        ghost var p := ParseDeclarator(b, base, pos + 1, BAD_LOCAL, DUPLICATE_LOCAL, rest);
        err := Declarator(base, pos + 1, BAD_LOCAL, DUPLICATE_LOCAL, b);
        if err != 0 { return; }
        b := p.value;
        pos := pos + 1;
      }
      err := 0;
    }

    // The body: its locals, the entry that makes room for them, the statements, the exit.
    method FunctionBody(ghost b: Bindings) returns (err: int)
      requires Valid() && Names() == Scope(b.symbols, b.count + 1)
      modifies `token, `tokenVal, `currentId, `src, `rest, `text, `exprType, `symbols
      ensures Valid()
      ensures match ParseBody(b, old(rest))
        case Err(c) => err == c
        case Ok(d, r) =>
          err == 0 && rest == r && Names() == d.fun.scope && Emitted(FunctionCode(d.fun.scope, d.fun.locals, d.fun.body))
    {
      hide With, ParseLocals, ParseStmts, StmtsCode, ToWord, ParseStmt, Valid, GoodSymbols;
      ghost var start := text;
      ghost var p := ParseLocals(b.(count := b.count + 1), rest);
      var pos;
      err, pos := LocalDeclarations(b.(count := b.count + 1));
      if err != 0 { return; }
      var room := ToWord(pos - indexOfBp);
      EmitBlock([M.ENT, room], [Op(M.ENT), Arg(room)]);
      ghost var g, q := Names(), ParseStmts(Names(), rest);
      err := Statements();
      if err != 0 { return; }
      WithAppend(base, start, [Op(M.ENT), Arg(room)], StmtsCode(g, q.value));
      Emit([M.LEV], start, [Op(M.ENT), Arg(room)] + StmtsCode(g, q.value), [Op(M.LEV)]);
    }

    // Every local name takes back its outer meaning.
    method Unwind()
      requires GoodSymbols(symbols)
      modifies `symbols
      ensures GoodSymbols(symbols)
      ensures symbols.Keys == old(symbols).Keys && forall x :: x in symbols ==> symbols[x] == Unbound(old(symbols)[x])
    {
      var left := symbols.Keys;
      while left != {}
        invariant left <= symbols.Keys == old(symbols).Keys
        invariant forall x :: x in symbols ==>
          symbols[x] == if x in left then old(symbols)[x] else Unbound(old(symbols)[x])
        decreases left
      {
        var x :| x in left;
        if symbols[x].class_ == Local {
          symbols := symbols[x := Unbound(symbols[x])];
        }
        left := left - {x};
      }
    }

    // A function from its opening parenthesis up to the brace that closes its body.
    method FunctionDeclaration() returns (err: int)
      requires Valid()
      modifies `token, `tokenVal, `currentId, `src, `rest, `text, `exprType, `symbols, `indexOfBp
      ensures Valid()
      ensures match ParseFunction(old(symbols), old(rest))
        case Err(c) => err == c
        case Ok(d, r) =>
          && err == 0 && rest == r
          && Emitted(FunctionCode(d.fun.scope, d.fun.locals, d.fun.body))
          && forall x :: Entry(symbols, x) == Unbound(Entry(d.fun.scope.symbols, x))
    {
      hide With, ParseParams, ParseBody, FunctionCode, GoodSymbols;
      ghost var p := ParseParams(Bindings(symbols, 0, []), if |rest| > 0 then rest[1..] else []);
      err := Match(LPAREN);
      if err != 0 { return; }
      err := FunctionParameter();
      if err != 0 { return; }
      err := Match(RPAREN);
      if err != 0 { return; }
      err := Match(LBRACE);
      if err != 0 { return; }
      err := FunctionBody(p.value);
      if err != 0 { return; }
      Unwind();
    }
  }

  // After `n` arguments with code `seen`, the remaining tokens hold the rest of the list.
  ghost predicate ArgsFrom(g: Scope, all: seq<Token>, seen: Code, n: nat, rest: seq<Token>) {
    var p := ParseArgs(g, rest);
    match ParseArgs(g, all)
    case Err(c) => p == Err(c)
    case Ok(args, r) =>
      p.Ok? && p.rest == r && ArgsCode(g, args) == seen + ArgsCode(g, p.value) && Count(args) == n + Count(p.value)
  }

  lemma GrammarOfNegNum(g: Scope, ts: seq<Token>)
    requires |ts| > 1 && Kind(ts) == SUB && ts[1].NumTok?
    ensures ParseUnit(g, ts) == Ok(NegNum(ts[1].value), ts[1..][1..])
    ensures var e := NegNum(ts[1].value);
      ExprCode(g, e) == [Op(M.IMM), Arg(ToWord(-(ts[1].value as int)))] && TypeOf(g, e) == INT_TYPE
  {
    hide ParseExpr, ToWord;
  }

  lemma GrammarOfSizeOf(g: Scope, ts: seq<Token>)
    ensures Kind(ts) != LPAREN ==> ParseSizeOf(g, ts) == Err(EXPECTED_TOKEN)
    ensures Kind(ts) == LPAREN ==>
      var k := Kind(ts[1..]);
      var ts2 := if k == INT || k == CHAR then ts[1..][1..] else ts[1..];
      ParseSizeOf(g, ts) == if Kind(SkipKind(MUL, ts2)) != RPAREN then Err(EXPECTED_TOKEN)
                            else Ok(SizeOf(k == CHAR, CountKind(MUL, ts2)), SkipKind(MUL, ts2)[1..])
  {
  }

  lemma CodeOfSizeOf(g: Scope)
    ensures forall c, n :: ExprCode(g, SizeOf(c, n)) == [Op(M.IMM), Arg(if TypeName(c, n) == CHAR_TYPE then 1 else 4)]
    ensures forall c, n :: TypeOf(g, SizeOf(c, n)) == INT_TYPE
  {
  }

  lemma ArgsNone(g: Scope, all: seq<Token>)
    ensures ArgsFrom(g, all, [], 0, all)
  {
    hide ParseArgs, ArgsCode;
  }

  lemma ArgsFail(g: Scope, all: seq<Token>, seen: Code, n: nat, rest: seq<Token>)
    requires ArgsFrom(g, all, seen, n, rest) && Kind(rest) != RPAREN && ParseExpr(g, ASSIGN, rest).Err?
    ensures ParseArgs(g, all) == Err(ParseExpr(g, ASSIGN, rest).error)
  {
    hide ParseExpr, ArgsCode;
  }

  lemma ArgsEnd(g: Scope, all: seq<Token>, seen: Code, n: nat, rest: seq<Token>)
    requires ArgsFrom(g, all, seen, n, rest) && Kind(rest) == RPAREN
    ensures var r := ParseArgs(g, all); r.Ok? && r.rest == rest[1..] && ArgsCode(g, r.value) == seen && Count(r.value) == n
  {
    hide ParseExpr, ExprCode;
    assert seen + [] == seen;
  }

  lemma ArgsStep(g: Scope, all: seq<Token>, seen: Code, n: nat, before: seq<Token>, e: Expr, after: seq<Token>)
    requires ArgsFrom(g, all, seen, n, before) && Kind(before) != RPAREN
    requires ParseExpr(g, ASSIGN, before) == Ok(e, after)
    ensures ArgsFrom(g, all, seen + ExprCode(g, e) + [Op(M.PUSH)], n + 1,
                     if Kind(after) == COMMA then after[1..] else after)
  {
    hide ParseExpr, ParseArgs, ExprCode;
    var next := if Kind(after) == COMMA then after[1..] else after;
    var p := ParseArgs(g, next);
    GrammarOfArgs(g, before, e, after);
    if p.Ok? {
      var c, d := ExprCode(g, e), ArgsCode(g, p.value);
      assert ArgsCode(g, Cons(e, p.value)) == c + [Op(M.PUSH)] + d;
      hide ArgsCode;
      assert seen + (c + [Op(M.PUSH)] + d) == seen + c + [Op(M.PUSH)] + d;
    }
  }

  // After statements with code `seen`, the remaining tokens hold the rest of the list.
  ghost predicate StmtsFrom(g: Scope, all: seq<Token>, seen: Code, rest: seq<Token>) {
    var p := ParseStmts(g, rest);
    match ParseStmts(g, all)
    case Err(c) => p == Err(c)
    case Ok(ss, r) => p.Ok? && p.rest == r && StmtsCode(g, ss) == seen + StmtsCode(g, p.value)
  }

  // Making a name local keeps the table good.
  lemma GoodSymbolsBind(symbols: Symbols)
    requires GoodSymbols(symbols)
    ensures forall x, t, v :: GoodSymbols(Bind(symbols, x, t, v))
  {
  }

  lemma StmtsStep(g: Scope, all: seq<Token>, seen: Code, before: seq<Token>, s: Stmt, after: seq<Token>)
    requires StmtsFrom(g, all, seen, before) && Kind(before) != RBRACE && ParseStmt(g, before) == Ok(s, after)
    ensures StmtsFrom(g, all, seen + StmtCode(g, s), after)
  {
    hide ParseStmt, StmtCode;
    var p := ParseStmts(g, after);
    assert p.Err? ==> ParseStmts(g, before) == p;
    if p.Ok? {
      assert ParseStmts(g, before) == Ok(Cons(s, p.value), p.rest);
      assert StmtsCode(g, Cons(s, p.value)) == StmtCode(g, s) + StmtsCode(g, p.value);
      hide StmtsCode;
    }
  }
}
