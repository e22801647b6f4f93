/** What function declarations guarantee: the layout of frames, and the way back. */
module FrameLayout {
  import opened Words
  import opened Syntax
  import opened Grammar
  import opened Declarations

  // ----- the layout of a frame -----

  // The slot of a local name, in words from the frame pointer.
  function Slot(g: Scope, x: nat): int {
    Signed(ToWord(g.indexOfBp - Signed(Lookup(g, x).value)))
  }

  ghost predicate NoLocals(symbols: Symbols) {
    forall x :: !IsLocal(symbols, x)
  }

  // Every local name has a number of its own: below `params`, or above `params + 1` up to `count`.
  ghost predicate Numbered(symbols: Symbols, params: nat, count: nat) {
    && (forall x :: IsLocal(symbols, x) ==>
          0 <= Entry(symbols, x).value < params || params + 1 < Entry(symbols, x).value <= count)
    && (forall x, y :: IsLocal(symbols, x) && IsLocal(symbols, y) && x != y ==>
          Entry(symbols, x).value != Entry(symbols, y).value)
  }

  // A new name gets a fresh number: the next parameter, or the next local.
  lemma BindNumbered(symbols: Symbols, params: nat, count: nat, x: nat, t: int, v: nat, params': nat)
    requires Numbered(symbols, params, count) && count + 1 < WORD_LIMIT
    requires (v == params == count && params' == params + 1) || (v == count + 1 && params' == params && params + 1 <= count)
    ensures Numbered(Bind(symbols, x, t, ToWord(v)), params', count + 1)
  {
    var symbols' := Bind(symbols, x, t, ToWord(v));
    WordItself(v);
    hide ToWord;
    assert forall y :: y != x ==> Entry(symbols', y) == Entry(symbols, y);
    assert IsLocal(symbols', x) && Entry(symbols', x).value == v;
  }

  lemma {:induction false} ParamsNumbered(b: Bindings, ts: seq<Token>)
    requires ParseParams(b, ts).Ok? && Numbered(b.symbols, b.count, b.count) && b.count + |ts| < WORD_LIMIT
    ensures var b1 := ParseParams(b, ts).value; Numbered(b1.symbols, b1.count, b1.count)
    decreases |ts|
  {
    hide Numbered, Bind, ToWord;
    if Kind(ts) != RPAREN {
      var ts1 := if Kind(ts) in {INT, CHAR} then ts[1..] else ts;
      var base := if Kind(ts) == CHAR then CHAR_TYPE else INT_TYPE;
      var r := ParseDeclarator(b, base, b.count, BAD_PARAMETER, DUPLICATE_PARAMETER, ts1);
      BindNumbered(b.symbols, b.count, b.count, SymbolPast(SkipKind(MUL, ts1)), base + CountKind(MUL, ts1) * PTR_TYPE,
                   b.count, b.count + 1);
      ParamsNumbered(r.value, r.rest);
    }
  }

  lemma {:induction false} NamesNumbered(b: Bindings, params: nat, base: int, ts: seq<Token>)
    requires ParseNames(b, base, ts).Ok? && Numbered(b.symbols, params, b.count)
    requires params + 1 <= b.count && b.count + |ts| < WORD_LIMIT
    ensures var b1 := ParseNames(b, base, ts).value; Numbered(b1.symbols, params, b1.count)
    decreases |ts|
  {
    hide Numbered, Bind, ToWord;
    if Kind(ts) != SEMI {
      var r := ParseDeclarator(b, base, b.count + 1, BAD_LOCAL, DUPLICATE_LOCAL, ts);
      BindNumbered(b.symbols, params, b.count, SymbolPast(SkipKind(MUL, ts)), base + CountKind(MUL, ts) * PTR_TYPE,
                   b.count + 1, params);
      NamesNumbered(r.value, params, base, r.rest);
    }
  }

  lemma {:induction false} LocalsNumbered(b: Bindings, params: nat, ts: seq<Token>)
    requires ParseLocals(b, ts).Ok? && Numbered(b.symbols, params, b.count)
    requires params + 1 <= b.count && b.count + |ts| < WORD_LIMIT
    ensures var b1 := ParseLocals(b, ts).value; Numbered(b1.symbols, params, b1.count)
    decreases |ts|
  {
    hide Numbered;
    if Kind(ts) == INT || Kind(ts) == CHAR {
      var base := if Kind(ts) == CHAR then CHAR_TYPE else INT_TYPE;
      var r := ParseNames(b, base, ts[1..]);
      NamesNumbered(b, params, base, ts[1..]);
      LocalsNumbered(r.value, params, r.rest[1..]);
    }
  }

  // Where the slot of a numbered name is.
  lemma NumberedSlot(g: Scope, params: nat, locals: nat, x: nat)
    requires Numbered(g.symbols, params, params + 1 + locals) && g.indexOfBp == params + 1
    requires params + 1 + locals < 0x8000_0000 && Lookup(g, x).class_ == Local
    ensures Slot(g, x) == params + 1 - Lookup(g, x).value
    ensures 2 <= Slot(g, x) <= params + 1 || -(locals as int) <= Slot(g, x) <= -1
  {
    assert Lookup(g, x) == Entry(g.symbols, x) && IsLocal(g.symbols, x);
  }

  // The steps of an accepted function: its parameters, then its locals.
  lemma FunctionSteps(symbols: Symbols, ts: seq<Token>) returns (b: Bindings, all: Bindings, rest: seq<Token>)
    requires ParseFunction(symbols, ts).Ok?
    ensures var p := ParseParams(Bindings(symbols, 0, []), ts[1..]);
      p.Ok? && p.value == b && |p.rest| >= 2 && p.rest[2..] == rest && |rest| < |ts| && b.count < |ts|
    ensures var q := ParseLocals(b.(count := b.count + 1), rest);
      q.Ok? && q.value == all && b.count + 1 <= all.count <= b.count + 1 + |rest|
    ensures var d := ParseFunction(symbols, ts).value;
      && d.fun.scope == Scope(all.symbols, b.count + 1) && d.names == all.names
      && d.fun.params == b.count && d.fun.locals == all.count - b.count - 1
  {
    hide ParseParams, ParseLocals, ParseStmts;
    var p := ParseParams(Bindings(symbols, 0, []), ts[1..]);
    b, rest := p.value, p.rest[2..];
    all := ParseLocals(b.(count := b.count + 1), rest).value;
  }

  lemma FunctionNumbered(symbols: Symbols, ts: seq<Token>)
    requires ParseFunction(symbols, ts).Ok? && NoLocals(symbols) && |ts| < 0x4000_0000
    ensures var f := ParseFunction(symbols, ts).value.fun;
      && Numbered(f.scope.symbols, f.params, f.params + 1 + f.locals)
      && f.scope.indexOfBp == f.params + 1 && f.params + 1 + f.locals < 0x8000_0000
  {
    var b, all, rest := FunctionSteps(symbols, ts);
    assert Numbered(symbols, 0, 0);
    hide ParseParams, ParseLocals, ParseStmts, ParseFunction, Numbered, NoLocals;
    ParamsNumbered(Bindings(symbols, 0, []), ts[1..]);
    ParamsThenLocals(b.symbols, b.count);
    LocalsNumbered(b.(count := b.count + 1), b.count, rest);
  }

  lemma ParamsThenLocals(symbols: Symbols, params: nat)
    requires Numbered(symbols, params, params)
    ensures Numbered(symbols, params, params + 1)
  {
  }

  // The frame of every accepted function: parameters from p + 1 down to 2 words above the
  // frame pointer, locals from 1 to k words below it. No two names share a slot, and no
  // name has the slots of the saved frame pointer (0) and the return address (1).
  lemma SlotsAreSafe(symbols: Symbols, ts: seq<Token>)
    requires ParseFunction(symbols, ts).Ok? && NoLocals(symbols) && |ts| < 0x4000_0000
    ensures var f := ParseFunction(symbols, ts).value.fun;
      && (forall x :: Lookup(f.scope, x).class_ == Local ==>
            2 <= Slot(f.scope, x) <= f.params + 1 || -(f.locals as int) <= Slot(f.scope, x) <= -1)
      && (forall x, y :: Lookup(f.scope, x).class_ == Local && Lookup(f.scope, y).class_ == Local && x != y ==>
            Slot(f.scope, x) != Slot(f.scope, y))
  {
    var f := ParseFunction(symbols, ts).value.fun;
    FunctionNumbered(symbols, ts);
    hide ParseFunction, Slot;
    forall x | Lookup(f.scope, x).class_ == Local
      ensures Slot(f.scope, x) == f.params + 1 - Lookup(f.scope, x).value && IsLocal(f.scope.symbols, x)
      ensures Lookup(f.scope, x) == Entry(f.scope.symbols, x)
      ensures 2 <= Slot(f.scope, x) <= f.params + 1 || -(f.locals as int) <= Slot(f.scope, x) <= -1
    {
      NumberedSlot(f.scope, f.params, f.locals, x);
    }
  }

  // ----- leaving a function -----

  predicate SameMeaning(s: Symbol, t: Symbol) {
    s.class_ == t.class_ && s.type_ == t.type_ && s.value == t.value
  }

  // Taking back the locals gives every name its outer meaning.
  ghost predicate Restores(outer: Symbols, symbols: Symbols) {
    forall x :: SameMeaning(Unbound(Entry(symbols, x)), Entry(outer, x))
  }

  ghost predicate Distinct(names: seq<nat>) {
    forall x :: multiset(names)[x] <= 1
  }

  // The entries while names are made local: untouched, shadowed once, or shadowed again.
  ghost predicate Tracks(outer: Symbols, b: Bindings) {
    forall x :: TracksName(outer, b.symbols, b.names, x)
  }

  ghost predicate TracksName(outer: Symbols, symbols: Symbols, names: seq<nat>, x: nat) {
    var n := multiset(names)[x];
    var s := Entry(symbols, x);
    && (n == 0 ==> SameMeaning(s, Entry(outer, x)))
    && (n > 0 ==> s.class_ == Local)
    && (n == 1 ==> SameMeaning(Unbound(s), Entry(outer, x)))
    && (n > 1 ==> s.outerClass == Local)
  }

  lemma DeclaratorTracks(outer: Symbols, b: Bindings, base: int, v: nat, bad: ErrorNumber, again: ErrorNumber,
                         ts: seq<Token>)
    requires Tracks(outer, b) && ParseDeclarator(b, base, v, bad, again, ts).Ok?
    ensures Tracks(outer, ParseDeclarator(b, base, v, bad, again, ts).value)
  {
    var b1 := ParseDeclarator(b, base, v, bad, again, ts).value;
    forall x
      ensures TracksName(outer, b1.symbols, b1.names, x)
    {
      assert TracksName(outer, b.symbols, b.names, x);
      assert multiset(b1.names) == multiset(b.names) + multiset{b1.names[|b.names|]};
    }
  }

  lemma {:induction false} ParamsTrack(outer: Symbols, b: Bindings, ts: seq<Token>)
    requires Tracks(outer, b) && ParseParams(b, ts).Ok?
    ensures Tracks(outer, ParseParams(b, ts).value)
    decreases |ts|
  {
    hide Tracks, ParseDeclarator;
    if Kind(ts) != RPAREN {
      var base := if Kind(ts) == CHAR then CHAR_TYPE else INT_TYPE;
      var ts1 := if Kind(ts) in {INT, CHAR} then ts[1..] else ts;
      var r := ParseDeclarator(b, base, b.count, BAD_PARAMETER, DUPLICATE_PARAMETER, ts1);
      DeclaratorTracks(outer, b, base, b.count, BAD_PARAMETER, DUPLICATE_PARAMETER, ts1);
      ParamsTrack(outer, r.value, r.rest);
    }
  }

  lemma {:induction false} NamesTrack(outer: Symbols, b: Bindings, base: int, ts: seq<Token>)
    requires Tracks(outer, b) && ParseNames(b, base, ts).Ok?
    ensures Tracks(outer, ParseNames(b, base, ts).value)
    decreases |ts|
  {
    hide Tracks, ParseDeclarator;
    if Kind(ts) != SEMI {
      var r := ParseDeclarator(b, base, b.count + 1, BAD_LOCAL, DUPLICATE_LOCAL, ts);
      DeclaratorTracks(outer, b, base, b.count + 1, BAD_LOCAL, DUPLICATE_LOCAL, ts);
      NamesTrack(outer, r.value, base, r.rest);
    }
  }

  lemma {:induction false} LocalsTrack(outer: Symbols, b: Bindings, ts: seq<Token>)
    requires Tracks(outer, b) && ParseLocals(b, ts).Ok?
    ensures Tracks(outer, ParseLocals(b, ts).value)
    decreases |ts|
  {
    hide Tracks;
    if Kind(ts) == INT || Kind(ts) == CHAR {
      var base := if Kind(ts) == CHAR then CHAR_TYPE else INT_TYPE;
      NamesTrack(outer, b, base, ts[1..]);
      var r := ParseNames(b, base, ts[1..]);
      LocalsTrack(outer, r.value, r.rest[1..]);
    }
  }

  // ----- the names on the tokens -----

  lemma {:induction false} ParamsRead(b: Bindings, ts: seq<Token>)
    requires ParseParams(b, ts).Ok?
    ensures var r, h := ParseParams(b, ts), NamesUpTo(RPAREN, true, ts);
      r.value.names == b.names + h.names && r.rest == h.rest
    decreases |ts|
  {
    hide Bind, SymbolPast, SkipKind, IsLocal;
    if Kind(ts) != RPAREN {
      var base := if Kind(ts) == CHAR then CHAR_TYPE else INT_TYPE;
      var ts1 := if Kind(ts) in {INT, CHAR} then ts[1..] else ts;
      var r := ParseDeclarator(b, base, b.count, BAD_PARAMETER, DUPLICATE_PARAMETER, ts1);
      ParamsRead(r.value, r.rest);
    }
  }

  lemma {:induction false} NamesRead(b: Bindings, base: int, ts: seq<Token>)
    requires ParseNames(b, base, ts).Ok?
    ensures var r, h := ParseNames(b, base, ts), NamesUpTo(SEMI, false, ts);
      r.value.names == b.names + h.names && r.rest == h.rest
    decreases |ts|
  {
    hide Bind, SymbolPast, SkipKind, IsLocal;
    if Kind(ts) != SEMI {
      var r := ParseDeclarator(b, base, b.count + 1, BAD_LOCAL, DUPLICATE_LOCAL, ts);
      NamesRead(r.value, base, r.rest);
    }
  }

  lemma {:induction false} LocalsRead(b: Bindings, ts: seq<Token>)
    requires ParseLocals(b, ts).Ok?
    ensures ParseLocals(b, ts).value.names == b.names + LocalNames(ts)
    decreases |ts|
  {
    hide NamesUpTo, ParseNames, ParseDeclarator;
    if Kind(ts) == INT || Kind(ts) == CHAR {
      var base := if Kind(ts) == CHAR then CHAR_TYPE else INT_TYPE;
      var r := ParseNames(b, base, ts[1..]);
      NamesRead(b, base, ts[1..]);
      LocalsRead(r.value, r.rest[1..]);
    }
  }

  // The names an accepted function binds can be read off its tokens, without the symbol table.
  lemma NamesAreOnTokens(symbols: Symbols, ts: seq<Token>)
    requires ParseFunction(symbols, ts).Ok?
    ensures ParseFunction(symbols, ts).value.names == NamesOf(ts)
  {
    hide *;
    var b, all, rest := FunctionSteps(symbols, ts);
    ParamsRead(Bindings(symbols, 0, []), ts[1..]);
    LocalsRead(b.(count := b.count + 1), rest);
    NamesOfParts(ts);
  }

  lemma NamesOfParts(ts: seq<Token>)
    requires |ts| > 0 && |NamesUpTo(RPAREN, true, ts[1..]).rest| >= 2
    ensures var h := NamesUpTo(RPAREN, true, ts[1..]); NamesOf(ts) == h.names + LocalNames(h.rest[2..])
  {
  }

  // The symbol table has its old meaning after a function exactly when no name was made
  // local twice. The check for duplicates looks at the name as it is scanned, the binding
  // at the name register after the next token, so the compiler does not see to it itself.
  lemma LeavingRestores(symbols: Symbols, ts: seq<Token>)
    requires ParseFunction(symbols, ts).Ok? && NoLocals(symbols)
    ensures Restores(symbols, ParseFunction(symbols, ts).value.fun.scope.symbols) <==> Distinct(NamesOf(ts))
  {
    NamesAreOnTokens(symbols, ts);
    hide NamesOf;
    var b, all, rest := FunctionSteps(symbols, ts);
    var d := ParseFunction(symbols, ts).value;
    hide ParseFunction, ParseParams, ParseLocals, ParseStmts;
    ParamsTrack(symbols, Bindings(symbols, 0, []), ts[1..]);
    LocalsTrack(symbols, b.(count := b.count + 1), rest);
    forall x
      ensures SameMeaning(Unbound(Entry(all.symbols, x)), Entry(symbols, x)) <==> multiset(d.names)[x] <= 1
    {
      assert TracksName(symbols, all.symbols, all.names, x);
      assert !IsLocal(symbols, x);
    }
  }

  // ----- slots in the order of declaration -----

  // The last declaration of a name decides its number: parameters count from 0, locals
  // from two past the parameters.
  ghost predicate Ordered(symbols: Symbols, names: seq<nat>, params: nat) {
    forall i :: 0 <= i < |names| && names[i] !in names[i + 1..] ==>
      HasNumber(symbols, names[i], if i < params then i else i + 2)
  }

  predicate HasNumber(symbols: Symbols, x: nat, v: nat) {
    IsLocal(symbols, x) && Entry(symbols, x).value == v
  }

  lemma BindOrdered(symbols: Symbols, names: seq<nat>, params: nat, x: nat, t: int, v: nat, params': nat)
    requires Ordered(symbols, names, params) && |names| + 2 < WORD_LIMIT
    requires (v == params == |names| && params' == params + 1) || (v == |names| + 2 && params' == params <= |names|)
    ensures Ordered(Bind(symbols, x, t, ToWord(v)), names + [x], params')
  {
    var symbols1, names1 := Bind(symbols, x, t, ToWord(v)), names + [x];
    WordItself(v);
    assert HasNumber(symbols1, x, v);
    assert forall y, k: nat :: y != x && HasNumber(symbols, y, k) ==> HasNumber(symbols1, y, k);
    hide ToWord, Bind, HasNumber;
    forall i | 0 <= i < |names1| && names1[i] !in names1[i + 1..]
      ensures HasNumber(symbols1, names1[i], if i < params' then i else i + 2)
    {
      if i < |names| {
        assert names1[i + 1..] == names[i + 1..] + [x];
        assert names[i] != x && names[i] !in names[i + 1..];
      }
    }
  }

  lemma {:induction false} ParamsOrdered(b: Bindings, ts: seq<Token>)
    requires ParseParams(b, ts).Ok? && Ordered(b.symbols, b.names, b.count) && |b.names| == b.count
    requires b.count + |ts| + 2 < WORD_LIMIT
    ensures var b1 := ParseParams(b, ts).value; Ordered(b1.symbols, b1.names, b1.count) && |b1.names| == b1.count
    decreases |ts|
  {
    hide Ordered, Bind, ToWord;
    if Kind(ts) != RPAREN {
      var ts1 := if Kind(ts) in {INT, CHAR} then ts[1..] else ts;
      var base := if Kind(ts) == CHAR then CHAR_TYPE else INT_TYPE;
      var r := ParseDeclarator(b, base, b.count, BAD_PARAMETER, DUPLICATE_PARAMETER, ts1);
      BindOrdered(b.symbols, b.names, b.count, SymbolPast(SkipKind(MUL, ts1)), base + CountKind(MUL, ts1) * PTR_TYPE,
                  b.count, b.count + 1);
      ParamsOrdered(r.value, r.rest);
    }
  }

  lemma {:induction false} NamesOrdered(b: Bindings, params: nat, base: int, ts: seq<Token>)
    requires ParseNames(b, base, ts).Ok? && Ordered(b.symbols, b.names, params) && |b.names| + 1 == b.count
    requires params <= |b.names| && b.count + |ts| + 2 < WORD_LIMIT
    ensures var b1 := ParseNames(b, base, ts).value; Ordered(b1.symbols, b1.names, params) && |b1.names| + 1 == b1.count
    decreases |ts|
  {
    hide Ordered, Bind, ToWord;
    if Kind(ts) != SEMI {
      var r := ParseDeclarator(b, base, b.count + 1, BAD_LOCAL, DUPLICATE_LOCAL, ts);
      BindOrdered(b.symbols, b.names, params, SymbolPast(SkipKind(MUL, ts)), base + CountKind(MUL, ts) * PTR_TYPE,
                  b.count + 1, params);
      NamesOrdered(r.value, params, base, r.rest);
    }
  }

  lemma {:induction false} LocalsOrdered(b: Bindings, params: nat, ts: seq<Token>)
    requires ParseLocals(b, ts).Ok? && Ordered(b.symbols, b.names, params) && |b.names| + 1 == b.count
    requires params <= |b.names| && b.count + |ts| + 2 < WORD_LIMIT
    ensures var b1 := ParseLocals(b, ts).value; Ordered(b1.symbols, b1.names, params) && |b1.names| + 1 == b1.count
    decreases |ts|
  {
    hide Ordered;
    if Kind(ts) == INT || Kind(ts) == CHAR {
      var base := if Kind(ts) == CHAR then CHAR_TYPE else INT_TYPE;
      var r := ParseNames(b, base, ts[1..]);
      NamesOrdered(b, params, base, ts[1..]);
      LocalsOrdered(r.value, params, r.rest[1..]);
    }
  }

  // The slots of distinct names in the order of their declaration: p + 1 down to 2 for the
  // parameters, then -1 down to -k for the locals.
  lemma SlotsInOrder(symbols: Symbols, ts: seq<Token>, i: nat)
    requires ParseFunction(symbols, ts).Ok? && |ts| < 0x4000_0000
    requires Distinct(NamesOf(ts)) && i < |NamesOf(ts)|
    ensures var names, f := NamesOf(ts), ParseFunction(symbols, ts).value.fun;
      && |names| == f.params + f.locals
      && Lookup(f.scope, names[i]).class_ == Local
      && Slot(f.scope, names[i]) == if i < f.params then f.params + 1 - i else f.params - 1 - i
  {
    NamesAreOnTokens(symbols, ts);
    hide NamesOf;
    var b, all, rest := FunctionSteps(symbols, ts);
    var d := ParseFunction(symbols, ts).value;
    hide ParseParams, ParseLocals, ParseStmts, ParseFunction, Slot;
    ParamsOrdered(Bindings(symbols, 0, []), ts[1..]);
    LocalsOrdered(b.(count := b.count + 1), b.count, rest);
    hide Ordered, Distinct;
    NotLater(d.names, i);
    OrderedSlot(d.fun.scope, d.names, b.count, i);
  }

  lemma NotLater(names: seq<nat>, i: nat)
    requires Distinct(names) && i < |names|
    ensures names[i] !in names[i + 1..]
  {
    forall j | i < j < |names|
      ensures names[j] != names[i]
    {
      CountedTwice(names, i, j);
    }
  }

  lemma CountedTwice(names: seq<nat>, i: nat, j: nat)
    requires i < j < |names|
    ensures names[i] == names[j] ==> multiset(names)[names[i]] >= 2
  {
    assert names == names[..i] + [names[i]] + names[i + 1..j] + [names[j]] + names[j + 1..];
  }

  lemma OrderedSlot(g: Scope, names: seq<nat>, params: nat, i: nat)
    requires Ordered(g.symbols, names, params) && params <= |names| < 0x7FFF_FFFF && g.indexOfBp == params + 1
    requires i < |names| && names[i] !in names[i + 1..]
    ensures Lookup(g, names[i]).class_ == Local
    ensures Slot(g, names[i]) == if i < params then params + 1 - i else params - 1 - i
  {
    assert HasNumber(g.symbols, names[i], if i < params then i else i + 2);
    assert Lookup(g, names[i]) == Entry(g.symbols, names[i]);
  }

  // ----- when names are distinct -----

  // A name is followed by punctuation, as in every declaration with its commas.
  predicate Separated(ts: seq<Token>) {
    forall i :: 0 <= i < |ts| - 1 && ts[i].IdTok? ==> !HasSymbol(ts[i + 1])
  }

  lemma {:induction false} SkipSeparated(kind: int, ts: seq<Token>)
    requires Separated(ts)
    ensures Separated(SkipKind(kind, ts))
    decreases |ts|
  {
    if |ts| > 0 && Kind(ts) == kind {
      SkipSeparated(kind, ts[1..]);
    }
  }

  // The names made local so far are distinct and known as local.
  ghost predicate Known(b: Bindings) {
    Distinct(b.names) && forall x :: x in b.names ==> IsLocal(b.symbols, x)
  }

  lemma DeclaratorKnown(b: Bindings, base: int, v: nat, bad: ErrorNumber, again: ErrorNumber, ts: seq<Token>)
    requires Known(b) && Separated(ts)
    ensures var r := ParseDeclarator(b, base, v, bad, again, ts); r.Ok? ==> Known(r.value) && Separated(r.rest)
  {
    var r := ParseDeclarator(b, base, v, bad, again, ts);
    if r.Ok? {
      var ts1 := SkipKind(MUL, ts);
      SkipSeparated(MUL, ts);
      var x := ts1[0].sym;
      assert SymbolPast(ts1) == x;
      assert multiset(b.names)[x] == 0;
      assert multiset(r.value.names) == multiset(b.names) + multiset{x};
    }
  }

  lemma {:induction false} ParamsKnown(b: Bindings, ts: seq<Token>)
    requires Known(b) && Separated(ts) && ParseParams(b, ts).Ok?
    ensures var r := ParseParams(b, ts); Known(r.value) && Separated(r.rest)
    decreases |ts|
  {
    if Kind(ts) != RPAREN {
      var base := if Kind(ts) == CHAR then CHAR_TYPE else INT_TYPE;
      var ts1 := if Kind(ts) in {INT, CHAR} then ts[1..] else ts;
      DeclaratorKnown(b, base, b.count, BAD_PARAMETER, DUPLICATE_PARAMETER, ts1);
      var r := ParseDeclarator(b, base, b.count, BAD_PARAMETER, DUPLICATE_PARAMETER, ts1);
      hide Known, Separated, ParseDeclarator;
      ParamsKnown(r.value, r.rest);
    }
  }

  lemma {:induction false} NamesKnown(b: Bindings, base: int, ts: seq<Token>)
    requires Known(b) && Separated(ts) && ParseNames(b, base, ts).Ok?
    ensures var r := ParseNames(b, base, ts); Known(r.value) && Separated(r.rest)
    decreases |ts|
  {
    hide Known, Separated, ParseDeclarator;
    if Kind(ts) != SEMI {
      DeclaratorKnown(b, base, b.count + 1, BAD_LOCAL, DUPLICATE_LOCAL, ts);
      var r := ParseDeclarator(b, base, b.count + 1, BAD_LOCAL, DUPLICATE_LOCAL, ts);
      NamesKnown(r.value, base, r.rest);
    }
  }

  lemma {:induction false} LocalsKnown(b: Bindings, ts: seq<Token>)
    requires Known(b) && Separated(ts) && ParseLocals(b, ts).Ok?
    ensures Known(ParseLocals(b, ts).value)
    decreases |ts|
  {
    hide Known;
    if Kind(ts) == INT || Kind(ts) == CHAR {
      var base := if Kind(ts) == CHAR then CHAR_TYPE else INT_TYPE;
      NamesKnown(b, base, ts[1..]);
      var r := ParseNames(b, base, ts[1..]);
      LocalsKnown(r.value, r.rest[1..]);
    }
  }

  // With punctuation after every name, the duplicate check is enough.
  lemma SeparatedNamesAreDistinct(symbols: Symbols, ts: seq<Token>)
    requires ParseFunction(symbols, ts).Ok? && Separated(ts)
    ensures Distinct(NamesOf(ts))
  {
    NamesAreOnTokens(symbols, ts);
    hide NamesOf;
    var b, all, rest := FunctionSteps(symbols, ts);
    var b0 := Bindings(symbols, 0, []);
    assert Known(b0) && Separated(ts[1..]);
    hide ParseParams, ParseLocals, ParseStmts, ParseFunction;
    ParamsKnown(b0, ts[1..]);
    LocalsKnown(b.(count := b.count + 1), rest);
  }

  // A parameter `int y` that no comma follows.
  lemma UnseparatedParam(b: Bindings, ts: seq<Token>, y: nat)
    requires |ts| > 2 && KindOf(ts[0]) == INT && ts[1] == IdTok(y) && KindOf(ts[2]) != COMMA && !IsLocal(b.symbols, y)
    ensures var x := SymbolPast(ts[1..]);
      ParseParams(b, ts)
        == ParseParams(Bindings(Bind(b.symbols, x, INT_TYPE, ToWord(b.count)), b.count + 1, b.names + [x]), ts[2..])
  {
    assert ts[1..][1..] == ts[2..];
    hide Bind, ToWord;
  }

  lemma EmptyBody(b: Bindings)
    ensures var d := ParseBody(b, [Tok(RBRACE)]); d.Ok? && d.value.names == b.names && d.value.fun.scope.symbols == b.symbols
  {
    assert ParseLocals(b.(count := b.count + 1), [Tok(RBRACE)]) == Ok(b.(count := b.count + 1), [Tok(RBRACE)]);
  }

  function MissingCommasHeader(a: nat, b: nat, c: nat, k: nat): seq<Token> {
    [KeyTok(INT, k), IdTok(a), KeyTok(INT, k), IdTok(b), KeyTok(INT, k), IdTok(c), Tok(RPAREN), Tok(LBRACE), Tok(RBRACE)]
  }

  lemma ParamsEnd(b: Bindings, ts: seq<Token>)
    requires Kind(ts) == RPAREN
    ensures ParseParams(b, ts) == Ok(b, ts)
  {
  }

  lemma NotBound(symbols: Symbols, x: nat, t: int, v: Word, y: nat)
    requires y != x
    ensures IsLocal(Bind(symbols, x, t, v), y) == IsLocal(symbols, y)
  {
  }

  lemma MissingCommasBind(symbols: Symbols, a: nat, b: nat, c: nat, k: nat) returns (b3: Bindings)
    requires NoLocals(symbols) && a != k && b != k && c != k
    ensures b3.names == [k, k, c]
    ensures ParseParams(Bindings(symbols, 0, []), MissingCommasHeader(a, b, c, k))
         == Ok(b3, [Tok(RPAREN), Tok(LBRACE), Tok(RBRACE)])
  {
    hide ParseParams, ToWord, Bind, IsLocal;
    var params := MissingCommasHeader(a, b, c, k);
    var closing := [Tok(RPAREN), Tok(LBRACE), Tok(RBRACE)];
    assert params[2..][2..] == params[4..] && params[4..][2..] == params[6..] && params[6..] == closing;
    var b0 := Bindings(symbols, 0, []);
    var b1 := Bindings(Bind(symbols, k, INT_TYPE, ToWord(0)), 1, [k]);
    var b2 := Bindings(Bind(b1.symbols, k, INT_TYPE, ToWord(1)), 2, [k, k]);
    b3 := Bindings(Bind(b2.symbols, c, INT_TYPE, ToWord(2)), 3, [k, k, c]);
    NotBound(symbols, k, INT_TYPE, ToWord(0), b);
    NotBound(b1.symbols, k, INT_TYPE, ToWord(1), c);
    NotBound(symbols, k, INT_TYPE, ToWord(0), c);
    ParamsEnd(b3, closing);
    assert [] + [k] == [k] && [k] + [k] == [k, k] && [k, k] + [c] == [k, k, c];
    assert SymbolPast(params[1..]) == k && SymbolPast(params[2..][1..]) == k && SymbolPast(params[4..][1..]) == c;
    UnseparatedParam(b0, params, a);
    UnseparatedParam(b1, params[2..], b);
    UnseparatedParam(b2, params[4..], c);
  }

  lemma Redeclared(symbols: Symbols, ts: seq<Token>, k: nat)
    requires ParseFunction(symbols, ts).Ok? && NoLocals(symbols)
    requires multiset(ParseFunction(symbols, ts).value.names)[k] > 1
    ensures !Restores(symbols, ParseFunction(symbols, ts).value.fun.scope.symbols)
  {
    hide ParseFunction, NamesOf, Restores, NoLocals;
    NamesAreOnTokens(symbols, ts);
    LeavingRestores(symbols, ts);
  }

  // `(int a int b int c) {}`: the keyword that follows a name is bound in its place, and
  // the second time it is already local, so its entry does not come back.
  lemma MissingCommas(symbols: Symbols, a: nat, b: nat, c: nat, k: nat)
    requires NoLocals(symbols) && a != k && b != k && c != k
    ensures var r := ParseFunction(symbols, [Tok(LPAREN)] + MissingCommasHeader(a, b, c, k));
      r.Ok? && r.value.names == [k, k, c] && !Restores(symbols, r.value.fun.scope.symbols)
  {
    hide *;
    var header := MissingCommasHeader(a, b, c, k);
    var b3 := MissingCommasBind(symbols, a, b, c, k);
    EmptyFunction(symbols, header, b3);
    assert multiset([k, k, c])[k] > 1;
    Redeclared(symbols, [Tok(LPAREN)] + header, k);
  }

  lemma EmptyFunction(symbols: Symbols, header: seq<Token>, b: Bindings)
    requires ParseParams(Bindings(symbols, 0, []), header) == Ok(b, [Tok(RPAREN), Tok(LBRACE), Tok(RBRACE)])
    ensures var r := ParseFunction(symbols, [Tok(LPAREN)] + header); r.Ok? && r.value.names == b.names
  {
    EmptyBody(b);
    hide ParseParams, ParseBody;
    assert ([Tok(LPAREN)] + header)[1..] == header;
    assert [Tok(RPAREN), Tok(LBRACE), Tok(RBRACE)][2..] == [Tok(RBRACE)];
  }
}
