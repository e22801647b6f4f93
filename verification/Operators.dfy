/**
 * The operators of the language as arithmetic: what the value of an operator is, said of
 * signed numbers and of bits, and that the instruction chosen for it computes that value.
 */
module Operators {
  import opened Words
  import opened Syntax
  import opened Codegen
  import opened Semantics
  import M = Machine

  predicate BitAt(w: nat, i: nat) {
    w / Pow2(i) % 2 == 1
  }

  // The word stands for this number, modulo 2^32.
  predicate Stands(r: Option<Word>, x: int) {
    r.Some? && (r.value - x) % 0x1_0000_0000 == 0
  }

  // What C says of an operator on two `int`s, without a way to compute it: sums and products
  // modulo 2^32, comparisons of the signed numbers, shifts as a product and a rounded quotient,
  // the quotient and remainder that belong together, and the bit operators bit by bit.
  ghost predicate Means(op: BinOp, a: Word, b: Word, r: Option<Word>) {
    var x, y := Signed(a), Signed(b);
    match op
    case BOr => r.Some? && forall i: nat :: i < 32 ==> (BitAt(r.value, i) <==> BitAt(a, i) || BitAt(b, i))
    case BXor => r.Some? && forall i: nat :: i < 32 ==> (BitAt(r.value, i) <==> BitAt(a, i) != BitAt(b, i))
    case BAnd => r.Some? && forall i: nat :: i < 32 ==> (BitAt(r.value, i) <==> BitAt(a, i) && BitAt(b, i))
    case BEq => r == Some(if x == y then 1 else 0)
    case BNe => r == Some(if x != y then 1 else 0)
    case BLt => r == Some(if x < y then 1 else 0)
    case BGt => r == Some(if x > y then 1 else 0)
    case BLe => r == Some(if x <= y then 1 else 0)
    case BGe => r == Some(if x >= y then 1 else 0)
    case BShl => if 0 <= y < 32 then Stands(r, x * Pow2(y)) else r == None
    case BShr =>
      if 0 <= y < 32 then r.Some? && Signed(r.value) * Pow2(y) <= x < (Signed(r.value) + 1) * Pow2(y) else r == None
    case BAdd => Stands(r, x + y)
    case BSub => Stands(r, x - y)
    case BMul => Stands(r, x * y)
    case BDiv => if Divides(x, y) then r.Some? && IsRemainder(x, y, x - Signed(r.value) * y) else r == None
    case BMod => if Divides(x, y) then r.Some? && IsRemainder(x, y, Signed(r.value)) else r == None
  }

  // Division is defined, and its quotient is an `int`.
  predicate Divides(x: int, y: int) {
    y != 0 && !(x == -0x8000_0000 && y == -1)
  }

  // The remainder of C: what a multiple of `y` leaves of `x`, smaller than `y`, with the sign of `x`.
  predicate IsRemainder(x: int, y: int, m: int)
    requires y != 0
  {
    (x - m) % y == 0 && (if m < 0 then -m else m) < (if y < 0 then -y else y) && (m == 0 || (m < 0) == (x < 0))
  }

  // ----- the words -----

  // The signed reading is the number between -2^31 and 2^31 that the word stands for.
  lemma SignedIs(w: Word)
    ensures -0x8000_0000 <= Signed(w) < 0x8000_0000 && (Signed(w) - w) % 0x1_0000_0000 == 0
    ensures ToWord(Signed(w)) == w
  {
  }

  lemma SignedOfWord(x: int)
    requires -0x8000_0000 <= x < 0x8000_0000
    ensures Signed(ToWord(x)) == x
  {
  }

  lemma {:induction false} Times(k: nat, d: nat)
    ensures k >= 1 ==> k * d >= d
    ensures d >= 1 ==> k * d >= k
    ensures d >= 2 ==> k * d >= k + k
  {
    if k > 0 {
      Times(k - 1, d);
      assert k * d == (k - 1) * d + d;
    }
  }

  // A multiple smaller than its factor.
  lemma SmallMultiple(k: int, d: int)
    requires d > 0 && -d < k * d < d
    ensures k == 0
  {
    Times(if k < 0 then -k else k, d);
    Opposite(k, d);
  }

  lemma Opposite(k: int, d: int)
    ensures (-k) * d == -(k * d)
  {
  }

  lemma SameQuotient(d: int, q: int, r: int, q': int, r': int)
    requires d > 0 && q * d + r == q' * d + r' && 0 <= r < d && 0 <= r' < d
    ensures q == q' && r == r'
  {
    assert (q - q') * d == q * d - q' * d;
    SmallMultiple(q - q', d);
  }

  lemma DivUnique(x: int, d: int, q: int, r: int)
    requires d > 0 && x == q * d + r && 0 <= r < d
    ensures x / d == q && x % d == r
  {
    SameQuotient(d, q, r, x / d, x % d);
  }

  lemma Congruent(x: int, y: int, k: int)
    requires x == y + k * 0x1_0000_0000
    ensures ToWord(x) == ToWord(y) && (ToWord(x) - y) % 0x1_0000_0000 == 0
  {
    DivUnique(x, 0x1_0000_0000, y / 0x1_0000_0000 + k, y % 0x1_0000_0000);
    DivUnique(ToWord(x) - y, 0x1_0000_0000, -(y / 0x1_0000_0000), 0);
  }

  // A word stands for one number only.
  lemma StandsOnce(r: Option<Word>, x: int)
    ensures Stands(r, x) <==> r == Some(ToWord(x))
  {
    Congruent(x, x, 0);
    if Stands(r, x) {
      var k := (r.value - x) / 0x1_0000_0000;
      Congruent(r.value, x, k);
    }
  }

  // ----- bits -----

  lemma HalfBit(x: nat, i: nat)
    requires i > 0
    ensures BitAt(x, i) == BitAt(x / 2, i - 1)
  {
    var p := Pow2(i - 1);
    var q, r := x / 2 / p, x / 2 % p;
    assert x / 2 == q * p + r;
    assert x == q * (2 * p) + (2 * r + x % 2);
    DivUnique(x, 2 * p, q, 2 * r + x % 2);
  }

  lemma {:induction false} BitwiseBits(op: BitOp, n: nat, a: nat, b: nat, i: nat)
    requires i < n
    ensures BitAt(Bitwise(op, n, a, b), i) == match op
      case BitOr => BitAt(a, i) || BitAt(b, i)
      case BitXor => BitAt(a, i) != BitAt(b, i)
      case BitAnd => BitAt(a, i) && BitAt(b, i)
  {
    var r := Bitwise(op, n, a, b);
    assert r / 2 == Bitwise(op, n - 1, a / 2, b / 2) && r % 2 == Bit(op, a % 2 == 1, b % 2 == 1);
    if i > 0 {
      BitwiseBits(op, n - 1, a / 2, b / 2, i - 1);
      HalfBit(r, i);
      HalfBit(a, i);
      HalfBit(b, i);
    }
  }

  lemma {:induction false} SameBits(n: nat, a: nat, b: nat)
    requires a < Pow2(n) && b < Pow2(n) && forall i: nat :: i < n ==> BitAt(a, i) == BitAt(b, i)
    ensures a == b
  {
    if n > 0 {
      forall i: nat | i < n - 1
        ensures BitAt(a / 2, i) == BitAt(b / 2, i)
      {
        HalfBit(a, i + 1);
        HalfBit(b, i + 1);
      }
      SameBits(n - 1, a / 2, b / 2);
      assert BitAt(a, 0) == BitAt(b, 0);
    }
  }

  lemma OfWords(op: BitOp, a: Word, b: Word)
    ensures BitwiseWord(op, a, b) == Bitwise(op, 32, a, b)
  {
  }

  lemma BitsMean(op: BinOp, a: Word, b: Word, r: Option<Word>)
    requires op in {BOr, BXor, BAnd}
    ensures Means(op, a, b, r) <==> r == PlainValue(op, a, b)
  {
    hide BitAt, Bitwise, BitwiseWord, Pow2, Signed;
    var bit := if op == BOr then BitOr else if op == BXor then BitXor else BitAnd;
    var v := BitwiseWord(bit, a, b);
    forall i: nat | i < 32
      ensures BitAt(v, i) == match op
        case BOr => BitAt(a, i) || BitAt(b, i)
        case BXor => BitAt(a, i) != BitAt(b, i)
        case _ => BitAt(a, i) && BitAt(b, i)
    {
      BitwiseBits(bit, 32, a, b, i);
      OfWords(bit, a, b);
    }
    if Means(op, a, b, r) {
      Pow2Of32();
      SameBits(32, r.value, v);
    }
  }

  // ----- shifts and division -----

  lemma ShiftMeans(a: Word, b: Word, r: Option<Word>)
    ensures Means(BShr, a, b, r) <==> r == PlainValue(BShr, a, b)
  {
    var x, y := Signed(a), Signed(b);
    if 0 <= y < 32 {
      var p := Pow2(y);
      var q := x / p;
      QuotientBound(x, p);
      SignedOfWord(q);
      if Means(BShr, a, b, r) {
        var v := Signed(r.value);
        DivUnique(x, p, v, x - v * p);
        SignedIs(r.value);
      }
    }
  }

  lemma QuotientBound(x: int, p: int)
    requires -0x8000_0000 <= x < 0x8000_0000 && p >= 1
    ensures -0x8000_0000 <= x / p < 0x8000_0000 && x / p * p <= x < (x / p + 1) * p
  {
    var q, r := x / p, x % p;
    assert x == q * p + r;
    Distribute(q, p);
    QuotientSize(x, p, q, r);
  }

  lemma Distribute(q: int, p: int)
    ensures (q + 1) * p == q * p + p
  {
  }

  lemma QuotientSize(x: int, p: int, q: int, r: int)
    requires -0x8000_0000 <= x < 0x8000_0000 && p >= 1 && x == q * p + r && 0 <= r < p
    ensures -0x8000_0000 <= q < 0x8000_0000
  {
    if q >= 0 {
      Times(q, p);
    } else {
      Times(-q - 1, p);
      Opposite(q + 1, p);
      Distribute(q, p);
    }
  }

  // The quotient that is truncated toward zero, and what it leaves.
  lemma TruncIs(x: int, y: int)
    requires y != 0
    ensures IsRemainder(x, y, TruncMod(x, y)) && x == TruncDiv(x, y) * y + TruncMod(x, y)
  {
    var ax, ay := if x < 0 then -x else x, if y < 0 then -y else y;
    var q, r := ax / ay, ax % ay;
    assert ax == q * ay + r;
    var t := TruncDiv(x, y);
    assert t == if (x < 0) == (y < 0) then q else -q;
    Opposite(q, y);
    Opposite(y, q);
    assert t * y == if x < 0 then -(q * ay) else q * ay;
    Multiple(t, y);
    hide TruncDiv;
  }

  lemma Multiple(t: int, y: int)
    requires y != 0
    ensures (t * y) % y == 0
  {
    var k, m := t * y / y, t * y % y;
    assert t * y == k * y + m;
    if y > 0 {
      SameQuotient(y, t, 0, k, m);
    } else {
      assert (-t) * (-y) == t * y && (-k) * (-y) == k * y;
      SameQuotient(-y, -t, 0, -k, m);
    }
  }

  // There is only one such remainder.
  lemma RemainderIsOne(x: int, y: int, m: int, m': int)
    requires y != 0 && IsRemainder(x, y, m) && IsRemainder(x, y, m')
    ensures m == m'
  {
    var k, k' := (x - m) / y, (x - m') / y;
    assert x - m == k * y && x - m' == k' * y;
    OneMultiple(k, k', y, m' - m);
  }

  lemma OneMultiple(k: int, k': int, y: int, d: int)
    requires y != 0 && k * y - k' * y == d && (if d < 0 then -d else d) < (if y < 0 then -y else y)
    ensures d == 0
  {
    assert (k - k') * y == d;
    if y > 0 {
      SmallMultiple(k - k', y);
    } else {
      assert (k' - k) * (-y) == d;
      SmallMultiple(k' - k, -y);
    }
  }

  lemma QuotientFits(x: int, y: int)
    requires -0x8000_0000 <= x < 0x8000_0000 && -0x8000_0000 <= y < 0x8000_0000 && Divides(x, y)
    ensures -0x8000_0000 <= TruncDiv(x, y) < 0x8000_0000 && -0x8000_0000 <= TruncMod(x, y) < 0x8000_0000
  {
    TruncIs(x, y);
    var ax, ay := if x < 0 then -x else x, if y < 0 then -y else y;
    QuotientSmall(ax, ay);
  }

  lemma QuotientSmall(x: nat, y: int)
    requires y >= 1
    ensures 0 <= x / y <= x && (y >= 2 && x > 0 ==> x / y < x)
  {
    var q, r := x / y, x % y;
    assert x == q * y + r;
    if q < 0 {
      Times(-q, y);
      Opposite(q, y);
    } else {
      Times(q, y);
    }
  }

  lemma DivisionMeans(op: BinOp, a: Word, b: Word, r: Option<Word>)
    requires op == BDiv || op == BMod
    ensures Means(op, a, b, r) <==> r == PlainValue(op, a, b)
  {
    var x, y := Signed(a), Signed(b);
    if Divides(x, y) {
      TruncIs(x, y);
      QuotientFits(x, y);
      SignedOfWord(TruncDiv(x, y));
      SignedOfWord(TruncMod(x, y));
      if Means(op, a, b, r) {
        var v := Signed(r.value);
        SignedIs(r.value);
        RemainderIsOne(x, y, if op == BDiv then x - v * y else v, TruncMod(x, y));
        if op == BDiv { SameFactor(v, TruncDiv(x, y), y); }
      }
    }
  }

  lemma SameFactor(u: int, v: int, y: int)
    requires y != 0 && u * y == v * y
    ensures u == v
  {
    assert (u - v) * y == 0;
  }

  // ----- all operators -----

  // The evaluator gives an operator exactly the value it means.
  lemma ValueMeans(op: BinOp, a: Word, b: Word, r: Option<Word>)
    ensures Means(op, a, b, r) <==> r == PlainValue(op, a, b)
  {
    var x, y := Signed(a), Signed(b);
    match op
    case BOr => BitsMean(op, a, b, r);
    case BXor => BitsMean(op, a, b, r);
    case BAnd => BitsMean(op, a, b, r);
    case BShl => if 0 <= y < 32 { StandsOnce(r, x * Pow2(y)); }
    case BShr => ShiftMeans(a, b, r);
    case BAdd => StandsOnce(r, x + y);
    case BSub => StandsOnce(r, x - y);
    case BMul => StandsOnce(r, x * y);
    case BDiv => DivisionMeans(op, a, b, r);
    case BMod => DivisionMeans(op, a, b, r);
    case _ =>
  }

  // Products of words and of the numbers they stand for.
  lemma ProductOfWords(a: Word, x: int, y: int)
    ensures ToWord(Signed(a) * y) == ToWord(a * y)
    ensures ToWord(x * Signed(a)) == ToWord(x * a)
  {
    var k := if a < 0x8000_0000 then 0 else -1;
    assert Signed(a) == a + k * 0x1_0000_0000;
    assert Signed(a) * y == a * y + (k * y) * 0x1_0000_0000;
    assert x * Signed(a) == x * a + (k * x) * 0x1_0000_0000;
    Congruent(Signed(a) * y, a * y, k * y);
    Congruent(x * Signed(a), x * a, k * x);
  }

  lemma SumOfWords(a: Word, b: Word)
    ensures ToWord(Signed(a) + Signed(b)) == ToWord(a + b) && ToWord(Signed(a) - Signed(b)) == ToWord(a - b)
  {
  }

  // The instruction of an operator computes its value.
  lemma AluComputes(op: BinOp, a: Word, b: Word)
    ensures M.IsAlu(Opcode(op)) && M.Alu(Opcode(op), a, b) == PlainValue(op, a, b)
  {
    ProductOfWords(a, 0, Signed(b));
    ProductOfWords(b, a, 0);
    ProductOfWords(a, 0, if b < 32 then Pow2(b) else 0);
    SumOfWords(a, b);
    hide ToWord, Pow2, TruncDiv, TruncMod, Bitwise;
  }

  // ----- types -----

  // A sum or a difference with a pointer other than `char *` counts words, and the distance
  // of two pointers of one type is the rounded number of words between them.
  lemma PointerMeans(op: BinOp, ta: int, tb: int, a: Word, b: Word)
    requires op == BAdd || op == BSub
    ensures ta <= PTR_TYPE ==> BinaryValue(op, ta, tb, a, b) == PlainValue(op, a, b)
    ensures ta > PTR_TYPE && op == BAdd ==> Stands(BinaryValue(op, ta, tb, a, b), a + 4 * b)
    ensures ta > PTR_TYPE && ta != tb && op == BSub ==> Stands(BinaryValue(op, ta, tb, a, b), a - 4 * b)
    ensures ta > PTR_TYPE && ta == tb && op == BSub ==>
      Means(BDiv, ToWord(a - b), 4, BinaryValue(op, ta, tb, a, b))
  {
    SumOfWords(a, b);
    StandsOnce(BinaryValue(op, ta, tb, a, b), a + 4 * b);
    StandsOnce(BinaryValue(op, ta, tb, a, b), a - 4 * b);
    ValueMeans(BDiv, ToWord(a - b), 4, BinaryValue(op, ta, tb, a, b));
    hide Means;
  }

  // A step of ++ or -- moves by 1 for integers, characters and `char *`, and by 4 for other pointers.
  lemma StepMeans(v: Word, up: bool)
    ensures forall t :: t in {CHAR_TYPE, INT_TYPE, CHAR_TYPE + PTR_TYPE} ==>
      Stands(Some(Moved(v, t, up)), if up then v + 1 else v - 1)
    ensures forall t :: t > CHAR_TYPE + PTR_TYPE ==> Stands(Some(Moved(v, t, up)), if up then v + 4 else v - 4)
  {
    forall x
      ensures Stands(Some(ToWord(x)), x)
    {
      StandsOnce(Some(ToWord(x)), x);
    }
  }

  // Types, as numbers: 0 for `char`, 1 for `int`, and 2 more for every star. Comparisons, bit
  // operators, shifts and distances are integers; sums and products have the type on the left.
  lemma TypesAre(g: Scope, e: Expr)
    ensures e.Cast? || e.SizeOf? ==> TypeOf(g, Cast(e.isChar, e.stars, e)) == (if e.isChar then 0 else 1) + 2 * e.stars
    ensures e.AddressOf? || e.Deref? || e.Index? ==> TypeOf(g, e) == TypeOf(g, e.e) + if e.AddressOf? then 2 else -2
    ensures e.Binary? && e.op in {BAdd, BMul, BDiv, BMod} ==> TypeOf(g, e) == TypeOf(g, e.a)
    ensures e.Binary? && e.op !in {BAdd, BSub, BMul, BDiv, BMod} ==> TypeOf(g, e) == 1
    ensures e.Binary? && e.op == BSub ==> (
      var t := TypeOf(g, e.a); TypeOf(g, e) == if t > 2 && t == TypeOf(g, e.b) then 1 else t)
    ensures e.Unary? || e.LogicalOr? || e.LogicalAnd? || e.SizeOf? || e.Num? || e.NegNum? ==> TypeOf(g, e) == 1
    ensures e.Assign? ==> TypeOf(g, e) == TypeOf(g, e.l)
    ensures e.PreStep? || e.PostStep? ==> TypeOf(g, e) == TypeOf(g, e.e)
  {
  }

  // `sizeof` is 1 for `char` and 4 for every other type.
  lemma SizeOfMeans(p: Program, g: Scope, fuel: nat, bp: int, sp: int, isChar: bool, stars: nat, st: State)
    ensures Eval(p, g, fuel, bp, sp, SizeOf(isChar, stars), st)
         == Done(st.(ax := if isChar && stars == 0 then 1 else 4))
  {
  }

  // ----- variables -----

  // A character is read as a signed byte, everything else as four bytes, the low one first.
  lemma LoadMeans(t: int, m: UserMemory, a: Word)
    ensures t == CHAR_TYPE && a in m.val ==>
      Stands(LoadAt(LoadOp(t), m, a), if m.val[a] < 128 then m.val[a] else m.val[a] as int - 256)
    ensures t != CHAR_TYPE && HasWord(m.val, a) ==>
      Stands(LoadAt(LoadOp(t), m, a),
             m.val[a] + 256 * (m.val[a + 1] + 256 * (m.val[a + 2] + 256 * m.val[a + 3] as int)))
  {
  }

  // Writing changes one byte or four, and nothing else.
  lemma StoreMeans(t: int, m: UserMemory, a: Word, v: Word, b: int)
    requires StoreAt(StoreOp(t), m, a, v).Done?
    ensures var r := StoreAt(StoreOp(t), m, a, v).st.mem;
      && (t == CHAR_TYPE ==> a in m.own && a in r.val && r.val[a] == v % 256 && (b != a ==> SameByte(m, r, b)))
      && (t != CHAR_TYPE ==>
            && OwnsWord(m, a) && HasWord(r.val, a) && (!(a <= b < a + 4) ==> SameByte(m, r, b))
            && r.val[a] + 256 * (r.val[a + 1] + 256 * (r.val[a + 2] + 256 * r.val[a + 3] as int)) == v)
  {
    LoadAfterStore(m.val, a, v);
  }

  predicate SameByte(m: UserMemory, m': UserMemory, b: int) {
    m'.own == m.own && (b in m'.val <==> b in m.val) && (b in m.val ==> m'.val[b] == m.val[b])
  }

  // ----- equations of the language -----

  // `a[i]` is `*(a + i)`.
  lemma IndexIsSum(p: Program, g: Scope, fuel: nat, bp: int, sp: int, a: Expr, i: Expr, st: State)
    ensures TypeOf(g, Index(a, i)) == TypeOf(g, Deref(Binary(BAdd, a, i)))
    ensures EvalAddress(p, g, fuel, bp, sp, Index(a, i), st)
         == EvalAddress(p, g, fuel, bp, sp, Deref(Binary(BAdd, a, i)), st)
    ensures Eval(p, g, fuel, bp, sp, Index(a, i), st) == Eval(p, g, fuel, bp, sp, Deref(Binary(BAdd, a, i)), st)
  {
    SumValue(p, g, fuel, bp, sp, a, i, st);
    hide ToWord, LoadAt, LoadOp, Scaled, EvalPair;
  }

  lemma SumIs(ta: int, tb: int)
    ensures forall a: Word, b: Word :: BinaryValue(BAdd, ta, tb, a, b) == Some(ToWord(a + Scaled(ta, b)))
  {
  }

  // The value of a sum is the address of an element.
  lemma SumValue(p: Program, g: Scope, fuel: nat, bp: int, sp: int, a: Expr, i: Expr, st: State)
    ensures EvalAddress(p, g, fuel, bp, sp, Index(a, i), st) == Eval(p, g, fuel, bp, sp, Binary(BAdd, a, i), st)
  {
    hide ToWord, LoadAt, LoadOp, Scaled, BinaryValue, Room, Depth, TypeOf;
    var e, d := Binary(BAdd, a, i), Index(a, i);
    SumIs(TypeOf(g, a), TypeOf(g, i));
    assert EvalPair(p, g, fuel, bp, sp, e, a, i, st) == EvalPair(p, g, fuel, bp, sp, d, a, i, st);
  }

  // `*&e` is `e`.
  lemma DerefOfAddress(p: Program, g: Scope, fuel: nat, bp: int, sp: int, e: Expr, st: State)
    requires IsLvalue(g, e)
    ensures TypeOf(g, Deref(AddressOf(e))) == TypeOf(g, e)
    ensures Eval(p, g, fuel, bp, sp, Deref(AddressOf(e)), st) == Eval(p, g, fuel, bp, sp, e, st)
  {
    hide LoadAt, LoadOp;
    assert EvalAddress(p, g, fuel, bp, sp, Deref(AddressOf(e)), st) == EvalAddress(p, g, fuel, bp, sp, e, st);
  }

  // After `x = r` the value of `x` is the value of the assignment, and reading it changes nothing.
  lemma AssignThenRead(p: Program, g: Scope, fuel: nat, bp: int, sp: int, x: nat, r: Expr, st: State)
    requires IsLvalue(g, Ident(x))
    ensures var a := Eval(p, g, fuel, bp, sp, Assign(Ident(x), r), st);
      a.Done? ==> Eval(p, g, fuel, bp, sp, Ident(x), a.st) == a
  {
    hide ToWord, LoadOp, StoreOp, LoadAt, StoreAt, SignExtend;
    var a := Eval(p, g, fuel, bp, sp, Assign(Ident(x), r), st);
    if a.Done? {
      var at := EvalAddress(p, g, fuel, bp, sp, Ident(x), st).st.ax;
      var st2 := Eval(p, g, fuel, bp, sp - 4, r, st.(ax := at)).st;
      assert EvalAddress(p, g, fuel, bp, sp, Ident(x), st).st == st.(ax := at);
      assert a == StoreAt(StoreOp(TypeOf(g, Ident(x))), st2.mem, at, st2.ax);
      LoadOfStore(TypeOf(g, Ident(x)), st2.mem, at, st2.ax);
      assert EvalAddress(p, g, fuel, bp, sp, Ident(x), a.st) == Done(a.st.(ax := at));
    }
  }

  lemma LoadOfStore(t: int, m: UserMemory, a: Word, v: Word)
    ensures var r := StoreAt(StoreOp(t), m, a, v);
      r.Done? ==> LoadAt(LoadOp(t), r.st.mem, a) == Some(r.st.ax)
  {
    LoadAfterStore(m.val, a, v);
  }

  // A function owns what its caller owns, the slots of its arguments, and its locals below the
  // two words of the call; nothing else.
  lemma FrameIsOwned(m: UserMemory, sp: int, vs: seq<Word>, locals: nat, a: int)
    ensures a in Enter(m, sp, vs, locals).own <==>
      a in m.own || sp - 4 * |vs| <= a < sp || sp - 4 * |vs| - 8 - 4 * locals <= a < sp - 4 * |vs| - 8
  {
  }
}
