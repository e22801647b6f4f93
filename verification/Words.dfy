/** 32-bit machine words, bytes, and the byte-addressed memory of the virtual machine. */
module Words {

  const WORD_LIMIT: int := 0x1_0000_0000

  type Byte = x: int | 0 <= x < 256
  type Word = x: int | 0 <= x < 0x1_0000_0000

  datatype Option<+T> = None | Some(value: T)

  // The value a C `int` register holds after an arithmetic result has wrapped.
  function ToWord(x: int): Word {
    x % WORD_LIMIT
  }

  lemma WordItself(x: int)
    requires 0 <= x < WORD_LIMIT
    ensures ToWord(x) == x
  {
  }

  // The two's complement reading of a word.
  function Signed(w: Word): int {
    if w < 0x8000_0000 then w else w - WORD_LIMIT
  }

  lemma SignedItself(n: nat)
    requires n < 0x8000_0000
    ensures Signed(ToWord(n)) == n
  {
  }

  // What loading a (signed) C `char` leaves in a 32-bit register.
  function SignExtend(b: Byte): Word {
    if b < 128 then b else b + 0xFFFF_FF00
  }

  function Pow2(n: nat): (p: int)
    ensures p >= 1
  {
    if n == 0 then 1 else 2 * Pow2(n - 1)
  }

  // Integer division of C: the quotient is truncated toward zero.
  function TruncDiv(a: int, b: int): int
    requires b != 0
  {
    var q := (if a < 0 then -a else a) / (if b < 0 then -b else b);
    if (a < 0) == (b < 0) then q else -q
  }

  function TruncMod(a: int, b: int): int
    requires b != 0
  {
    a - TruncDiv(a, b) * b
  }

  datatype BitOp = BitOr | BitXor | BitAnd

  function Bit(op: BitOp, a: bool, b: bool): int {
    match op
    case BitOr => if a || b then 1 else 0
    case BitXor => if a != b then 1 else 0
    case BitAnd => if a && b then 1 else 0
  }

  // Bitwise operation on the low `n` bits of two numbers.
  function Bitwise(op: BitOp, n: nat, a: nat, b: nat): (r: nat)
    ensures r < Pow2(n)
  {
    if n == 0 then 0
    else 2 * Bitwise(op, n - 1, a / 2, b / 2) + Bit(op, a % 2 == 1, b % 2 == 1)
  }

  lemma Pow2Of32()
    ensures Pow2(32) == WORD_LIMIT
  {
    assert Pow2(8) == 256;
    assert Pow2(16) == 256 * Pow2(8);
    assert Pow2(24) == 256 * Pow2(16);
    assert Pow2(32) == 256 * Pow2(24);
  }

  function BitwiseWord(op: BitOp, a: Word, b: Word): Word {
    Pow2Of32();
    Bitwise(op, 32, a, b)
  }

  lemma {:induction false} XorWithOnes(n: nat, a: nat)
    requires a < Pow2(n)
    ensures Bitwise(BitXor, n, a, Pow2(n) - 1) == Pow2(n) - 1 - a
  {
    if n != 0 {
      var p := Pow2(n - 1);
      assert (Pow2(n) - 1) / 2 == p - 1;
      XorWithOnes(n - 1, a / 2);
    }
  }

  function Repeat<T>(x: T, n: nat): (s: seq<T>)
    ensures |s| == n
  {
    seq(n, _ => x)
  }

  // ----- memory -----

  // Bytes by address; an address outside the map is not mapped.
  type Memory = map<int, Byte>

  predicate HasWord(m: Memory, a: int) {
    a in m && a + 1 in m && a + 2 in m && a + 3 in m
  }

  // Little-endian load of four bytes.
  function LoadWord(m: Memory, a: int): Word
    requires HasWord(m, a)
  {
    m[a] as int + 256 * m[a + 1] as int + 65536 * m[a + 2] as int + 16777216 * m[a + 3] as int
  }

  function StoreWord(m: Memory, a: int, w: Word): Memory {
    m[a := w % 256][a + 1 := w / 256 % 256][a + 2 := w / 65536 % 256][a + 3 := w / 16777216]
  }

  // A word is made of its four bytes.
  lemma WordFromBytes(w: Word)
    ensures w / 16777216 < 256
    ensures w % 256 + 256 * (w / 256 % 256) + 65536 * (w / 65536 % 256) + 16777216 * (w / 16777216) == w
  {
    var q := w / 256;
    var r := q / 256;
    assert w / 65536 == r && w / 16777216 == r / 256;
  }

  lemma LoadAfterStore(m: Memory, a: int, w: Word)
    ensures HasWord(StoreWord(m, a, w), a) && LoadWord(StoreWord(m, a, w), a) == w
  {
    WordFromBytes(w);
    var m' := StoreWord(m, a, w);
    assert m'[a] == w % 256 && m'[a + 1] == w / 256 % 256 && m'[a + 2] == w / 65536 % 256 && m'[a + 3] == w / 16777216;
  }

  // Two memories that hold the same four bytes at `a` load the same word.
  lemma LoadAgrees(m: Memory, m': Memory, a: int)
    requires HasWord(m, a) && HasWord(m', a)
    requires forall i :: a <= i < a + 4 ==> m[i] == m'[i]
    ensures LoadWord(m, a) == LoadWord(m', a)
  {
  }

  // Every binding of `part` is present in `m`.
  predicate Agree(m: Memory, part: Memory) {
    forall a :: a in part ==> a in m && m[a] == part[a]
  }
}
