/** The Internet checksum (section 4.1 of RFC 1071). */
module Checksum {
  import opened Words

  // The sum of the little-endian 16-bit words, and of a left-over byte.
  function WordSum(data: seq<Byte>): (sum: nat)
    ensures sum <= 65535 * ((|data| + 1) / 2)
  {
    if |data| == 0 then 0
    else if |data| == 1 then data[0]
    else WordSum(data[2..]) + data[0] as int + 256 * data[1] as int
  }

  // What the bytes at even places add up to, and 256 times those at odd places.
  function Weighted(data: seq<Byte>): nat {
    if |data| == 0 then 0
    else
      var n := |data| - 1;
      Weighted(data[..n]) + if n % 2 == 0 then data[n] as int else 256 * data[n] as int
  }

  // The words add up to the weighted bytes; a left-over byte counts as a low byte.
  lemma {:induction false} SumIsWeighted(data: seq<Byte>)
    ensures WordSum(data) == Weighted(data)
  {
    if |data| > 0 {
      var n := |data| - 1;
      SumIsWeighted(data[..n]);
      SumAtEnd(data);
    }
  }

  // One more byte at the end.
  lemma {:induction false} SumAtEnd(data: seq<Byte>)
    requires |data| > 0
    ensures var n := |data| - 1;
      WordSum(data) == WordSum(data[..n]) + if n % 2 == 0 then data[n] as int else 256 * data[n] as int
  {
    var n := |data| - 1;
    if n >= 2 {
      SumAtEnd(data[2..]);
      assert data[2..][..n - 2] == data[..n][2..];
    }
  }

  // Adding the upper half to the lower half until the upper half is empty.
  function Fold(sum: nat): (r: nat)
    ensures r < 65536
  {
    if sum < 65536 then sum else Fold(sum % 65536 + sum / 65536)
  }

  function Complement(x: nat): nat
    requires x < 65536
  {
    65535 - x
  }

  // Folding keeps the sum modulo 65535, and gives 0 only for 0.
  lemma {:induction false} FoldKeepsSum(sum: nat)
    ensures Fold(sum) % 65535 == sum % 65535 && (Fold(sum) == 0 <==> sum == 0)
  {
    if sum >= 65536 {
      var next := sum % 65536 + sum / 65536;
      assert sum == next + 65535 * (sum / 65536);
      FoldKeepsSum(next);
      SameRemainder(next, sum / 65536);
    }
  }

  lemma SameRemainder(x: nat, k: nat)
    ensures (x + 65535 * k) % 65535 == x % 65535
  {
  }

  // The complement of the folded sum, which a 32-bit register holds.
  method Compute(data: array<Byte>, count: nat, start: Word) returns (result: nat)
    requires count <= data.Length
    ensures result == Complement(Fold(ToWord(start + WordSum(data[..count]))))
    ensures IsChecksum(result, (start + Weighted(data[..count])) % 0x1_0000_0000)
  {
    hide ToWord, Fold, WordSum;
    var sum := AddWords(data, count, start);
    ghost var whole := sum;
    while sum / 65536 != 0
      invariant 0 <= sum && Fold(sum) == Fold(whole)
      decreases sum
    {
      FoldStep(sum);
      sum := sum % 65536 + sum / 65536;
    }
    FoldStep(sum);
    result := 65535 - sum;
    SumIsWeighted(data[..count]);
    ChecksumIs(result, whole);
    AsWord(start + Weighted(data[..count]));
  }

  // The number of 16 bits that completes the sum to a multiple of 65535; it is 65535 for the
  // sum 0 only.
  predicate IsChecksum(result: nat, sum: nat) {
    result < 65536 && (sum + result) % 65535 == 0 && (result == 65535 <==> sum == 0)
  }

  lemma AsWord(x: nat)
    ensures ToWord(x) == x % 0x1_0000_0000
  {
  }

  // That says it all: the checksum is the complement of the folded sum.
  lemma ChecksumIs(result: nat, sum: nat)
    ensures IsChecksum(result, sum) <==> result == Complement(Fold(sum))
  {
    FoldKeepsSum(sum);
    var f := Fold(sum);
    SumOfComplement(sum, f);
    if IsChecksum(result, sum) {
      SameCompletion(sum, result, Complement(f));
      assert f != 0 ==> Complement(f) != 65535;
    }
  }

  // Two completions that differ are 0 and 65535.
  lemma SameCompletion(sum: nat, a: nat, b: nat)
    requires a < 65536 && b < 65536 && (sum + a) % 65535 == 0 && (sum + b) % 65535 == 0
    ensures a == b || (a == 0 && b == 65535) || (a == 65535 && b == 0)
  {
  }

  // The sum of the words and of a left-over byte.
  method AddWords(data: array<Byte>, count: nat, start: Word) returns (sum: Word)
    requires count <= data.Length
    ensures sum == ToWord(start + WordSum(data[..count]))
  {
    hide ToWord, WordSum;
    ghost var bytes := data[..count];
    sum := start;
    var i, left: nat := 0, count;
    assert bytes[0..] == bytes;
    WrapNothing(start);
    while left > 1
      invariant i + left == count
      invariant ToWord(sum + WordSum(bytes[i..])) == ToWord(start + WordSum(bytes))
    {
      var word := data[i] as int + 256 * data[i + 1] as int;
      SumSteps(bytes, i);
      WrapInside(sum + word, WordSum(bytes[i + 2..]));
      sum := ToWord(sum + word);
      i := i + 2;
      left := left - 2;
    }
    SumEnds(bytes, i);
    if left > 0 {
      sum := ToWord(sum + data[i]);
    } else {
      WrapNothing(sum);
    }
  }

  lemma WrapNothing(w: Word)
    ensures ToWord(w) == w
  {
  }

  lemma SumSteps(data: seq<Byte>, i: nat)
    requires i + 2 <= |data|
    ensures WordSum(data[i..]) == data[i] as int + 256 * data[i + 1] as int + WordSum(data[i + 2..])
  {
    assert data[i..][2..] == data[i + 2..];
  }

  lemma SumEnds(data: seq<Byte>, i: nat)
    requires i <= |data| <= i + 1
    ensures WordSum(data[i..]) == if i < |data| then data[i] else 0
  {
  }

  lemma FoldStep(sum: nat)
    ensures Fold(sum) == if sum < 65536 then sum else Fold(sum % 65536 + sum / 65536)
  {
  }

  lemma WrapInside(a: nat, b: nat)
    ensures ToWord(ToWord(a) + b) == ToWord(a + b)
  {
    var q := a / WORD_LIMIT;
    assert a == q * WORD_LIMIT + a % WORD_LIMIT;
    WrapMore(a % WORD_LIMIT + b, q);
  }

  lemma WrapMore(x: int, q: int)
    ensures ToWord(x + q * WORD_LIMIT) == ToWord(x)
  {
  }

  // ----- a message that carries its own checksum -----

  // The 16-bit field at an even offset.
  function WithField(data: seq<Byte>, at: nat, value: nat): (r: seq<Byte>)
    requires at + 2 <= |data| && value < 65536
    ensures |r| == |data|
  {
    data[at := value % 256][at + 1 := value / 256]
  }

  lemma {:induction false} SumWithField(data: seq<Byte>, at: nat, value: nat)
    requires at + 2 <= |data| && at % 2 == 0 && value < 65536 && data[at] == 0 && data[at + 1] == 0
    ensures WordSum(WithField(data, at, value)) == WordSum(data) + value
  {
    var data' := WithField(data, at, value);
    if at == 0 {
      assert data'[2..] == data[2..];
    } else {
      SumWithField(data[2..], at - 2, value);
      assert data'[2..] == WithField(data[2..], at - 2, value);
    }
  }

  // Storing the checksum of a message in its zero field makes the checksum of the message 0.
  lemma ChecksumVerifies(data: seq<Byte>, at: nat, start: nat)
    requires at + 2 <= |data| && at % 2 == 0 && data[at] == 0 && data[at + 1] == 0
    ensures Complement(Fold(start + WordSum(WithField(data, at, Complement(Fold(start + WordSum(data))))))) == 0
  {
    hide Fold, WordSum, WithField;
    var sum := start + WordSum(data);
    var c := Complement(Fold(sum));
    SumWithField(data, at, c);
    FoldKeepsSum(sum);
    FoldKeepsSum(sum + c);
    SumOfComplement(sum, Fold(sum));
    OnlyOnes(Fold(sum + c));
  }

  lemma OnlyOnes(x: nat)
    requires 0 < x < 65536 && x % 65535 == 0
    ensures x == 65535
  {
  }

  lemma SumOfComplement(sum: nat, folded: nat)
    requires folded < 65536 && folded % 65535 == sum % 65535
    ensures (sum + (65535 - folded)) % 65535 == 0
  {
  }

  // Adding its checksum to a 32-bit sum never carries out of the 32 bits, since 2^32 - 1 is a
  // multiple of 65535; and the checksum of the result is 0.
  lemma SealedSum(sum: Word)
    ensures var c := Complement(Fold(sum));
      sum + c < WORD_LIMIT && Complement(Fold(sum + c)) == 0
  {
    var c := Complement(Fold(sum));
    FoldKeepsSum(sum);
    SumOfComplement(sum, Fold(sum));
    NextMultiple(sum, c);
    FoldKeepsSum(sum + c);
    OnlyOnes(Fold(sum + c));
  }

  lemma NextMultiple(sum: Word, c: nat)
    requires (sum + c) % 65535 == 0 && c <= 65535 && (c == 65535 ==> sum == 0)
    ensures sum + c < WORD_LIMIT
  {
    var k := (sum + c) / 65535;
    assert sum + c == 65535 * k && WORD_LIMIT - 1 == 65535 * 65537;
  }

  // A single changed byte always changes the checksum.
  lemma ByteChangeIsSeen(data: seq<Byte>, i: nat, b: Byte, start: nat)
    requires i < |data| && b != data[i]
    ensures Complement(Fold(start + WordSum(data[i := b]))) != Complement(Fold(start + WordSum(data)))
  {
    var sum, sum' := start + WordSum(data), start + WordSum(data[i := b]);
    SumAfterChange(data, i, b);
    FoldKeepsSum(sum);
    FoldKeepsSum(sum');
    var d := (if i % 2 == 0 then 1 else 256) * (b - data[i]);
    if sum % 65535 == sum' % 65535 {
      SameClass(sum, sum', d);
    }
  }

  lemma {:induction false} SumAfterChange(data: seq<Byte>, i: nat, b: Byte)
    requires i < |data|
    ensures WordSum(data[i := b]) == WordSum(data) + (if i % 2 == 0 then 1 else 256) * (b - data[i])
  {
    hide WordSum;
    if i < 2 {
      SumFront(data);
      SumFront(data[i := b]);
      assert |data| > 2 ==> data[i := b][2..] == data[2..];
    } else {
      SumFront(data);
      SumFront(data[i := b]);
      SumAfterChange(data[2..], i - 2, b);
      assert data[i := b][2..] == data[2..][i - 2 := b];
    }
  }

  lemma SumFront(data: seq<Byte>)
    requires |data| > 0
    ensures |data| == 1 ==> WordSum(data) == data[0]
    ensures |data| == 2 ==> WordSum(data) == data[0] as int + 256 * data[1] as int
    ensures |data| > 2 ==> WordSum(data) == data[0] as int + 256 * data[1] as int + WordSum(data[2..])
  {
  }

  lemma SameClass(x: nat, y: nat, d: int)
    requires x % 65535 == y % 65535 && y == x + d && -65535 < d < 65535
    ensures d == 0
  {
  }

  // The routine run twice, for every message and every start value.
  method SealAndVerify(data: array<Byte>, at: nat, start: Word) returns (result: nat)
    requires at + 2 <= data.Length && at % 2 == 0 && data[at] == 0 && data[at + 1] == 0
    modifies data
    ensures result == 0
  {
    hide Fold, WordSum, ToWord;
    ghost var bytes := data[..];
    assert data[..data.Length] == bytes;
    var c := Compute(data, data.Length, start);
    SumWithField(bytes, at, c);
    data[at], data[at + 1] := c % 256, c / 256;
    assert data[..data.Length] == WithField(bytes, at, c);
    WrapInside(start + WordSum(bytes), c);
    SealedSum(ToWord(start + WordSum(bytes)));
    WrapNothing(ToWord(start + WordSum(bytes)) + c);
    result := Compute(data, data.Length, start);
  }
}
