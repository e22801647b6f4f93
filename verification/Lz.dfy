/**
 * The LZ codec: triples of a packed pointer and a literal byte. The scan for a match
 * does not stop at the end of the input, so the input buffer has bytes after it that
 * matches may run into.
 */
module Lz {
  import opened Words
  import opened Bits

  const HEADER: nat := 5

  // ----- the search for matches -----

  // How far the bytes at `pos` repeat those `d` before them, counting from `k`, up to `cap`.
  function MatchLength(data: seq<Byte>, pos: nat, d: nat, cap: nat, k: nat): (len: nat)
    requires 1 <= d <= pos && pos + cap < |data| && k <= cap
    ensures k <= len <= cap
    decreases cap - k
  {
    if k < cap && data[pos + k] == data[pos + k - d] then MatchLength(data, pos, d, cap, k + 1) else k
  }

  // The match is as long as it can be.
  lemma {:induction false} MatchIsMaximal(data: seq<Byte>, pos: nat, d: nat, cap: nat, k: nat)
    requires 1 <= d <= pos && pos + cap < |data| && k <= cap
    ensures var len := MatchLength(data, pos, d, cap, k);
      && (forall j :: pos + k <= j < pos + len ==> data[j] == data[j - d])
      && (len < cap ==> data[pos + len] != data[pos + len - d])
    decreases cap - k
  {
    if k < cap && data[pos + k] == data[pos + k - d] {
      MatchIsMaximal(data, pos, d, cap, k + 1);
    }
  }

  function Repeats(data: seq<Byte>, pos: nat, d: nat, cap: nat): (len: nat)
    requires 1 <= d <= pos && pos + cap < |data|
    ensures len <= cap
  {
    MatchLength(data, pos, d, cap, 0)
  }

  // The scan over distances from `d` on; `p` and `len` are the best so far.
  function Search(data: seq<Byte>, pos: nat, far: nat, cap: nat, d: nat, p: nat, len: nat): (r: (nat, nat))
    requires 1 <= d && far <= pos && pos + cap < |data|
    decreases far + 1 - d
  {
    if d > far then (p, len) else
    var m := Repeats(data, pos, d, cap);
    if m <= len then Search(data, pos, far, cap, d + 1, p, len)
    else if m == cap then (d, m)
    else Search(data, pos, far, cap, d + 1, d, m)
  }

  // How far back and how long a pointer can reach.
  function Reach(w: nat, pos: nat): (far: nat)
    requires w <= 16
    ensures far <= pos && far < Pow2(16 - w)
  {
    if pos < Pow2(16 - w) then pos else Pow2(16 - w) - 1
  }

  function Best(data: seq<Byte>, w: nat, pos: nat): (nat, nat)
    requires w <= 16 && pos + Pow2(w) < |data|
  {
    Search(data, pos, Reach(w, pos), Pow2(w), 1, 0, 0)
  }

  // The longest match over the distances 1 to `far`, at the nearest distance that has it.
  ghost predicate IsLongest(data: seq<Byte>, pos: nat, far: nat, cap: nat, p: nat, len: nat)
    requires far <= pos && pos + cap < |data|
  {
    && p <= far && len <= cap && (len == 0 <==> p == 0)
    && (p > 0 ==> Repeats(data, pos, p, cap) == len)
    && (forall d :: 1 <= d <= far ==> Repeats(data, pos, d, cap) <= len)
    && (forall d :: 1 <= d < p ==> Repeats(data, pos, d, cap) < len)
  }

  lemma {:induction false} SearchIsLongest(data: seq<Byte>, pos: nat, far: nat, cap: nat, d: nat, p: nat, len: nat)
    requires 1 <= d <= far + 1 && far <= pos && pos + cap < |data|
    requires IsLongest(data, pos, d - 1, cap, p, len)
    ensures var r := Search(data, pos, far, cap, d, p, len); IsLongest(data, pos, far, cap, r.0, r.1)
    decreases far + 1 - d
  {
    hide Repeats, MatchLength;
    if d <= far {
      var m := Repeats(data, pos, d, cap);
      if m <= len {
        SearchIsLongest(data, pos, far, cap, d + 1, p, len);
      } else if m < cap {
        SearchIsLongest(data, pos, far, cap, d + 1, d, m);
      } else {
        forall e | 1 <= e <= far
          ensures Repeats(data, pos, e, cap) <= m
        {
        }
      }
    }
  }

  // The greedy search is exact.
  lemma BestIsLongest(data: seq<Byte>, w: nat, pos: nat)
    requires w <= 16 && pos + Pow2(w) < |data|
    ensures var r := Best(data, w, pos); IsLongest(data, pos, Reach(w, pos), Pow2(w), r.0, r.1)
  {
    SearchIsLongest(data, pos, Reach(w, pos), Pow2(w), 1, 0, 0);
  }

  // The `k` bytes at `pos` repeat those `d` before them.
  predicate Same(data: seq<Byte>, pos: nat, d: nat, k: nat)
    requires 1 <= d <= pos && pos + k <= |data|
  {
    forall j :: pos <= j < pos + k ==> data[j] == data[j - d]
  }

  lemma RepeatsAre(data: seq<Byte>, pos: nat, d: nat, cap: nat, k: nat)
    requires 1 <= d <= pos && pos + cap < |data| && k <= cap
    ensures Same(data, pos, d, k) <==> k <= Repeats(data, pos, d, cap)
  {
    MatchIsMaximal(data, pos, d, cap, 0);
  }

  // The match that the greedy search finds, by the bytes alone: of all distances below
  // 2^(16-w) that reach back into the input it has the longest match, up to 2^w bytes, and no
  // smaller distance has one as long. The result (0, 0) says that there is no match.
  lemma LongestMatch(data: seq<Byte>, w: nat, pos: nat)
    requires w <= 16 && pos + Pow2(w) < |data|
    ensures var (p, len) := Best(data, w, pos);
      && p <= pos && p < Pow2(16 - w) && len <= Pow2(w) && (len == 0 <==> p == 0)
      && (p > 0 ==> Same(data, pos, p, len))
      && (forall d, k :: 1 <= d <= pos && d < Pow2(16 - w) && 1 <= k <= Pow2(w) && Same(data, pos, d, k) ==> k <= len)
      && (forall d :: 1 <= d < p ==> !Same(data, pos, d, len))
  {
    var (p, len) := Best(data, w, pos);
    BestIsLongest(data, w, pos);
    hide Best, Same, Repeats, Pow2;
    if p > 0 {
      RepeatsAre(data, pos, p, Pow2(w), len);
    }
    forall d, k | 1 <= d <= pos && d < Pow2(16 - w) && 1 <= k <= Pow2(w) && Same(data, pos, d, k)
      ensures k <= len
    {
      RepeatsAre(data, pos, d, Pow2(w), k);
    }
    forall d | 1 <= d < p
      ensures !Same(data, pos, d, len)
    {
      RepeatsAre(data, pos, d, Pow2(w), len);
    }
  }

  // ----- the encoder -----

  function Low(x: int): Byte { x % 256 }
  function High(x: int): Byte { x / 256 % 256 }

  // A pointer of 16 bits: the distance above `w` bits of length.
  function Pack(w: nat, p: nat, len: nat): nat {
    Bitwise(BitOr, 16, p * Pow2(w), len)
  }

  // One step at `pos`: the pointer word, the position of the literal, and how far it gets.
  function PointerAt(data: seq<Byte>, n: nat, w: nat, pos: nat): nat
    requires w <= 16 && pos + Pow2(w) < |data|
  {
    var (p, len) := Best(data, w, pos);
    if pos + len == n && len > 0 then (if len == 1 then 0 else Pack(w, p, len - 2))
    else Pack(w, p, if len > 0 then len - 1 else 0)
  }

  function LiteralAt(data: seq<Byte>, n: nat, w: nat, pos: nat): (i: nat)
    requires w <= 16 && pos + Pow2(w) < |data|
    ensures i < |data|
  {
    BestIsLongest(data, w, pos);
    var len := Best(data, w, pos).1;
    if pos + len == n && len > 0 then pos + len - 1 else pos + len
  }

  // The end of what the step at `pos` encodes.
  function NextAt(data: seq<Byte>, n: nat, w: nat, pos: nat): (next: nat)
    requires w <= 16 && pos + Pow2(w) < |data|
    ensures next > pos
  {
    LiteralAt(data, n, w, pos) + 1
  }

  // The triples for the input from `pos` on.
  function Triples(data: seq<Byte>, n: nat, w: nat, pos: nat): seq<Byte>
    requires w <= 16 && n + Pow2(w) <= |data|
    decreases n - pos
  {
    if pos >= n then [] else
    var word := PointerAt(data, n, w, pos);
    [Low(word), High(word), data[LiteralAt(data, n, w, pos)]] + Triples(data, n, w, NextAt(data, n, w, pos))
  }

  function Steps(data: seq<Byte>, n: nat, w: nat, pos: nat): (k: nat)
    requires w <= 16 && n + Pow2(w) <= |data|
    ensures pos <= n ==> k <= n - pos
    ensures pos >= n ==> k == 0
    decreases n - pos
  {
    if pos >= n then 0 else 1 + Steps(data, n, w, NextAt(data, n, w, pos))
  }

  function Header(n: nat, w: nat): (h: seq<Byte>)
    requires n < WORD_LIMIT && w < 256
    ensures |h| == HEADER
  {
    [n % 256, n / 256 % 256, n / 65536 % 256, n / 16777216, w]
  }

  // The size in a header.
  function HeaderSize(comp: seq<Byte>): nat
    requires |comp| >= 4
  {
    comp[0] as int + 256 * comp[1] as int + 65536 * comp[2] as int + 16777216 * comp[3] as int
  }

  // The first `n` bytes of `data`, compressed with pointers that have `w` bits of length.
  function Compressed(data: seq<Byte>, n: nat, w: nat): seq<Byte>
    requires w <= 16 && n + Pow2(w) <= |data| && n < WORD_LIMIT
  {
    Header(n, w) + Triples(data, n, w, 0)
  }

  lemma {:induction false} TriplesLength(data: seq<Byte>, n: nat, w: nat, pos: nat)
    requires w <= 16 && n + Pow2(w) <= |data|
    ensures |Triples(data, n, w, pos)| == 3 * Steps(data, n, w, pos)
    decreases n - pos
  {
    if pos < n {
      TriplesLength(data, n, w, NextAt(data, n, w, pos));
    }
  }

  // The size: five bytes, and three for each of at most `n` steps.
  lemma CompressedSize(data: seq<Byte>, n: nat, w: nat)
    requires w <= 16 && n + Pow2(w) <= |data| && n < WORD_LIMIT
    ensures |Compressed(data, n, w)| == 5 + 3 * Steps(data, n, w, 0) <= 5 + 3 * n
  {
    TriplesLength(data, n, w, 0);
  }

  // ----- the decoder -----

  function Copied(out: seq<Byte>, d: nat, len: nat): (r: seq<Byte>)
    requires 1 <= d <= |out|
    ensures |r| == |out| + len && r[..|out|] == out
    decreases len
  {
    if len == 0 then out else Copied(out + [out[|out| - d]], d, len - 1)
  }

  function Distance(word: nat, w: nat): nat { ShiftRight(word, w) }

  function Length(word: nat, w: nat): nat {
    if Distance(word, w) > 0 then Bitwise(BitAnd, 16, word, Pow2(w) - 1) + 1 else 0
  }

  function WordAt(comp: seq<Byte>, c: nat): (word: nat)
    requires c + 1 < |comp|
    ensures word < 65536
  {
    comp[c] as int + 256 * comp[c + 1] as int
  }

  // Triples from byte `c` on never point before the output, and suffice to fill it.
  predicate Decodable(comp: seq<Byte>, c: nat, w: nat, n: nat, size: nat)
    decreases n - size
  {
    size >= n || (c + 2 < |comp| && Distance(WordAt(comp, c), w) <= size
                  && Decodable(comp, c + 3, w, n, size + Length(WordAt(comp, c), w) + 1))
  }

  function Decoded(comp: seq<Byte>, c: nat, w: nat, n: nat, out: seq<Byte>): (r: seq<Byte>)
    requires Decodable(comp, c, w, n, |out|)
    ensures |r| >= n && |r| >= |out| && r[..|out|] == out
    decreases n - |out|
  {
    if |out| >= n then out else
    Decoded(comp, c + 3, w, n, Grown(comp, c, w, out))
  }

  // The output after one triple.
  function Grown(comp: seq<Byte>, c: nat, w: nat, out: seq<Byte>): (r: seq<Byte>)
    requires c + 2 < |comp| && Distance(WordAt(comp, c), w) <= |out|
    ensures |r| == |out| + Length(WordAt(comp, c), w) + 1 && r[..|out|] == out
  {
    var d := Distance(WordAt(comp, c), w);
    (if d > 0 then Copied(out, d, Length(WordAt(comp, c), w)) else out) + [comp[c + 2]]
  }

  // ----- the round trip -----

  lemma {:induction false} CopiedRepeats(data: seq<Byte>, pos: nat, d: nat, len: nat)
    requires 1 <= d <= pos && pos + len <= |data|
    requires forall j :: pos <= j < pos + len ==> data[j] == data[j - d]
    ensures Copied(data[..pos], d, len) == data[..pos + len]
    decreases len
  {
    if len > 0 {
      assert data[pos] == data[pos - d];
      assert data[..pos] + [data[..pos][pos - d]] == data[..pos + 1];
      CopiedRepeats(data, pos + 1, d, len - 1);
    }
  }

  // The pointer word has 16 bits, and both parts come back.
  lemma Unpack(w: nat, p: nat, len: nat)
    requires w <= 16 && p < Pow2(16 - w) && len < Pow2(w)
    ensures Pack(w, p, len) == p * Pow2(w) + len < 65536
    ensures Distance(Pack(w, p, len), w) == p
    ensures Length(Pack(w, p, len), w) == if p > 0 then len + 1 else 0
  {
    assert Pow2(8) == 256;
    assert Pow2(16) == 256 * Pow2(8);
    Pow2Sum(16 - w, w);
    hide Bitwise, ShiftRight, Pow2;
    Below(p, Pow2(16 - w), Pow2(w), len);
    OrIsSum(16, w, p, len);
    ShiftOfSum(w, p, len);
    MaskOfSum(16, w, p, len);
  }

  lemma Below(p: nat, a: nat, b: nat, len: nat)
    requires p < a && len < b
    ensures p * b + len < a * b
  {
    assert p * b <= (a - 1) * b;
  }

  // What the pointer word of a step says: copy `k` bytes from `d` back, up to the literal.
  lemma StepParts(data: seq<Byte>, n: nat, w: nat, pos: nat) returns (d: nat, k: nat)
    requires w <= 16 && n + Pow2(w) <= |data| && pos < n
    ensures var word := PointerAt(data, n, w, pos);
      word < 65536 && d == Distance(word, w) && k == Length(word, w)
    ensures d <= pos && k <= Pow2(w) && LiteralAt(data, n, w, pos) == pos + k && (d == 0 ==> k == 0)
    ensures d > 0 ==> forall j :: pos <= j < pos + k ==> data[j] == data[j - d]
  {
    hide *;
    var p, len := BestRepeats(data, w, pos);
    StepForm(data, n, w, pos, p, len);
    d, k := p, len;
    if pos + len == n && len > 0 {
      if len == 1 {
        PackNothing(w);
        d, k := 0, 0;
      } else {
        k := len - 1;
        Unpack(w, p, len - 2);
      }
    } else if len > 0 {
      Unpack(w, p, len - 1);
    } else {
      Unpack(w, 0, 0);
    }
  }

  lemma BestRepeats(data: seq<Byte>, w: nat, pos: nat) returns (p: nat, len: nat)
    requires w <= 16 && pos + Pow2(w) < |data|
    ensures Best(data, w, pos) == (p, len) && p <= pos && p < Pow2(16 - w) && len <= Pow2(w) && (len == 0 <==> p == 0)
    ensures p > 0 ==> forall j :: pos <= j < pos + len ==> data[j] == data[j - p]
  {
    BestIsLongest(data, w, pos);
    p, len := Best(data, w, pos).0, Best(data, w, pos).1;
    hide Best, Search;
    if p > 0 {
      MatchIsMaximal(data, pos, p, Pow2(w), 0);
    }
  }

  lemma StepForm(data: seq<Byte>, n: nat, w: nat, pos: nat, p: nat, len: nat)
    requires w <= 16 && pos + Pow2(w) < |data| && Best(data, w, pos) == (p, len)
    ensures var last := pos + len == n && len > 0;
      && (PointerAt(data, n, w, pos)
          == if last && len == 1 then 0 else Pack(w, p, if last then len - 2 else if len > 0 then len - 1 else 0))
      && LiteralAt(data, n, w, pos) == if last then pos + len - 1 else pos + len
  {
    hide Best, Pack, Pow2;
  }

  lemma PackNothing(w: nat)
    requires w <= 16
    ensures Distance(0, w) == 0 && Length(0, w) == 0
  {
    ShiftOfSum(w, 0, 0);
  }

  // What the decoder makes of the triple of a step.
  lemma StepDecodes(data: seq<Byte>, n: nat, w: nat, pos: nat, comp: seq<Byte>, c: nat)
    requires w <= 16 && n + Pow2(w) <= |data| && pos < n && c + 2 < |comp|
    requires comp[c] == Low(PointerAt(data, n, w, pos)) && comp[c + 1] == High(PointerAt(data, n, w, pos))
    requires comp[c + 2] == data[LiteralAt(data, n, w, pos)]
    ensures NextAt(data, n, w, pos) <= n + Pow2(w)
    ensures var word := WordAt(comp, c);
      && Distance(word, w) <= pos && pos + Length(word, w) + 1 == NextAt(data, n, w, pos)
      && Grown(comp, c, w, data[..pos]) == data[..NextAt(data, n, w, pos)]
  {
    hide *;
    var d, k := StepParts(data, n, w, pos);
    WordComes(comp, c, PointerAt(data, n, w, pos));
    NextForm(data, n, w, pos);
    Growth(data, comp, c, w, pos, d, k);
  }

  lemma WordComes(comp: seq<Byte>, c: nat, word: nat)
    requires c + 1 < |comp| && comp[c] == Low(word) && comp[c + 1] == High(word) && word < 65536
    ensures WordAt(comp, c) == word
  {
  }

  lemma NextForm(data: seq<Byte>, n: nat, w: nat, pos: nat)
    requires w <= 16 && pos + Pow2(w) < |data|
    ensures NextAt(data, n, w, pos) == LiteralAt(data, n, w, pos) + 1
  {
    hide LiteralAt;
  }

  lemma Growth(data: seq<Byte>, comp: seq<Byte>, c: nat, w: nat, pos: nat, d: nat, k: nat)
    requires c + 2 < |comp| && d == Distance(WordAt(comp, c), w) && k == Length(WordAt(comp, c), w)
    requires d <= pos && pos + k < |data| && (d == 0 ==> k == 0) && comp[c + 2] == data[pos + k]
    requires d > 0 ==> forall j :: pos <= j < pos + k ==> data[j] == data[j - d]
    ensures Grown(comp, c, w, data[..pos]) == data[..pos + k + 1]
  {
    hide Distance, Length, WordAt, Copied;
    if d > 0 {
      CopiedRepeats(data, pos, d, k);
    }
    assert data[..pos + k] + [data[pos + k]] == data[..pos + k + 1];
  }

  // Where the output ends: at the end of the input, or past it when the last match runs on.
  function End(data: seq<Byte>, n: nat, w: nat, pos: nat): (end: nat)
    requires w <= 16 && n + Pow2(w) <= |data|
    ensures end >= pos && end >= n
    decreases n - pos
  {
    if pos >= n then pos else End(data, n, w, NextAt(data, n, w, pos))
  }

  // The bytes `part` stand in the buffer at `c`.
  predicate Stands(comp: seq<Byte>, c: nat, part: seq<Byte>) {
    c + |part| <= |comp| && forall i :: 0 <= i < |part| ==> comp[c + i] == part[i]
  }

  lemma TripleStands(comp: seq<Byte>, c: nat, triple: seq<Byte>, rest: seq<Byte>)
    requires |triple| == 3 && Stands(comp, c, triple + rest)
    ensures c + 2 < |comp| && comp[c] == triple[0] && comp[c + 1] == triple[1] && comp[c + 2] == triple[2]
    ensures Stands(comp, c + 3, rest)
  {
    var part := triple + rest;
    assert comp[c + 0] == part[0] && comp[c + 1] == part[1] && comp[c + 2] == part[2];
    forall i | 0 <= i < |rest|
      ensures comp[c + 3 + i] == rest[i]
    {
      assert comp[c + (3 + i)] == part[3 + i];
    }
  }

  lemma {:induction false} TriplesDecode(data: seq<Byte>, n: nat, w: nat, pos: nat, comp: seq<Byte>, c: nat)
    requires w <= 16 && n + Pow2(w) <= |data| && pos <= |data| && Stands(comp, c, Triples(data, n, w, pos))
    ensures End(data, n, w, pos) <= |data| && Decodable(comp, c, w, n, pos)
    ensures Decoded(comp, c, w, n, data[..pos]) == data[..End(data, n, w, pos)]
    decreases n - pos
  {
    if pos < n {
      TriplesForm(data, n, w, pos);
      hide *;
      var word, next := PointerAt(data, n, w, pos), NextAt(data, n, w, pos);
      TripleStands(comp, c, [Low(word), High(word), data[LiteralAt(data, n, w, pos)]], Triples(data, n, w, next));
      StepDecodes(data, n, w, pos, comp, c);
      TriplesDecode(data, n, w, next, comp, c + 3);
      DecodedForm(comp, c, w, n, data[..pos]);
    }
  }

  lemma TriplesForm(data: seq<Byte>, n: nat, w: nat, pos: nat)
    requires w <= 16 && n + Pow2(w) <= |data| && pos < n
    ensures var word, next := PointerAt(data, n, w, pos), NextAt(data, n, w, pos);
      && Triples(data, n, w, pos) == [Low(word), High(word), data[LiteralAt(data, n, w, pos)]] + Triples(data, n, w, next)
      && End(data, n, w, pos) == End(data, n, w, next)
  {
    hide PointerAt, LiteralAt, NextAt, Low, High, Pow2;
  }

  lemma DecodedForm(comp: seq<Byte>, c: nat, w: nat, n: nat, out: seq<Byte>)
    requires |out| < n && c + 2 < |comp| && Distance(WordAt(comp, c), w) <= |out|
    requires Decodable(comp, c + 3, w, n, |Grown(comp, c, w, out)|)
    ensures Decodable(comp, c, w, n, |out|)
    ensures Decoded(comp, c, w, n, out) == Decoded(comp, c + 3, w, n, Grown(comp, c, w, out))
  {
    hide Distance, Length, WordAt, Grown;
  }

  // Decompressing a compressed input gives the input, whatever follows it in memory.
  lemma RoundTrip(data: seq<Byte>, n: nat, w: nat, comp: seq<Byte>)
    requires w <= 16 && n + Pow2(w) <= |data| && n < WORD_LIMIT && Stands(comp, 0, Compressed(data, n, w))
    ensures Decodable(comp, HEADER, w, n, 0)
    ensures var out := Decoded(comp, HEADER, w, n, []); n <= |out| <= |data| && out == data[..|out|]
    ensures |Decoded(comp, HEADER, w, n, [])| == End(data, n, w, 0)
    ensures |Decoded(comp, HEADER, w, n, [])| == n <==> StaysInside(data, n, w, 0)
  {
    AfterHeader(comp, n, w, Triples(data, n, w, 0));
    hide *;
    assert data[..0] == [];
    TriplesDecode(data, n, w, 0, comp, HEADER);
    EndIsExact(data, n, w, 0);
  }

  lemma AfterHeader(comp: seq<Byte>, n: nat, w: nat, rest: seq<Byte>)
    requires n < WORD_LIMIT && w < 256 && Stands(comp, 0, Header(n, w) + rest)
    ensures Stands(comp, HEADER, rest) && HeaderSize(comp) == n && comp[4] == w
  {
    HeaderFields(n, w);
    hide Header, HeaderSize;
    var part := Header(n, w) + rest;
    assert |comp| >= 5 && comp[..5] == Header(n, w) by {
      forall i | 0 <= i < 5
        ensures comp[..5][i] == Header(n, w)[i]
      {
        assert comp[0 + i] == part[i];
      }
    }
    SizeInHeader(comp, Header(n, w));
    forall i | 0 <= i < |rest|
      ensures comp[HEADER + i] == rest[i]
    {
      assert comp[0 + (5 + i)] == part[5 + i];
    }
  }

  lemma SizeInHeader(comp: seq<Byte>, h: seq<Byte>)
    requires |comp| >= 5 && comp[..5] == h
    ensures HeaderSize(comp) == HeaderSize(h) && comp[4] == h[4]
  {
    assert comp[0] == h[0] && comp[1] == h[1] && comp[2] == h[2] && comp[3] == h[3];
  }

  lemma HeaderFields(n: nat, w: nat)
    requires n < WORD_LIMIT && w < 256
    ensures HeaderSize(Header(n, w)) == n && Header(n, w)[4] == w
    ensures var h := Header(n, w); h[0] + 256 * (h[1] + 256 * (h[2] + 256 * h[3] as int)) == n
  {
    assert n == 256 * (n / 256) + n % 256;
    assert n / 256 == 256 * (n / 65536) + n / 256 % 256;
    assert n / 65536 == 256 * (n / 16777216) + n / 65536 % 256;
  }

  // The bytes of a triple: the pointer word with its low byte first, then the literal. A match
  // that ends with the input gives its last byte to the literal.
  lemma TripleBytes(data: seq<Byte>, n: nat, w: nat, pos: nat)
    requires w <= 16 && n + Pow2(w) <= |data| && pos < n
    ensures var (p, len) := Best(data, w, pos);
      var t := Triples(data, n, w, pos);
      var used := if pos + len == n && len > 0 then len - 1 else len;
      && |t| >= 3 && t[2] == data[pos + used]
      && t[0] + 256 * t[1] as int == if used == 0 then 0 else p * Pow2(w) + used - 1
  {
    hide *;
    var p, len := BestRepeats(data, w, pos);
    StepForm(data, n, w, pos, p, len);
    TriplesForm(data, n, w, pos);
    var word := PointerAt(data, n, w, pos);
    Unpack(w, 0, 0);
    if len > 0 {
      Unpack(w, p, len - 1);
      if len > 1 { Unpack(w, p, len - 2); }
    }
    LowHigh(word);
    ZeroTimes(w);
  }

  lemma LowHigh(x: nat)
    requires x < 65536
    ensures Low(x) + 256 * High(x) as int == x
  {
  }

  lemma ZeroTimes(w: nat)
    ensures 0 * Pow2(w) + 0 == 0
  {
  }

  // The decompressed size is the size of the input exactly when no match runs past its end.
  ghost predicate StaysInside(data: seq<Byte>, n: nat, w: nat, pos: nat)
    requires w <= 16 && n + Pow2(w) <= |data|
    decreases n - pos
  {
    pos >= n || (pos + Best(data, w, pos).1 <= n && StaysInside(data, n, w, NextAt(data, n, w, pos)))
  }

  lemma {:induction false} EndIsExact(data: seq<Byte>, n: nat, w: nat, pos: nat)
    requires w <= 16 && n + Pow2(w) <= |data| && pos <= n
    ensures End(data, n, w, pos) == n <==> StaysInside(data, n, w, pos)
    decreases n - pos
  {
    if pos < n && NextAt(data, n, w, pos) <= n {
      EndIsExact(data, n, w, NextAt(data, n, w, pos));
    }
  }

  // The room the two routines need, at most. The program gives both of them twice the input:
  // enough for the compressed form only when the steps are few (one byte takes eight), and
  // for the decompressed one when the input is at least as long as the longest match.
  lemma RoomNeeded(data: seq<Byte>, n: nat, w: nat)
    requires w <= 16 && n + Pow2(w) <= |data| && n < WORD_LIMIT
    ensures |Compressed(data, n, w)| == 5 + 3 * Steps(data, n, w, 0) <= 5 + 3 * n
    ensures End(data, n, w, 0) <= n + Pow2(w) && (n >= Pow2(w) ==> End(data, n, w, 0) <= 2 * n)
    ensures n == 1 ==> |Compressed(data, n, w)| == 8
  {
    CompressedSize(data, n, w);
    EndBound(data, n, w, 0);
    hide End;
    if n == 1 { StepsLeft(data, n, w, 0); }
  }

  lemma NextBound(data: seq<Byte>, n: nat, w: nat, pos: nat)
    requires w <= 16 && n + Pow2(w) <= |data| && pos < n
    ensures NextAt(data, n, w, pos) <= n + Pow2(w)
  {
    hide *;
    var p, k := BestRepeats(data, w, pos);
    StepForm(data, n, w, pos, p, k);
    NextForm(data, n, w, pos);
  }

  lemma {:induction false} EndBound(data: seq<Byte>, n: nat, w: nat, pos: nat)
    requires w <= 16 && n + Pow2(w) <= |data| && pos <= n + Pow2(w)
    ensures End(data, n, w, pos) <= n + Pow2(w)
    decreases n - pos
  {
    if pos < n {
      NextBound(data, n, w, pos);
      EndBound(data, n, w, NextAt(data, n, w, pos));
    }
  }

  // The bound is reached: two equal bytes, followed by more of them, end 2^w bytes past the
  // input, which is within twice its length only for the width 1.
  lemma LongestEnd(b: Byte, w: nat)
    requires 1 <= w <= 15
    ensures var data := Repeat(b, 2 + Pow2(w));
      End(data, 2, w, 0) == 2 + Pow2(w) && (End(data, 2, w, 0) <= 2 * 2 <==> w == 1)
  {
    hide *;
    var data := Repeat(b, 2 + Pow2(w));
    Pow2Small(w);
    NoMatchAtStart(data, w);
    EqualMatch(b, 2 + Pow2(w), Pow2(w), 0);
    MatchAtOne(data, w);
    StepForm(data, 2, w, 0, 0, 0);
    StepForm(data, 2, w, 1, 1, Pow2(w));
    NextForm(data, 2, w, 0);
    NextForm(data, 2, w, 1);
    TwoSteps(data, w);
  }

  lemma NoMatchAtStart(data: seq<Byte>, w: nat)
    requires w <= 16 && Pow2(w) < |data|
    ensures Best(data, w, 0) == (0, 0)
  {
    hide Pow2, Repeats;
  }

  lemma MatchAtOne(data: seq<Byte>, w: nat)
    requires 1 <= w <= 15 && 1 + Pow2(w) < |data| && MatchLength(data, 1, 1, Pow2(w), 0) == Pow2(w)
    ensures Best(data, w, 1) == (1, Pow2(w))
  {
    hide MatchLength, Pow2, Search, Best;
    BestIsLongest(data, w, 1);
    Pow2Small(16 - w);
    assert Repeats(data, 1, 1, Pow2(w)) == Pow2(w);
  }

  lemma TwoSteps(data: seq<Byte>, w: nat)
    requires w <= 16 && 2 + Pow2(w) <= |data| && NextAt(data, 2, w, 0) == 1 && NextAt(data, 2, w, 1) == 2 + Pow2(w)
    ensures End(data, 2, w, 0) == 2 + Pow2(w)
  {
    hide NextAt, Pow2;
  }

  lemma Pow2Small(w: nat)
    requires w >= 1
    ensures Pow2(w) >= 2 && (Pow2(w) == 2 <==> w == 1)
  {
    if w > 1 { assert Pow2(w) == 2 * Pow2(w - 1) && Pow2(w - 1) == 2 * Pow2(w - 2); }
  }

  lemma {:induction false} EqualMatch(b: Byte, n: nat, cap: nat, k: nat)
    requires 1 + cap < n && k <= cap
    ensures MatchLength(Repeat(b, n), 1, 1, cap, k) == cap
    decreases cap - k
  {
    if k < cap {
      EqualMatch(b, n, cap, k + 1);
    }
  }

  // Two equal bytes, and the same byte after the input: the decompressed size is 4.
  lemma SizeOverrun()
    ensures var data := [7, 7, 7, 7];
      2 + Pow2(1) <= |data| && End(data, 2, 1, 0) == 4
  {
    var data: seq<Byte> := [7, 7, 7, 7];
    assert Pow2(1) == 2 && Pow2(15) > 4;
    assert Best(data, 1, 0) == (0, 0);
    assert MatchLength(data, 1, 1, 2, 0) == MatchLength(data, 1, 1, 2, 1) == MatchLength(data, 1, 1, 2, 2) == 2;
    assert Best(data, 1, 1) == (1, 2);
  }

  // ----- the codec in place -----

  // The longest match for the bytes at `pos`.
  method FindMatch(data: array<Byte>, w: nat, pos: nat) returns (p: nat, len: nat)
    requires 1 <= w <= 15 && pos + Pow2(w) < data.Length
    ensures (p, len) == Best(data[..], w, pos)
  {
    var farthest, longest := Pow2(16 - w), Pow2(w);
    ghost var bytes := data[..];
    ghost var far := Reach(w, pos);
    p, len := 0, 0;
    var d := 1;
    while d < farthest && d <= pos
      invariant 1 <= d <= far + 1
      invariant Search(bytes, pos, far, longest, d, p, len) == Best(bytes, w, pos)
      decreases pos + 1 - d
    {
      var k := Extent(data, pos, d, longest);
      if k > len {
        p, len := d, k;
        if len == longest { return; }
      }
      d := d + 1;
    }
  }

  // How far the bytes at `pos` repeat those `d` before them.
  method Extent(data: array<Byte>, pos: nat, d: nat, longest: nat) returns (k: nat)
    requires 1 <= d <= pos && pos + longest < data.Length
    ensures k == Repeats(data[..], pos, d, longest)
  {
    var lookA, lookB := pos, pos - d;
    k := 0;
    while true
      invariant k <= longest && lookA == pos + k && lookB == pos - d + k
      invariant MatchLength(data[..], pos, d, longest, k) == Repeats(data[..], pos, d, longest)
      decreases longest - k
    {
      if data[lookA] != data[lookB] { return; }
      lookA, lookB := lookA + 1, lookB + 1;
      if k == longest { return; }
      k := k + 1;
    }
  }

  method EmitTriple(out: array<Byte>, c: nat, word: nat, literal: Byte)
    requires c + 3 <= out.Length
    modifies out
    ensures out[..c + 3] == old(out[..c]) + [Low(word), High(word), literal]
  {
    out[c], out[c + 1], out[c + 2] := Low(word), High(word), literal;
  }

  // One triple more; the position may be one past the end after a shortened one.
  lemma NextTriple(data: seq<Byte>, n: nat, w: nat, pos: nat, next: nat, front: seq<Byte>, triple: seq<Byte>)
    requires w <= 16 && n + Pow2(w) <= |data| && pos < n
    requires triple
         == [Low(PointerAt(data, n, w, pos)), High(PointerAt(data, n, w, pos)), data[LiteralAt(data, n, w, pos)]]
    requires next == NextAt(data, n, w, pos) || (next > n && NextAt(data, n, w, pos) == n)
    ensures front + Triples(data, n, w, pos) == front + triple + Triples(data, n, w, next)
    ensures Steps(data, n, w, pos) == 1 + Steps(data, n, w, next)
  {
    hide PointerAt, LiteralAt, NextAt, Low, High, Pow2;
    assert front + (triple + Triples(data, n, w, next)) == front + triple + Triples(data, n, w, next);
  }

  // One turn of the compressor; `next` is where the loop goes on.
  method EncodeStep(data: array<Byte>, n: nat, w: nat, pos: nat, out: array<Byte>, c: nat) returns (next: nat)
    requires 1 <= w <= 15 && n + Pow2(w) <= data.Length && pos < n
    requires c + 3 <= out.Length && out != data
    modifies out
    ensures next <= n + Pow2(w)
    ensures next == NextAt(data[..], n, w, pos) || (next > n && NextAt(data[..], n, w, pos) == n)
    ensures out[..c + 3] == old(out[..c])
      + [Low(PointerAt(data[..], n, w, pos)), High(PointerAt(data[..], n, w, pos)), data[LiteralAt(data[..], n, w, pos)]]
  {
    hide *;
    var p, len := FindMatch(data, w, pos);
    ghost var _, _ := BestRepeats(data[..], w, pos);
    StepForm(data[..], n, w, pos, p, len);
    NextForm(data[..], n, w, pos);
    next := pos + len;
    var word, literal;
    if next == n && len > 0 {
      word := if len == 1 then 0 else Pack(w, p, len - 2);
      literal := next - 1;
    } else {
      word := Pack(w, p, if len > 0 then len - 1 else 0);
      literal := next;
    }
    EmitTriple(out, c, word, data[literal]);
    next := next + 1;
  }

  method Compress(data: array<Byte>, n: nat, w: nat, out: array<Byte>) returns (size: nat)
    requires 1 <= w <= 15 && n + Pow2(w) <= data.Length < WORD_LIMIT
    requires 5 + 3 * Steps(data[..], n, w, 0) <= out.Length && out != data
    modifies out
    ensures size <= out.Length && out[..size] == Compressed(data[..], n, w)
  {
    ghost var bytes := data[..];
    EmitHeader(n, w, out);
    var c := 5;
    size := 5;
    var pos := 0;
    ghost var steps := 0;
    while pos < n
      invariant data[..] == bytes && c == size == 5 + 3 * steps
      invariant 5 + 3 * (steps + Steps(bytes, n, w, pos)) <= out.Length
      invariant c <= out.Length && out[..c] + Triples(bytes, n, w, pos) == Compressed(bytes, n, w)
      decreases n - pos
    {
      hide *;
      ghost var front := out[..c];
      StepsLeft(bytes, n, w, pos);
      var next := EncodeStep(data, n, w, pos, out, c);
      NextTriple(bytes, n, w, pos, next, front,
                 [Low(PointerAt(bytes, n, w, pos)), High(PointerAt(bytes, n, w, pos)), bytes[LiteralAt(bytes, n, w, pos)]]);
      c := c + 3;
      size := size + 3;
      pos := next;
      steps := steps + 1;
    }
  }

  lemma StepsLeft(data: seq<Byte>, n: nat, w: nat, pos: nat)
    requires w <= 16 && n + Pow2(w) <= |data| && pos < n
    ensures Steps(data, n, w, pos) > 0
  {
  }

  method EmitHeader(n: nat, w: nat, out: array<Byte>)
    requires n < WORD_LIMIT && w < 256 && out.Length >= 5
    modifies out
    ensures out[..5] == Header(n, w)
  {
    out[0], out[1], out[2], out[3] := n % 256, n / 256 % 256, n / 65536 % 256, n / 16777216;
    out[4] := w;
  }

  // Copy `len` bytes from `d` back to the end of the output.
  method CopyBack(out: array<Byte>, pos: nat, d: nat, len: nat) returns (end: nat)
    requires 1 <= d <= pos && pos + len <= out.Length
    modifies out
    ensures end == pos + len && out[..end] == Copied(old(out[..pos]), d, len)
  {
    ghost var whole := Copied(out[..pos], d, len);
    end := pos;
    var from := pos - d;
    var left := len;
    while left > 0
      invariant end + left == pos + len && from + d == end && 0 <= left
      invariant Copied(out[..end], d, left) == whole
      decreases left
    {
      ghost var before := out[..end];
      out[end] := out[from];
      assert out[..end + 1] == before + [before[|before| - d]];
      end, from := end + 1, from + 1;
      left := left - 1;
    }
  }

  // One turn of the decompressor.
  method DecodeStep(comp: array<Byte>, w: nat, c: nat, out: array<Byte>, size: nat) returns (next: nat)
    requires c + 2 < comp.Length && comp != out && w <= 15
    requires Distance(WordAt(comp[..], c), w) <= size && size + Length(WordAt(comp[..], c), w) < out.Length
    modifies out
    ensures next <= out.Length && out[..next] == Grown(comp[..], c, w, old(out[..size]))
  {
    hide *;
    ghost var bytes, before := comp[..], out[..size];
    var word := comp[c] as int + 256 * comp[c + 1] as int;
    PointerParts(bytes, c, w);
    var d := ShiftRight(word, w);
    var len := if d > 0 then Bitwise(BitAnd, 16, word, Pow2(w) - 1) + 1 else 0;
    next := size;
    if d > 0 {
      next := CopyBack(out, size, d, len);
    }
    ghost var copied := out[..next];
    out[next] := comp[c + 2];
    next := next + 1;
    assert out[..next] == copied + [bytes[c + 2]];
    GrownIs(bytes, c, w, before);
  }

  // The parts of a pointer word, as the decoder computes them.
  lemma PointerParts(comp: seq<Byte>, c: nat, w: nat)
    requires c + 1 < |comp| && w <= 16
    ensures var word := comp[c] as int + 256 * comp[c + 1] as int;
      && WordAt(comp, c) == word && 0 <= word < 65536
      && Distance(word, w) == ShiftRight(word, w)
      && Length(word, w) == if ShiftRight(word, w) > 0 then Bitwise(BitAnd, 16, word, Pow2(w) - 1) + 1 else 0
  {
    hide Bitwise, ShiftRight, Pow2;
  }

  lemma GrownIs(comp: seq<Byte>, c: nat, w: nat, out: seq<Byte>)
    requires c + 2 < |comp| && Distance(WordAt(comp, c), w) <= |out|
    ensures var d, k := Distance(WordAt(comp, c), w), Length(WordAt(comp, c), w);
      Grown(comp, c, w, out) == (if d > 0 then Copied(out, d, k) else out) + [comp[c + 2]]
  {
    hide Distance, Length, WordAt, Copied;
  }

  // Decompress into `out`, which needs room for what the triples decode to.
  method Decompress(comp: array<Byte>, out: array<Byte>) returns (size: nat)
    requires comp.Length >= 5 && comp != out && 1 <= comp[4] <= 15
    requires Decodable(comp[..], HEADER, comp[4], HeaderSize(comp[..]), 0)
    requires |Decoded(comp[..], HEADER, comp[4], HeaderSize(comp[..]), [])| <= out.Length
    modifies out
    ensures size <= out.Length
    ensures out[..size] == Decoded(comp[..], HEADER, comp[4], HeaderSize(comp[..]), [])
  {
    hide Distance, Length, WordAt, Grown, Pow2;
    ghost var bytes := comp[..];
    var n := comp[0] as int + 256 * comp[1] as int + 65536 * comp[2] as int + 16777216 * comp[3] as int;
    var w := comp[4];
    var c := 5;
    size := 0;
    assert out[..0] == [];
    while size < n
      invariant size <= out.Length && comp[..] == bytes && Decodable(bytes, c, w, n, size)
      invariant Decoded(bytes, c, w, n, out[..size]) == Decoded(bytes, HEADER, w, n, [])
      decreases n - size
    {
      size := DecodeStep(comp, w, c, out, size);
      c := c + 3;
    }
  }

  // Compressing and decompressing gives the input back, also when the last match runs on.
  method CompressAndRestore(data: array<Byte>, n: nat, w: nat, comp: array<Byte>, out: array<Byte>) returns (size: nat)
    requires 1 <= w <= 15 && n + Pow2(w) <= data.Length < WORD_LIMIT
    requires 5 + 3 * Steps(data[..], n, w, 0) <= comp.Length && End(data[..], n, w, 0) <= out.Length
    requires comp != data && out != data && comp != out
    modifies comp, out
    ensures n <= size <= out.Length && out[..n] == data[..n]
    ensures size == n <==> StaysInside(data[..], n, w, 0)
  {
    hide *;
    ghost var bytes := data[..];
    var length := Compress(data, n, w, comp);
    Restores(bytes, n, w, comp[..], length);
    size := Decompress(comp, out);
    assert out[..n] == out[..size][..n] && data[..n] == bytes[..size][..n];
  }

  // What the decoder makes of a buffer that starts with the compressed form.
  lemma Restores(data: seq<Byte>, n: nat, w: nat, comp: seq<Byte>, length: nat)
    requires 1 <= w <= 15 && n + Pow2(w) <= |data| && n < WORD_LIMIT && length <= |comp|
    requires comp[..length] == Compressed(data, n, w)
    ensures HEADER == 5 <= |comp| && HeaderSize(comp) == n && comp[4] == w && Decodable(comp, HEADER, w, n, 0)
    ensures var out := Decoded(comp, HEADER, w, n, []);
      n <= |out| <= |data| && out == data[..|out|] && |out| == End(data, n, w, 0)
    ensures |Decoded(comp, HEADER, w, n, [])| == n <==> StaysInside(data, n, w, 0)
  {
    PrefixStands(comp, length, Compressed(data, n, w));
    AfterHeader(comp, n, w, Triples(data, n, w, 0));
    RoundTrip(data, n, w, comp);
    CompressedSize(data, n, w);
    hide Decoded, Decodable, End, StaysInside, Compressed, Triples, Stands, Steps;
  }

  lemma PrefixStands(comp: seq<Byte>, length: nat, part: seq<Byte>)
    requires length <= |comp| && comp[..length] == part
    ensures Stands(comp, 0, part)
  {
    assert forall i :: 0 <= i < |part| ==> comp[..length][i] == comp[i];
  }

  // ----- the width chosen for an input -----

  // The nearest earlier byte equal to the one at `pos` starts a match of this length, which
  // stops at the end of the input; 0 if there is none.
  function NearestMatch(data: seq<Byte>, pos: nat, d: nat): nat
    requires 1 <= d <= pos + 1 && pos < |data|
    decreases pos + 1 - d
  {
    if d > pos then 0
    else if data[pos] == data[pos - d] then MatchToEnd(data, pos, d, 0)
    else NearestMatch(data, pos, d + 1)
  }

  function MatchToEnd(data: seq<Byte>, pos: nat, d: nat, k: nat): (len: nat)
    requires 1 <= d <= pos && pos + k <= |data|
    ensures k <= len <= |data| - pos
    ensures pos + k < |data| && data[pos + k] == data[pos + k - d] ==> len > k
    decreases |data| - pos - k
  {
    if pos + k < |data| && data[pos + k] == data[pos + k - d] then MatchToEnd(data, pos, d, k + 1) else k
  }

  predicate SameByte(data: seq<Byte>, pos: nat, d: nat)
    requires 1 <= d <= pos < |data|
  {
    data[pos] == data[pos - d]
  }

  // The length is that of the longest match at the nearest distance at which the bytes agree.
  lemma {:induction false} NearestMatchIs(data: seq<Byte>, pos: nat, d: nat) returns (near: nat)
    requires 1 <= d <= pos + 1 && pos < |data|
    ensures d <= near <= pos + 1 && (near <= pos ==> SameByte(data, pos, near))
    ensures forall c :: d <= c < near ==> !SameByte(data, pos, c)
    ensures near > pos ==> NearestMatch(data, pos, d) == 0
    ensures near <= pos ==>
      var len := NearestMatch(data, pos, d);
      && 0 < len <= |data| - pos && (forall j :: pos <= j < pos + len ==> data[j] == data[j - near])
      && (pos + len < |data| ==> data[pos + len] != data[pos + len - near])
    decreases pos + 1 - d
  {
    near := d;
    if d <= pos {
      if SameByte(data, pos, d) {
        MatchToEndIs(data, pos, d, 0);
      } else {
        near := NearestMatchIs(data, pos, d + 1);
      }
    }
  }

  lemma {:induction false} MatchToEndIs(data: seq<Byte>, pos: nat, d: nat, k: nat)
    requires 1 <= d <= pos && pos + k <= |data|
    requires forall j :: pos <= j < pos + k ==> data[j] == data[j - d]
    ensures var len := MatchToEnd(data, pos, d, k);
      && (forall j :: pos <= j < pos + len ==> data[j] == data[j - d])
      && (pos + len < |data| ==> data[pos + len] != data[pos + len - d])
    decreases |data| - pos - k
  {
    if pos + k < |data| && data[pos + k] == data[pos + k - d] {
      MatchToEndIs(data, pos, d, k + 1);
    }
  }

  // The total length and the number of the nearest matches from `pos` on, in a 32-bit sum.
  function MatchTotals(data: seq<Byte>, pos: nat, total: Word, count: nat): (Word, nat)
    requires 1 <= pos
    decreases |data| - pos
  {
    if pos >= |data| then (total, count) else
    var len := NearestMatch(data, pos, 1);
    if len > 0 then MatchTotals(data, pos + 1, ToWord(total + len), count + 1) else MatchTotals(data, pos + 1, total, count)
  }

  function WidthFor(total: Word, count: nat): (w: nat)
    ensures 5 <= w <= 8
  {
    if count == 0 then 5 else
    var average := total / count;
    if average >= 128 then 8 else if average >= 64 then 7 else if average >= 32 then 6 else 5
  }

  // The lengths of the nearest matches at all positions; 0 where there is none.
  function NearestLengths(data: seq<Byte>): (ls: seq<nat>)
    ensures |ls| == |data|
  {
    seq(|data|, pos requires 0 <= pos < |data| => NearestMatch(data, pos, 1))
  }

  function Sum(ls: seq<nat>): nat {
    if |ls| == 0 then 0 else ls[0] + Sum(ls[1..])
  }

  // How many of the numbers from index `i` on are positive.
  ghost function Positive(ls: seq<nat>, i: nat): nat {
    |set j | i <= j < |ls| && ls[j] > 0|
  }

  lemma PositiveStep(ls: seq<nat>, i: nat)
    requires i < |ls|
    ensures Positive(ls, i) == Positive(ls, i + 1) + if ls[i] > 0 then 1 else 0
  {
    var rest := set j | i + 1 <= j < |ls| && ls[j] > 0;
    assert (set j | i <= j < |ls| && ls[j] > 0) == if ls[i] > 0 then rest + {i} else rest;
  }

  lemma {:induction false} TotalsAre(data: seq<Byte>, pos: nat, total: Word, count: nat)
    requires 1 <= pos <= |data|
    ensures var ls := NearestLengths(data);
      MatchTotals(data, pos, total, count) == (ToWord(total + Sum(ls[pos..])), count + Positive(ls, pos))
    decreases |data| - pos
  {
    var ls := NearestLengths(data);
    hide NearestMatch, NearestLengths, Positive, ToWord;
    if pos < |data| {
      var len := NearestMatch(data, pos, 1);
      LengthAt(data, pos);
      PositiveStep(ls, pos);
      assert ls[pos..][1..] == ls[pos + 1..];
      TotalsAre(data, pos + 1, if len > 0 then ToWord(total + len) else total, if len > 0 then count + 1 else count);
      WrapSum(total, len, Sum(ls[pos + 1..]));
    } else {
      NonePositive(ls, pos);
      WrapSum(total, 0, 0);
    }
  }

  lemma LengthAt(data: seq<Byte>, pos: nat)
    requires pos < |data|
    ensures NearestLengths(data)[pos] == NearestMatch(data, pos, 1)
  {
    hide NearestMatch;
  }

  lemma NonePositive(ls: seq<nat>, i: nat)
    requires i >= |ls|
    ensures Positive(ls, i) == 0
  {
    assert (set j | i <= j < |ls| && ls[j] > 0) == {};
  }

  lemma WrapSum(total: Word, x: int, y: int)
    ensures ToWord(ToWord(total + x) + y) == ToWord(total + x + y) && ToWord(total) == total
  {
  }

  // The width by the average of the nearest matches: 8 from 128 on, 7 from 64 on, 6 from 32
  // on, else 5, also when there is no match. The sum is kept in 32 bits.
  lemma WidthIsByAverage(data: seq<Byte>)
    requires |data| > 0
    ensures var ls := NearestLengths(data);
      var t, n, r := Sum(ls) % 0x1_0000_0000, Positive(ls, 0), MatchTotals(data, 1, 0, 0);
      && (WidthFor(r.0, r.1) == 8 <==> n > 0 && t >= 128 * n)
      && (WidthFor(r.0, r.1) == 7 <==> n > 0 && 64 * n <= t < 128 * n)
      && (WidthFor(r.0, r.1) == 6 <==> n > 0 && 32 * n <= t < 64 * n)
      && (WidthFor(r.0, r.1) == 5 <==> n == 0 || t < 32 * n)
  {
    var ls := NearestLengths(data);
    NoMatchAt0(data);
    PositiveStep(ls, 0);
    TotalsAre(data, 1, 0, 0);
    hide MatchTotals, NearestLengths, Positive;
    var t, n := Sum(ls) % 0x1_0000_0000, Positive(ls, 0);
    if n > 0 {
      AverageIs(t, n, 128);
      AverageIs(t, n, 64);
      AverageIs(t, n, 32);
    }
  }

  lemma NoMatchAt0(data: seq<Byte>)
    requires |data| > 0
    ensures NearestLengths(data)[0] == 0
  {
  }

  lemma AverageIs(t: nat, n: nat, k: nat)
    requires n > 0
    ensures t / n >= k <==> t >= k * n
  {
    var q := t / n;
    QuotientBounds(t, n);
    MoreTimes(k, q, n);
    MoreTimes(q + 1, k, n);
  }

  lemma QuotientBounds(t: nat, n: nat)
    requires n > 0
    ensures (t / n) * n <= t < (t / n + 1) * n
  {
  }

  lemma {:induction false} MoreTimes(a: int, b: int, n: nat)
    ensures a <= b ==> a * n <= b * n
  {
    if n > 0 {
      MoreTimes(a, b, n - 1);
      assert a * n == a * (n - 1) + a && b * n == b * (n - 1) + b;
    }
  }

  method EstimateWidth(data: array<Byte>, n: nat) returns (w: nat)
    requires n <= data.Length
    ensures 5 <= w <= 8 && (n == 0 ==> w == 5)
    ensures var ls := NearestLengths(data[..n]);
      var t, c := Sum(ls) % 0x1_0000_0000, Positive(ls, 0);
      && (w == 8 <==> c > 0 && t >= 128 * c)
      && (w == 7 <==> c > 0 && 64 * c <= t < 128 * c)
      && (w == 6 <==> c > 0 && 32 * c <= t < 64 * c)
  {
    ghost var bytes := data[..n];
    if n > 0 { WidthIsByAverage(bytes); } else { NonePositive(NearestLengths(bytes), 0); }
    var total: Word, count := 0, 0;
    var pos := 1;
    while pos < n
      invariant 1 <= pos && (pos <= n || n == 0)
      invariant MatchTotals(bytes, pos, total, count) == MatchTotals(bytes, 1, 0, 0)
    {
      hide ToWord;
      var len := 0;
      var d := 1;
      while d <= pos
        invariant 1 <= d <= pos + 1 && len == 0
        invariant NearestMatch(bytes, pos, d) == NearestMatch(bytes, pos, 1)
      {
        var k := 0;
        while pos + k < n && data[pos + k] == data[pos - d + k]
          invariant pos + k <= n
          invariant MatchToEnd(bytes, pos, d, k) == MatchToEnd(bytes, pos, d, 0)
        {
          k := k + 1;
        }
        if k > 0 {
          len := k;
          break;
        }
        d := d + 1;
      }
      if len > 0 {
        total, count := ToWord(total + len), count + 1;
      }
      pos := pos + 1;
    }
    w := 5;
    if count != 0 {
      var average := total / count;
      if average >= 128 { w := 8; }
      else if average >= 64 { w := 7; }
      else if average >= 32 { w := 6; }
    }
  }
}
