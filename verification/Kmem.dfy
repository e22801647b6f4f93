/** The kernel memory allocator: a bitmap of blocks, and length words in the blocks. */
module Kmem {
  import opened HeapSpec

  // `1 << k` in a byte of the bitmap.
  function Mask(k: nat): bv8
    requires k < 8
  {
    if k == 0 then 1 else if k == 1 then 2 else if k == 2 then 4 else if k == 3 then 8
    else if k == 4 then 16 else if k == 5 then 32 else if k == 6 then 64 else 128
  }

  predicate Bit(x: bv8, k: nat)
    requires k < 8
  {
    x & Mask(k) != 0
  }

  lemma BitSet(x: bv8, k: nat, j: nat)
    requires k < 8 && j < 8
    ensures Bit(x | Mask(k), j) == (j == k || Bit(x, j))
  {
  }

  lemma BitCleared(x: bv8, k: nat, j: nat)
    requires k < 8 && j < 8
    ensures Bit(x & !Mask(k), j) == (j != k && Bit(x, j))
  {
  }

  function Bits(bitmap: seq<bv8>, total: nat): (bits: seq<bool>)
    requires total <= 8 * |bitmap|
    ensures |bits| == total
  {
    seq(total, b requires 0 <= b < total => Bit(bitmap[b / 8], b % 8))
  }

  // Rounding up to a multiple of the pointer size.
  function Align(size: int): (r: int)
    ensures size <= r < size + 4 && r % 4 == 0
  {
    (size + 3) / 4 * 4
  }

  function BlocksFor(size: int): (n: int)
    ensures size > 0 ==> n > 0 && size + HEADER <= BLOCK_SIZE * n
    ensures size > 0 ==> BLOCK_SIZE * (n - 1) < size + HEADER
  {
    (Align(size) + HEADER + BLOCK_SIZE - 1) / BLOCK_SIZE
  }

  // `n` blocks of 256 bytes hold a length word of four bytes and the request, and fewer do not.
  predicate Least(size: int, n: int) {
    size + 4 <= 256 * n && 256 * (n - 1) < size + 4
  }

  lemma BlocksAreLeast(size: int, n: int)
    requires size > 0
    ensures Least(size, n) <==> n == BlocksFor(size)
  {
    var m := BlocksFor(size);
    hide BlocksFor;
    assert Least(size, m);
    if m < n {
      assert 256 * m <= 256 * (n - 1);
    } else if n < m {
      assert 256 * n <= 256 * (m - 1);
    }
  }

  predicate InUse(bitmap: seq<bv8>, b: nat)
    requires b < 8 * |bitmap|
  {
    (bitmap[b / 8] >> (b % 8)) & 1 == 1
  }

  // The `n` blocks from `first` are not all there, or one of them is used.
  predicate Obstructed(bitmap: seq<bv8>, total: nat, first: nat, n: nat)
    requires total <= 8 * |bitmap|
  {
    first + n > total || exists b :: first <= b < first + n && InUse(bitmap, b)
  }

  lemma MaskIs(x: bv8, k: nat)
    requires k < 8
    ensures Bit(x, k) <==> (x >> k) & 1 == 1
  {
  }

  lemma FitsUnobstructed(bitmap: seq<bv8>, total: nat, first: nat, n: nat)
    requires total <= 8 * |bitmap|
    ensures Fits(Bits(bitmap, total), first, n) <==> !Obstructed(bitmap, total, first, n)
  {
    hide Bit, Mask;
    var bits := Bits(bitmap, total);
    forall b | 0 <= b < total
      ensures bits[b] <==> InUse(bitmap, b)
    {
      MaskIs(bitmap[b / 8], b % 8);
    }
  }

  // What fits a request, by the least number of blocks and the bits of the bitmap.
  lemma FitsIs(bitmap: seq<bv8>, total: nat, size: int, n: nat)
    requires total <= 8 * |bitmap| && size > 0 && Least(size, n)
    ensures n == BlocksFor(size)
    ensures forall s: nat :: Fits(Bits(bitmap, total), s, n) <==> !Obstructed(bitmap, total, s, n)
  {
    BlocksAreLeast(size, n);
    hide Bits, Obstructed, Fits, BlocksFor, Least;
    forall s: nat
      ensures Fits(Bits(bitmap, total), s, n) <==> !Obstructed(bitmap, total, s, n)
    {
      FitsUnobstructed(bitmap, total, s, n);
    }
  }

  class Allocator {
    const start: nat               // address of the first block
    const end: nat
    const bitmap: array<bv8>
    const words: array<int>        // the memory, as words of four bytes
    var used: int
    ghost var live: map<nat, nat>  // allocations by first block, and their lengths

    // As many blocks of 256 bytes as the memory holds.
    function Total(): (n: nat)
      requires start <= end
      ensures 256 * n <= end - start < 256 * (n + 1)
    {
      (end - start) / BLOCK_SIZE
    }

    // The bitmap and the counter describe the live allocations, and the first word of each
    // holds its number of blocks.
    ghost predicate Valid()
      reads this, bitmap, words
    {
      && 0 < start <= end && Total() <= 8 * bitmap.Length && 64 * Total() <= words.Length
      && (bitmap as object) != words && Sound(Model())
      && forall b :: b in live ==> words[64 * b] == live[b]
    }

    ghost function Model(): Heap
      reads this, bitmap
      requires start <= end && Total() <= 8 * bitmap.Length
    {
      Heap(Bits(bitmap[..], Total()), live, used)
    }

    constructor (from: nat, to: nat, memory: array<int>)
      requires 0 < from <= to && 64 * ((to - from) / BLOCK_SIZE) <= memory.Length
      ensures Valid() && live == map[] && used == 0 && start == from && end == to && words == memory && fresh(bitmap)
    {
      start, end, words, used, live := from, to, memory, 0, map[];
      bitmap := new bv8[(to - from) / BLOCK_SIZE / 8 + 1](_ => 0);
      new;
      NothingUsed(Bits(bitmap[..], Total()));
    }

    // The lowest run of free blocks of the given length, or -1.
    method FindBlocks(count: nat) returns (found: int)
      requires count > 0 && start <= end && Total() <= 8 * bitmap.Length
      ensures found >= 0 ==> (Fits(Bits(bitmap[..], Total()), found, count)
        && forall s: nat :: s < found ==> !Fits(Bits(bitmap[..], Total()), s, count))
      ensures found < 0 ==> found == -1 && forall s: nat :: !Fits(Bits(bitmap[..], Total()), s, count)
    {
      hide Bits, Fits, Bit, Mask, Scanned;
      ghost var bits := Bits(bitmap[..], Total());
      var free, i := 0, 0;
      ScanStarts(bits, count);
      while i < Total()
        invariant 0 <= free <= i <= Total() && Scanned(bits, i, free, count)
      {
        BitAt(bitmap[..], Total(), i);
        if bitmap[i / 8] & Mask(i % 8) == 0 {
          ScanFree(bits, i, free, count);
          free := free + 1;
          if free == count {
            return i - count + 1;
          }
        } else {
          ScanUsed(bits, i, free, count);
          free := 0;
        }
        i := i + 1;
      }
      ScanEnds(bits, free, count);
      found := -1;
    }

    method MarkBlocks(first: nat, count: nat)
      requires start <= end && Total() <= 8 * bitmap.Length && first + count <= Total()
      modifies bitmap
      ensures Bits(bitmap[..], Total()) == Marked(old(Bits(bitmap[..], Total())), first, count, true)
    {
      hide Bits, Marked, Mask;
      ghost var bits := Bits(bitmap[..], Total());
      MarkNothing(bits, first, true);
      var i := first;
      while i < first + count
        invariant first <= i <= first + count
        invariant Bits(bitmap[..], Total()) == Marked(bits, first, i - first, true)
      {
        ghost var before := bitmap[..];
        bitmap[i / 8] := bitmap[i / 8] | Mask(i % 8);
        assert bitmap[..] == before[i / 8 := before[i / 8] | Mask(i % 8)];
        MarkOne(before, Total(), i, true, before[i / 8] | Mask(i % 8));
        MarkMore(bits, first, i - first, true);
        i := i + 1;
      }
    }

    method ClearBit(b: nat)
      requires b < 8 * bitmap.Length
      modifies bitmap
      ensures bitmap[..] == old(bitmap[..])[b / 8 := old(bitmap[b / 8]) & !Mask(b % 8)]
    {
      hide Mask;
      bitmap[b / 8] := bitmap[b / 8] & !Mask(b % 8);
    }

    method ClearBlocks(first: nat, count: nat)
      requires start <= end && Total() <= 8 * bitmap.Length && first + count <= Total()
      modifies bitmap
      ensures Bits(bitmap[..], Total()) == Marked(old(Bits(bitmap[..], Total())), first, count, false)
    {
      hide Bits, Marked, Mask;
      ghost var bits := Bits(bitmap[..], Total());
      MarkNothing(bits, first, false);
      var i := 0;
      while i < count
        invariant 0 <= i <= count
        invariant Bits(bitmap[..], Total()) == Marked(bits, first, i, false)
      {
        ghost var before, b := bitmap[..], first + i;
        ClearBit(first + i);
        MarkOne(before, Total(), b, false, before[b / 8] & !Mask(b % 8));
        MarkMore(bits, first, i, false);
        i := i + 1;
      }
    }

    // The blocks are marked, the length is written, and the counter goes up.
    method Take(first: nat, count: nat)
      requires Valid() && count > 0 && Fits(Model().bits, first, count)
      modifies `used, `live, bitmap, words
      ensures Valid() && Model() == Allocated(old(Model()), first, count) && first !in old(live)
      ensures first + count <= Total() && words[..] == old(words[..])[64 * first := count]
    {
      hide Bits, Sound, Marked;
      ghost var h := Model();
      AllocationKeepsSound(h, first, count);
      InRange(h, first, count);
      hide Fits;
      MarkBlocks(first, count);
      words[64 * first] := count;
      used := used + count * BLOCK_SIZE;
      live := live[first := count];
    }

    // A request for `size` bytes: the address of the payload, 0 for an empty request. The
    // kernel panics when no run of free blocks is long enough, and only then.
    method Kalloc(size: int) returns (ptr: nat, panic: bool)
      requires Valid()
      modifies `used, `live, bitmap, words
      ensures size <= 0 ==> ptr == 0 && !panic && Model() == old(Model()) && words[..] == old(words[..])
      ensures size > 0 ==> (panic <==> forall s: nat :: !Fits(old(Model()).bits, s, BlocksFor(size)))
      ensures forall n: nat :: size > 0 && Least(size, n) ==>
        (panic <==> forall s: nat :: Obstructed(old(bitmap[..]), Total(), s, n))
      ensures panic ==> Model() == old(Model()) && words[..] == old(words[..])
      ensures !panic ==> Valid()
      ensures size > 0 && !panic ==> ptr >= start + HEADER
      ensures size > 0 && !panic ==> (
        var first, count := (ptr - start - HEADER) / BLOCK_SIZE, BlocksFor(size);
        && ptr == start + BLOCK_SIZE * first + HEADER && first !in old(live)
        && Fits(old(Model()).bits, first, count) && (forall s: nat :: s < first ==> !Fits(old(Model()).bits, s, count))
        && Model() == Allocated(old(Model()), first, count)
        && ptr + size <= start + BLOCK_SIZE * (first + count) <= end
        && words[..] == old(words[..])[64 * first := count])
      ensures forall n: nat :: size > 0 && Least(size, n) && !panic ==> (
        var first := (ptr - start - 4) / 256;
        && !Obstructed(old(bitmap[..]), Total(), first, n)
        && (forall s: nat :: s < first ==> Obstructed(old(bitmap[..]), Total(), s, n))
        && words[..] == old(words[..])[64 * first := n] && used == old(used) + 256 * n)
    {
      hide Bits, Sound, Marked, Align, BlocksFor, Fits, Obstructed, Least;
      if size <= 0 { return 0, false; }
      forall n: nat | Least(size, n)
        ensures n == BlocksFor(size)
        ensures forall s: nat :: Fits(Model().bits, s, n) <==> !Obstructed(bitmap[..], Total(), s, n)
      {
        FitsIs(bitmap[..], Total(), size, n);
      }
      var count: nat := BlocksFor(size);
      ghost var h := Model();
      var first := FindBlocks(count);
      assert h == Model() && h.bits == Bits(bitmap[..], Total());
      if first == -1 {
        assert forall s: nat :: !Fits(h.bits, s, count);
        return 0, true;
      }
      assert Fits(h.bits, first, count);
      Take(first, count);
      ptr := start + first * BLOCK_SIZE + HEADER;
      UsedIsBounded(Model());
      assert used <= BLOCK_SIZE * Total() <= end - start;
      panic := used > end - start;
    }

    // Give back an allocation; its length is read from its first block.
    method Kfree(ptr: nat)
      requires Valid()
      requires ptr != 0 ==> ptr >= start + HEADER && (ptr - start - HEADER) % BLOCK_SIZE == 0
      requires ptr != 0 ==> (ptr - start - HEADER) / BLOCK_SIZE in live
      modifies `used, `live, bitmap
      ensures Valid()
      ensures Model() == if ptr == 0 then old(Model()) else Released(old(Model()), (ptr - start - HEADER) / BLOCK_SIZE)
    {
      hide Bits, Sound, Marked;
      if ptr == 0 { return; }
      var first := (ptr - start) / BLOCK_SIZE;
      assert first == (ptr - start - HEADER) / BLOCK_SIZE;
      ghost var h := Model();
      LiveInRange(h, first);
      ReleaseKeepsSound(h, first);
      var count := words[64 * first];
      ClearBlocks(first, count);
      used := used - count * BLOCK_SIZE;
      live := live - {first};
    }

    // The owner of a payload may write anything into it.
    method WritePayload(b: nat, i: nat, v: int)
      requires Valid() && b in live && 64 * b < i < 64 * (b + live[b])
      modifies words
      ensures Valid() && Model() == old(Model())
    {
      hide Bits, Marked, Sound;
      LiveInRange(Model(), b);
      forall a | a in live
        ensures 64 * a != i
      {
        LiveApart(Model(), a, b);
      }
      words[i] := v;
    }
  }

  // ----- the bitmap as bits -----

  lemma MarkNothing(bits: seq<bool>, first: nat, v: bool)
    ensures Marked(bits, first, 0, v) == bits
  {
  }

  lemma MarkMore(bits: seq<bool>, first: nat, n: nat, v: bool)
    requires first + n < |bits|
    ensures Marked(bits, first, n + 1, v) == Marked(bits, first, n, v)[first + n := v]
  {
  }

  // Changing one bit of a byte changes one block.
  lemma MarkOne(bitmap: seq<bv8>, total: nat, b: nat, v: bool, byte: bv8)
    requires total <= 8 * |bitmap| && b < total
    requires byte == if v then bitmap[b / 8] | Mask(b % 8) else bitmap[b / 8] & !Mask(b % 8)
    ensures Bits(bitmap[b / 8 := byte], total) == Bits(bitmap, total)[b := v]
  {
    hide Bit, Mask;
    var x, k := bitmap[b / 8], b % 8;
    forall j: nat | j < 8
      ensures Bit(byte, j) == if j == k then v else Bit(x, j)
    {
      BitSet(x, k, j);
      BitCleared(x, k, j);
    }
    var bits, bits' := Bits(bitmap, total), Bits(bitmap[b / 8 := byte], total);
    forall c | 0 <= c < total
      ensures bits'[c] == bits[b := v][c]
    {
      if c / 8 == b / 8 {
        assert c == b <==> c % 8 == k;
      }
    }
  }

  // ----- ranges -----

  lemma InRange(h: Heap, first: nat, count: nat)
    requires count > 0 && Fits(h.bits, first, count)
    ensures first + count <= |h.bits|
  {
  }

  lemma LiveInRange(h: Heap, first: nat)
    requires Sound(h) && first in h.live
    ensures h.live[first] > 0 && first + h.live[first] <= |h.bits|
  {
    hide Count;
  }

  lemma LiveApart(h: Heap, a: nat, b: nat)
    requires Sound(h) && a in h.live && b in h.live
    ensures a <= b || b + h.live[b] <= a
  {
    hide Count;
  }

  lemma BitAt(bitmap: seq<bv8>, total: nat, b: nat)
    requires total <= 8 * |bitmap| && b < total
    ensures Bits(bitmap, total)[b] == (bitmap[b / 8] & Mask(b % 8) != 0)
  {
  }

  // The first `i` blocks hold no run of `count` free ones; the last `free` of them are free.
  ghost predicate Scanned(bits: seq<bool>, i: nat, free: nat, count: nat) {
    && free <= i <= |bits| && free < count
    && (forall k :: i - free <= k < i ==> !bits[k])
    && (free < i ==> bits[i - free - 1])
    && (forall s: nat :: s + count <= i ==> !Fits(bits, s, count))
  }

  lemma ScanStarts(bits: seq<bool>, count: nat)
    requires count > 0
    ensures Scanned(bits, 0, 0, count)
  {
  }

  lemma ScanFree(bits: seq<bool>, i: nat, free: nat, count: nat)
    requires Scanned(bits, i, free, count) && i < |bits| && !bits[i]
    ensures free + 1 <= count && (free + 1 < count ==> Scanned(bits, i + 1, free + 1, count))
    ensures free + 1 == count ==>
      i + 1 >= count && Fits(bits, i - count + 1, count) && forall s: nat :: s < i - count + 1 ==> !Fits(bits, s, count)
  {
    forall s: nat | s + count <= i + 1 && s != i - free
      ensures !Fits(bits, s, count)
    {
      if s + count == i + 1 {
        assert free < i && s <= i - free - 1 < s + count;
      }
    }
  }

  lemma ScanUsed(bits: seq<bool>, i: nat, free: nat, count: nat)
    requires Scanned(bits, i, free, count) && i < |bits| && bits[i]
    ensures Scanned(bits, i + 1, 0, count)
  {
    forall s: nat | s + count <= i + 1
      ensures !Fits(bits, s, count)
    {
      if s + count == i + 1 {
        assert s <= i < s + count;
      }
    }
  }

  lemma ScanEnds(bits: seq<bool>, free: nat, count: nat)
    requires Scanned(bits, |bits|, free, count)
    ensures forall s: nat :: !Fits(bits, s, count)
  {
    forall s: nat
      ensures !Fits(bits, s, count)
    {
      if s + count <= |bits| {
      }
    }
  }

  lemma NothingUsed(bits: seq<bool>)
    requires forall k :: 0 <= k < |bits| ==> !bits[k]
    ensures Count(bits) == 0
  {
    if |bits| > 0 {
      NothingUsed(bits[..|bits| - 1]);
    }
  }
}
