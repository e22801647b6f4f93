/** The kernel heap as values: which blocks are used, and by which allocations. */
module HeapSpec {

  const BLOCK_SIZE: nat := 256
  const HEADER: nat := 4        // the length word in front of a payload

  // `live` gives the number of blocks of the allocation that starts at a block.
  datatype Heap = Heap(bits: seq<bool>, live: map<nat, nat>, used: int)

  function Count(bits: seq<bool>): (n: nat)
    ensures n <= |bits|
  {
    if |bits| == 0 then 0 else Count(bits[..|bits| - 1]) + if bits[|bits| - 1] then 1 else 0
  }

  predicate Fits(bits: seq<bool>, start: nat, n: nat) {
    start + n <= |bits| && forall k :: start <= k < start + n ==> !bits[k]
  }

  function Marked(bits: seq<bool>, start: nat, n: nat, v: bool): (r: seq<bool>)
    ensures |r| == |bits|
  {
    seq(|bits|, k requires 0 <= k < |bits| => if start <= k < start + n then v else bits[k])
  }

  predicate Covers(live: map<nat, nat>, b: nat, k: nat)
    requires b in live
  {
    b <= k < b + live[b]
  }

  // The used blocks are the disjoint union of the ranges of the live allocations.
  ghost predicate Sound(h: Heap) {
    && (forall b :: b in h.live ==> h.live[b] > 0 && b + h.live[b] <= |h.bits|)
    && (forall a, b :: a in h.live && b in h.live && a < b ==> a + h.live[a] <= b)
    && (forall k :: 0 <= k < |h.bits| ==> (h.bits[k] <==> exists b :: b in h.live && Covers(h.live, b, k)))
    && h.used == BLOCK_SIZE * Count(h.bits)
  }

  function Allocated(h: Heap, start: nat, n: nat): Heap {
    Heap(Marked(h.bits, start, n, true), h.live[start := n], h.used + BLOCK_SIZE * n)
  }

  function Released(h: Heap, start: nat): Heap
    requires start in h.live
  {
    Heap(Marked(h.bits, start, h.live[start], false), h.live - {start}, h.used - BLOCK_SIZE * h.live[start])
  }

  // ----- counting -----

  lemma {:induction false} CountUpdate(bits: seq<bool>, k: nat, v: bool)
    requires k < |bits|
    ensures Count(bits[k := v]) == Count(bits) - (if bits[k] then 1 else 0) + if v then 1 else 0
  {
    var n := |bits| - 1;
    if k == n {
      assert bits[k := v][..n] == bits[..n];
    } else {
      assert bits[k := v][..n] == bits[..n][k := v];
      CountUpdate(bits[..n], k, v);
    }
  }

  // Turning `n` blocks of one kind into the other.
  lemma {:induction false} CountMarked(bits: seq<bool>, start: nat, n: nat, v: bool)
    requires start + n <= |bits| && forall k :: start <= k < start + n ==> bits[k] == !v
    ensures Count(Marked(bits, start, n, v)) == if v then Count(bits) + n else Count(bits) - n
    decreases n
  {
    if n == 0 {
      assert Marked(bits, start, 0, v) == bits;
    } else {
      CountMarked(bits, start, n - 1, v);
      var m := Marked(bits, start, n - 1, v);
      assert Marked(bits, start, n, v) == m[start + n - 1 := v];
      CountUpdate(m, start + n - 1, v);
    }
  }

  // ----- what every allocation and every release keeps -----

  lemma AllocationKeepsSound(h: Heap, start: nat, n: nat)
    requires Sound(h) && n > 0 && Fits(h.bits, start, n)
    ensures Sound(Allocated(h, start, n)) && start !in h.live
  {
    hide Count;
    var h' := Allocated(h, start, n);
    CountMarked(h.bits, start, n, true);
    forall b | b in h.live
      ensures b + h.live[b] <= start || start + n <= b
    {
      Apart(h, b, start, n);
    }
    hide Fits;
    AllocationBits(h, start, n);
  }

  lemma AllocationBits(h: Heap, start: nat, n: nat)
    requires Sound(h) && start !in h.live && start + n <= |h.bits|
    ensures var h' := Allocated(h, start, n);
      forall k :: 0 <= k < |h'.bits| ==> (h'.bits[k] <==> exists b :: b in h'.live && Covers(h'.live, b, k))
  {
    hide Count;
    var h' := Allocated(h, start, n);
    forall k | 0 <= k < |h'.bits|
      ensures h'.bits[k] <==> exists b :: b in h'.live && Covers(h'.live, b, k)
    {
      if start <= k < start + n {
        assert Covers(h'.live, start, k);
      } else if h.bits[k] {
        var b :| b in h.live && Covers(h.live, b, k);
        assert b in h'.live && Covers(h'.live, b, k);
      } else {
        forall b | b in h'.live
          ensures !Covers(h'.live, b, k)
        {
          assert b != start ==> b in h.live && !Covers(h.live, b, k);
        }
      }
    }
  }

  // A free range and a live range do not meet.
  lemma Apart(h: Heap, b: nat, start: nat, n: nat)
    requires Sound(h) && b in h.live && n > 0 && Fits(h.bits, start, n)
    ensures b + h.live[b] <= start || start + n <= b
  {
    var k := if b < start then start else b;
    assert k < b + h.live[b] ==> Covers(h.live, b, k) && h.bits[k];
    assert k < start + n ==> start <= k && !h.bits[k];
  }

  lemma ReleaseKeepsSound(h: Heap, start: nat)
    requires Sound(h) && start in h.live
    ensures Sound(Released(h, start))
  {
    var n := h.live[start];
    forall k | start <= k < start + n
      ensures h.bits[k]
    {
      assert Covers(h.live, start, k);
    }
    CountMarked(h.bits, start, n, false);
    hide Count;
    var h' := Released(h, start);
    forall k | 0 <= k < |h'.bits|
      ensures h'.bits[k] <==> exists b :: b in h'.live && Covers(h'.live, b, k)
    {
      if start <= k < start + n {
        forall b | b in h'.live
          ensures !Covers(h'.live, b, k)
        {
          assert b in h.live && b != start;
        }
      } else if h.bits[k] {
        var b :| b in h.live && Covers(h.live, b, k);
        assert b in h'.live && Covers(h'.live, b, k);
      } else {
        forall b | b in h'.live
          ensures !Covers(h'.live, b, k)
        {
          assert b in h.live && !Covers(h.live, b, k);
        }
      }
    }
  }

  // No more bytes are used than there are, whatever was allocated.
  lemma UsedIsBounded(h: Heap)
    requires Sound(h)
    ensures 0 <= h.used <= BLOCK_SIZE * |h.bits|
  {
  }
}
