/** The linked queues of process control blocks, against sequences. */
module PcbQueue {

  class Pcb {
    const pid: nat
    var next: Pcb?

    constructor (id: nat)
      ensures pid == id && next == null
    {
      pid, next := id, null;
    }
  }

  ghost function Follower(contents: seq<Pcb>, i: nat): Pcb? {
    if i + 1 < |contents| then contents[i + 1] else null
  }

  // The links run through the sequence, from `first` to the end.
  ghost predicate Linked(first: Pcb?, contents: seq<Pcb>)
    reads contents
  {
    && (first == if |contents| == 0 then null else contents[0])
    && (forall i :: 0 <= i < |contents| ==> contents[i].next == Follower(contents, i))
    && (forall i, j :: 0 <= i < j < |contents| ==> contents[i] != contents[j])
  }

  class Queue {
    var list: Pcb?
    ghost var contents: seq<Pcb>

    ghost predicate Valid()
      reads this, contents
    {
      Linked(list, contents)
    }

    constructor ()
      ensures Valid() && contents == []
    {
      list, contents := null, [];
    }

    // Append. A queue that is empty takes the block with the link it has, so the result is
    // a queue exactly when the queue was not empty or the block had no link.
    method Push(pcb: Pcb)
      requires Valid() && pcb !in contents
      modifies this, contents, pcb
      ensures contents == old(contents) + [pcb]
      ensures Valid() <==> old(contents) != [] || old(pcb.next) == null
      ensures list == (if old(contents) == [] then pcb else old(list))
      ensures pcb.next == if old(contents) == [] then old(pcb.next) else null
    {
      var current := list;
      contents := contents + [pcb];
      if current == null {
        list := pcb;
        return;
      }
      ghost var n, i := |contents| - 1, 0;
      while current.next != null
        invariant 0 <= i < n && current == contents[i]
        decreases n - i
      {
        current := current.next;
        i := i + 1;
      }
      current.next := pcb;
      pcb.next := null;
    }

    // Put in front.
    method Add(pcb: Pcb)
      requires Valid() && pcb !in contents
      modifies this, pcb
      ensures contents == [pcb] + old(contents) && Valid()
    {
      pcb.next := list;
      list := pcb;
      contents := [pcb] + contents;
    }

    // Take the first block, without a link; null from an empty queue.
    method Pop() returns (front: Pcb?)
      requires Valid()
      modifies this, contents
      ensures Valid()
      ensures old(contents) == [] ==> front == null && contents == []
      ensures old(contents) != [] ==> front == old(contents)[0] && contents == old(contents)[1..] && front.next == null
      ensures forall p :: p in contents ==> p.next == old(p.next)
    {
      if list == null { return null; }
      front := list;
      list := front.next;
      front.next := null;
      contents := contents[1..];
    }

    method Peek() returns (front: Pcb?)
      requires Valid()
      ensures front == if contents == [] then null else contents[0]
    {
      if list == null { return null; }
      front := list;
    }

    // Take a block out of the queue. Its own link is left as it is.
    method Remove(pcb: Pcb)
      requires Valid()
      modifies this, contents
      ensures Valid() && pcb.next == old(pcb.next)
      ensures contents == Without(old(contents), pcb)
    {
      if list == null {
        return;
      }
      if list == pcb {
        WithoutFirst(contents);
        list := pcb.next;
        contents := contents[1..];
        return;
      }
      var current := list;
      ghost var i := 0;
      while current.next != null && current.next != pcb
        invariant 0 <= i < |contents| && current == contents[i] && pcb !in contents[..i + 1]
        decreases |contents| - i
      {
        current := current.next;
        i := i + 1;
      }
      if current.next == null {
        assert contents[..i + 1] == contents;
        WithoutAbsent(contents, pcb);
        return;
      }
      WithoutAt(contents, i + 1);
      Unlink(current, pcb, i);
    }

    // Bypass the block after `current`.
    method Unlink(current: Pcb, pcb: Pcb, ghost i: nat)
      requires Valid() && i + 1 < |contents| && current == contents[i] && pcb == contents[i + 1]
      modifies `contents, current
      ensures Valid() && contents == old(contents)[..i + 1] + old(contents)[i + 2..] && pcb.next == old(pcb.next)
    {
      ghost var before := contents;
      current.next := pcb.next;
      contents := before[..i + 1] + before[i + 2..];
      forall k | 0 <= k < |contents|
        ensures contents[k].next == Follower(contents, k)
      {
        ghost var j := if k <= i then k else k + 1;
        assert contents[k] == before[j] && old(before[j].next) == Follower(before, j);
      }
    }
  }

  // The sequence without a block.
  ghost function Without(s: seq<Pcb>, p: Pcb): seq<Pcb> {
    if |s| == 0 then [] else if s[0] == p then s[1..] else [s[0]] + Without(s[1..], p)
  }

  lemma WithoutFirst(s: seq<Pcb>)
    requires |s| > 0
    ensures Without(s, s[0]) == s[1..]
  {
  }

  lemma {:induction false} WithoutAbsent(s: seq<Pcb>, p: Pcb)
    requires p !in s
    ensures Without(s, p) == s
  {
    if |s| > 0 {
      WithoutAbsent(s[1..], p);
    }
  }

  lemma {:induction false} WithoutAt(s: seq<Pcb>, i: nat)
    requires i < |s| && s[i] !in s[..i]
    ensures Without(s, s[i]) == s[..i] + s[i + 1..]
  {
    if i > 0 {
      assert s[1..][i - 1] == s[i] && s[1..][..i - 1] == s[1..i] && s[1..][i..] == s[i + 1..];
      assert s[0] == s[..i][0];
      assert s[i] !in s[1..i] by {
        assert forall j :: 0 <= j < i - 1 ==> s[1..i][j] == s[..i][j + 1];
      }
      WithoutAt(s[1..], i - 1);
      assert s[..i] == [s[0]] + s[1..i];
    }
  }

  // The links of the blocks, as values.
  ghost function Links(contents: seq<Pcb>): (links: seq<Pcb?>)
    reads contents
    ensures |links| == |contents| && forall i :: 0 <= i < |links| ==> links[i] == contents[i].next
  {
    seq(|contents|, i requires 0 <= i < |contents| reads contents => contents[i].next)
  }

  ghost predicate RunsThrough(first: Pcb?, contents: seq<Pcb>, links: seq<Pcb?>)
    requires |links| == |contents|
  {
    && (first == if |contents| == 0 then null else contents[0])
    && (forall i :: 0 <= i < |contents| ==> links[i] == Follower(contents, i))
    && (forall i, j :: 0 <= i < j < |contents| ==> contents[i] != contents[j])
  }

  // A queue depends on the links of its blocks only.
  lemma LinkedByLinks(first: Pcb?, contents: seq<Pcb>)
    ensures Linked(first, contents) <==> RunsThrough(first, contents, Links(contents))
  {
  }

  lemma FirstIsOnce(first: Pcb?, contents: seq<Pcb>, links: seq<Pcb?>)
    requires |links| == |contents| && RunsThrough(first, contents, links)
    ensures |contents| > 0 ==> contents[0] !in contents[1..]
  {
  }

  // Moving a block from one queue to the end of another: the queues stay disjoint.
  method Move(from: Queue, to: Queue) returns (moved: Pcb?)
    requires from != to && from.Valid() && to.Valid()
    requires forall p :: p in from.contents ==> p !in to.contents
    modifies from, to, from.contents, to.contents
    ensures from.Valid() && to.Valid()
    ensures forall p :: p in from.contents ==> p !in to.contents
    ensures old(from.contents) == [] ==> moved == null && from.contents == [] && to.contents == old(to.contents)
    ensures old(from.contents) != [] ==> (moved == old(from.contents)[0]
      && from.contents == old(from.contents)[1..] && to.contents == old(to.contents) + [moved])
  {
    hide Linked, RunsThrough;
    ghost var before, others, links := from.contents, to.contents, Links(to.contents);
    LinkedByLinks(from.list, before);
    FirstIsOnce(from.list, before, Links(before));
    LinkedByLinks(to.list, others);
    moved := from.Pop();
    forall i | 0 <= i < |links|
      ensures others[i].next == links[i]
    {
      assert others[i] in others;
    }
    assert Links(others) == links;
    LinkedByLinks(to.list, others);
    if moved != null {
      assert moved !in before[1..] && moved in before;
      assert forall p :: p in before[1..] ==> p in before && p != moved && p !in others;
      PushBeside(to, moved, from);
    }
  }

  // Appending to one queue leaves a disjoint one alone.
  method PushBeside(to: Queue, pcb: Pcb, other: Queue)
    requires to != other && to.Valid() && other.Valid() && pcb !in to.contents && pcb !in other.contents
    requires pcb.next == null
    requires forall p :: p in other.contents ==> p !in to.contents
    modifies to, to.contents, pcb
    ensures to.Valid() && other.Valid() && to.contents == old(to.contents) + [pcb]
  {
    hide Linked, RunsThrough;
    ghost var links := Links(other.contents);
    LinkedByLinks(other.list, other.contents);
    to.Push(pcb);
    forall i | 0 <= i < |links|
      ensures other.contents[i].next == links[i]
    {
      assert other.contents[i] in other.contents;
    }
    assert Links(other.contents) == links;
    LinkedByLinks(other.list, other.contents);
  }

  // A block that was removed keeps its link. Pushed onto an empty queue, it brings the rest
  // of its old queue along.
  method StaleLink(q: Queue, empty: Queue)
    requires q != empty && q.Valid() && empty.Valid() && |q.contents| == 2 && empty.contents == []
    modifies q, empty, q.contents
    ensures q.Valid() && q.contents == old(q.contents)[1..] && empty.contents == [old(q.contents)[0]] && !empty.Valid()
    ensures empty.list != null && empty.list.next == q.list
  {
    var a := q.list;
    q.Remove(a);
    empty.Push(a);
  }
}
