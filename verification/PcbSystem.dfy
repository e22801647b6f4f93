/**
 * All queues of the kernel together: every process control block is in at most one queue,
 * and a block outside all queues has no link.
 */
module PcbSystem {
  import opened PcbQueue

  ghost predicate Outside(queues: seq<Queue>, p: Pcb)
    reads queues
  {
    forall i :: 0 <= i < |queues| ==> p !in queues[i].contents
  }

  ghost predicate Apart(queues: seq<Queue>)
    reads queues
  {
    && (forall i, j :: 0 <= i < j < |queues| ==> queues[i] != queues[j])
    && (forall i, j, p :: 0 <= i < j < |queues| && p in queues[i].contents ==> p !in queues[j].contents)
  }

  ghost predicate Known(queues: seq<Queue>, blocks: set<Pcb>)
    reads queues
  {
    forall i, p :: 0 <= i < |queues| && p in queues[i].contents ==> p in blocks
  }

  // The queues are lists without cycles, no two share a block, and the blocks outside have
  // no link.
  ghost predicate Sound(queues: seq<Queue>, blocks: set<Pcb>)
    reads queues, blocks
  {
    && Known(queues, blocks) && Apart(queues)
    && (forall i :: 0 <= i < |queues| ==> queues[i].Valid())
    && (forall p :: p in blocks && Outside(queues, p) ==> p.next == null)
  }

  // ----- links as values -----

  ghost function Next(blocks: set<Pcb>): map<Pcb, Pcb?>
    reads blocks
  {
    map p | p in blocks :: p.next
  }

  ghost predicate LinkedIn(first: Pcb?, contents: seq<Pcb>, next: map<Pcb, Pcb?>) {
    && (first == if |contents| == 0 then null else contents[0])
    && (forall i :: 0 <= i < |contents| ==> contents[i] in next && next[contents[i]] == Follower(contents, i))
    && (forall i, j :: 0 <= i < j < |contents| ==> contents[i] != contents[j])
  }

  lemma LinkedByNext(first: Pcb?, contents: seq<Pcb>, blocks: set<Pcb>)
    requires forall p :: p in contents ==> p in blocks
    ensures Linked(first, contents) <==> LinkedIn(first, contents, Next(blocks))
  {
  }

  lemma StaysLinked(first: Pcb?, contents: seq<Pcb>, next: map<Pcb, Pcb?>, next': map<Pcb, Pcb?>)
    requires LinkedIn(first, contents, next)
    requires forall p :: p in contents ==> p in next && p in next' && next'[p] == next[p]
    ensures LinkedIn(first, contents, next')
  {
  }

  lemma LinkedOnce(first: Pcb?, contents: seq<Pcb>, next: map<Pcb, Pcb?>)
    requires LinkedIn(first, contents, next)
    ensures |contents| > 0 ==> contents[0] !in contents[1..]
    ensures forall i :: 0 <= i < |contents| ==> contents[i] !in contents[..i] && contents[i] !in contents[i + 1..]
    ensures forall i :: 0 <= i < |contents| ==> (next[contents[i]] == null <==> i == |contents| - 1)
  {
  }

  lemma DistinctIn(first: Pcb?, contents: seq<Pcb>, next: map<Pcb, Pcb?>)
    requires LinkedIn(first, contents, next)
    ensures forall i, j :: 0 <= i < j < |contents| ==> contents[i] != contents[j]
  {
  }

  lemma {:induction false} WithoutIs(s: seq<Pcb>, p: Pcb)
    requires forall i, j :: 0 <= i < j < |s| ==> s[i] != s[j]
    ensures forall x :: x in Without(s, p) <==> x in s && x != p
  {
    if |s| > 0 {
      WithoutIs(s[1..], p);
      assert s == [s[0]] + s[1..];
    }
  }

  lemma SoundParts(queues: seq<Queue>, blocks: set<Pcb>)
    requires Sound(queues, blocks)
    ensures Known(queues, blocks) && Apart(queues)
    ensures forall i :: 0 <= i < |queues| ==> LinkedIn(queues[i].list, queues[i].contents, Next(blocks))
    ensures forall p :: p in blocks && Outside(queues, p) ==> Next(blocks)[p] == null
  {
    hide Linked, LinkedIn;
    forall i | 0 <= i < |queues|
      ensures LinkedIn(queues[i].list, queues[i].contents, Next(blocks))
    {
      assert queues[i].Valid();
      LinkedByNext(queues[i].list, queues[i].contents, blocks);
    }
  }

  // From the queue that changed and the others, which did not.
  lemma SoundAgain(queues: seq<Queue>, blocks: set<Pcb>, k: nat, lists: seq<Pcb?>, before: seq<seq<Pcb>>,
                   next: map<Pcb, Pcb?>)
    requires k < |queues| == |lists| == |before| && queues[k].Valid() && Known(queues, blocks) && Apart(queues)
    requires forall i :: 0 <= i < |queues| ==> LinkedIn(lists[i], before[i], next)
    requires forall i :: 0 <= i < |queues| && i != k ==> queues[i].list == lists[i] && queues[i].contents == before[i]
    requires forall i, p :: 0 <= i < |queues| && i != k && p in before[i] ==>
      p in next && p in blocks && p.next == next[p]
    ensures forall i :: 0 <= i < |queues| ==> queues[i].Valid()
  {
    hide Linked, LinkedIn;
    forall i | 0 <= i < |queues|
      ensures queues[i].Valid()
    {
      if i != k {
        StaysLinked(lists[i], before[i], next, Next(blocks));
        LinkedByNext(lists[i], before[i], blocks);
      }
    }
  }

  ghost function Lists(queues: seq<Queue>): (ls: seq<Pcb?>)
    reads queues
    ensures |ls| == |queues| && forall i :: 0 <= i < |queues| ==> ls[i] == queues[i].list
  {
    seq(|queues|, i requires 0 <= i < |queues| reads queues => queues[i].list)
  }

  ghost function Contents(queues: seq<Queue>): (cs: seq<seq<Pcb>>)
    reads queues
    ensures |cs| == |queues| && forall i :: 0 <= i < |queues| ==> cs[i] == queues[i].contents
  {
    seq(|queues|, i requires 0 <= i < |queues| reads queues => queues[i].contents)
  }

  // After the queue `k` has lost blocks.
  lemma Smaller(queues: seq<Queue>, k: nat, before: seq<seq<Pcb>>)
    requires k < |queues| == |before|
    requires forall i :: 0 <= i < |queues| && i != k ==> queues[i].contents == before[i]
    requires forall p :: p in queues[k].contents ==> p in before[k]
    ensures forall i, p :: 0 <= i < |queues| && p in queues[i].contents ==> p in before[i]
  {
  }

  lemma KnownApart(queues: seq<Queue>, blocks: set<Pcb>, before: seq<seq<Pcb>>)
    requires |before| == |queues| && forall i, j :: 0 <= i < j < |queues| ==> queues[i] != queues[j]
    requires forall i, p :: 0 <= i < |queues| && p in before[i] ==> p in blocks
    requires forall i, j, p :: 0 <= i < j < |queues| && p in before[i] ==> p !in before[j]
    requires forall i, p :: 0 <= i < |queues| && p in queues[i].contents ==> p in before[i]
    ensures Known(queues, blocks) && Apart(queues)
  {
  }

  // ----- the operations -----

  method PushIn(ghost queues: seq<Queue>, ghost blocks: set<Pcb>, ghost k: nat, q: Queue, pcb: Pcb)
    requires Sound(queues, blocks) && k < |queues| && queues[k] == q && pcb in blocks && Outside(queues, pcb)
    modifies q, q.contents, pcb
    ensures Sound(queues, blocks) && q.contents == old(q.contents) + [pcb]
    ensures forall i :: 0 <= i < |queues| && i != k ==> queues[i].contents == old(queues[i].contents)
  {
    hide Linked, LinkedIn;
    SoundParts(queues, blocks);
    ghost var lists, before, next := Lists(queues), Contents(queues), Next(blocks);
    q.Push(pcb);
    assert pcb in q.contents;
    assert forall p :: p in before[k] ==> p in q.contents;
    SoundAgain(queues, blocks, k, lists, before, next);
  }

  method AddIn(ghost queues: seq<Queue>, ghost blocks: set<Pcb>, ghost k: nat, q: Queue, pcb: Pcb)
    requires Sound(queues, blocks) && k < |queues| && queues[k] == q && pcb in blocks && Outside(queues, pcb)
    modifies q, pcb
    ensures Sound(queues, blocks) && q.contents == [pcb] + old(q.contents)
    ensures forall i :: 0 <= i < |queues| && i != k ==> queues[i].contents == old(queues[i].contents)
  {
    hide Linked, LinkedIn;
    SoundParts(queues, blocks);
    ghost var lists, before, next := Lists(queues), Contents(queues), Next(blocks);
    q.Add(pcb);
    assert pcb in q.contents;
    assert forall p :: p in before[k] ==> p in q.contents;
    SoundAgain(queues, blocks, k, lists, before, next);
  }

  method PopIn(ghost queues: seq<Queue>, ghost blocks: set<Pcb>, ghost k: nat, q: Queue) returns (front: Pcb?)
    requires Sound(queues, blocks) && k < |queues| && queues[k] == q
    modifies q, q.contents
    ensures Sound(queues, blocks)
    ensures old(q.contents) == [] ==> front == null && q.contents == []
    ensures old(q.contents) != [] ==>
      front == old(q.contents)[0] && q.contents == old(q.contents)[1..] && Outside(queues, front)
    ensures forall i :: 0 <= i < |queues| && i != k ==> queues[i].contents == old(queues[i].contents)
  {
    hide Linked, LinkedIn;
    SoundParts(queues, blocks);
    ghost var lists, before, next := Lists(queues), Contents(queues), Next(blocks);
    LinkedOnce(q.list, q.contents, next);
    front := q.Pop();
    Smaller(queues, k, before);
    KnownApart(queues, blocks, before);
    SoundAgain(queues, blocks, k, lists, before, next);
  }

  // Taking a block out keeps the whole sound exactly when it was not there or the last one.
  method RemoveIn(ghost queues: seq<Queue>, ghost blocks: set<Pcb>, ghost k: nat, q: Queue, pcb: Pcb)
    requires Sound(queues, blocks) && k < |queues| && queues[k] == q && pcb in blocks
    modifies q, q.contents
    ensures q.contents == Without(old(q.contents), pcb) && Known(queues, blocks) && Apart(queues)
    ensures forall i :: 0 <= i < |queues| ==> queues[i].Valid()
    ensures Sound(queues, blocks) <==> pcb !in old(q.contents) || old(pcb.next) == null
    ensures forall i :: 0 <= i < |queues| && i != k ==> queues[i].contents == old(queues[i].contents)
  {
    hide Linked, LinkedIn;
    SoundParts(queues, blocks);
    ghost var lists, before, next := Lists(queues), Contents(queues), Next(blocks);
    DistinctIn(q.list, q.contents, next);
    q.Remove(pcb);
    WithoutIs(before[k], pcb);
    Smaller(queues, k, before);
    KnownApart(queues, blocks, before);
    SoundAgain(queues, blocks, k, lists, before, next);
    assert pcb in before[k] ==> Outside(queues, pcb);
  }
}
