/** The steps of a write on the values of the table and the disk. */
module FatSteps {
  import opened Words
  import opened FatSpec

  // The chain may have grown by free clusters.
  ghost predicate Grown(fat: seq<Entry>, chain: seq<nat>, link: seq<nat>) {
    |link| >= |chain| && link == chain + link[|chain|..] && TakesLowest(fat, link[|chain|..])
  }

  // The blocks of the chain hold the first `done` bytes of the data.
  ghost predicate Filled(at: Layout, disk0: seq<Block>, disk: seq<Block>, link: seq<nat>, offset: nat, bytes: seq<Byte>)
    requires at.tableBlocks > 0
  {
    && |disk| == |disk0| && OnDisk(at.DataStart(), link, |disk0|)
    && SameBlocks(at, disk0, disk, link)
    && forall i :: 0 <= i < |link| ==>
      disk[at.DataStart() + link[i]] == Patched(disk0[at.DataStart() + link[i]], i, offset, bytes)
  }

  // The table while a write goes on: `link` is the chain so far.
  ghost predicate Linked(fat0: seq<Entry>, fat: seq<Entry>, chain: seq<nat>, link: seq<nat>) {
    && Chain(fat0, chain) && Chain(fat, link) && Grown(fat0, chain, link) && SameElsewhere(fat0, fat, link)
    && (|link| == |chain| ==> fat == fat0)
  }

  lemma StartsLinked(fat: seq<Entry>, chain: seq<nat>)
    requires Chain(fat, chain)
    ensures Linked(fat, fat, chain, chain)
  {
    assert chain == chain + chain[|chain|..];
  }

  lemma StartsFilled(at: Layout, disk: seq<Block>, chain: seq<nat>, offset: nat)
    requires at.tableBlocks > 0 && OnDisk(at.DataStart(), chain, |disk|)
    ensures Filled(at, disk, disk, chain, offset, [])
  {
    forall i | 0 <= i < |chain|
      ensures disk[at.DataStart() + chain[i]] == Patched(disk[at.DataStart() + chain[i]], i, offset, [])
    {
    }
  }

  // A free cluster is not part of any chain.
  lemma FreeIsOutside(fat: seq<Entry>, chain: seq<nat>, c: nat)
    requires Chain(fat, chain) && IsFree(fat, c)
    ensures c !in chain
  {
    forall i | 0 <= i < |chain|
      ensures chain[i] != c
    {
      assert fat[chain[i]] == After(chain, i) != 0;
    }
  }

  // The chain takes one more cluster: it is marked as the end, then linked.
  lemma LinkExtends(fat0: seq<Entry>, fat: seq<Entry>, chain: seq<nat>, link: seq<nat>, c: nat, limit: int)
    requires Linked(fat0, fat, chain, link)
    requires IsFree(fat, c) && forall b :: IsFree(fat, b) ==> c <= b
    ensures Linked(fat0, fat[c := END_OF_CHAIN][link[|link| - 1] := c], chain, link + [c])
    ensures Free(fat[c := END_OF_CHAIN][link[|link| - 1] := c], limit) == Free(fat, limit) - {c}
  {
    hide Chain, Grown, SameElsewhere, IsFree, Free;
    FreeIsOutside(fat, link, c);
    ChainExtends(fat, link, c);
    GrownExtends(fat0, fat, chain, link, c);
    FreeIsCluster(fat, link, c);
    SameExtends(fat0, fat, link, c);
    FreeShrinks(fat, link, c, limit);
    assert |link| != |chain| || |link + [c]| != |chain|;
    GrownLonger(fat0, chain, link);
  }

  lemma FreeIsCluster(fat: seq<Entry>, link: seq<nat>, c: nat)
    requires Chain(fat, link) && IsFree(fat, c)
    ensures FIRST_FREE <= c < |fat| && c < LAST_CLUSTER && |link| > 0 && 0 < link[|link| - 1] < |fat|
    ensures fat[link[|link| - 1]] == END_OF_CHAIN
  {
    assert fat[link[|link| - 1]] == After(link, |link| - 1);
  }

  lemma GrownLonger(fat: seq<Entry>, chain: seq<nat>, link: seq<nat>)
    requires Grown(fat, chain, link)
    ensures |link| >= |chain|
  {
    hide TakesLowest;
  }

  lemma SameExtends(fat0: seq<Entry>, fat: seq<Entry>, link: seq<nat>, c: nat)
    requires SameElsewhere(fat0, fat, link) && |link| > 0 && link[|link| - 1] < |fat| && c < |fat| && c < 65536
    ensures SameElsewhere(fat0, fat[c := END_OF_CHAIN][link[|link| - 1] := c], link + [c])
  {
    assert link[|link| - 1] in link + [c] && c in link + [c] && forall b :: b in link ==> b in link + [c];
  }

  lemma FreeShrinks(fat: seq<Entry>, link: seq<nat>, c: nat, limit: int)
    requires IsFree(fat, c) && |link| > 0 && link[|link| - 1] < |fat| && fat[link[|link| - 1]] == END_OF_CHAIN
    ensures Free(fat[c := END_OF_CHAIN][link[|link| - 1] := c], limit) == Free(fat, limit) - {c}
  {
    var last := link[|link| - 1];
    var fat' := fat[c := END_OF_CHAIN][last := c];
    assert fat'[last] == c && last != c;
    forall b
      ensures IsFree(fat', b) <==> IsFree(fat, b) && b != c
    {
      if b != last && b != c && 0 <= b < |fat| {
        assert fat'[b] == fat[b];
      }
    }
  }

  lemma ChainExtends(fat: seq<Entry>, link: seq<nat>, c: nat)
    requires Chain(fat, link) && IsFree(fat, c) && c !in link
    ensures Chain(fat[c := END_OF_CHAIN][link[|link| - 1] := c], link + [c])
  {
    var fat', link' := fat[c := END_OF_CHAIN][link[|link| - 1] := c], link + [c];
    forall i | 0 <= i < |link'|
      ensures 0 < link'[i] < |fat'| && link'[i] < LAST_CLUSTER && fat'[link'[i]] == After(link', i)
    {
      if i < |link| {
        ChainNext(fat, link, i);
        ChainDistinct(fat, link, i, |link| - 1);
      }
    }
  }

  // No cluster occurs twice: equal clusters have equal successors, up to the end mark, which
  // is no cluster.
  lemma {:induction false} ChainDistinct(fat: seq<Entry>, chain: seq<nat>, i: nat, j: nat)
    requires Chain(fat, chain) && i < |chain| && j < |chain|
    ensures i != j ==> chain[i] != chain[j]
    decreases |chain| - i + |chain| - j
  {
    if i != j && chain[i] == chain[j] && i + 1 < |chain| && j + 1 < |chain| {
      ChainDistinct(fat, chain, i + 1, j + 1);
    }
  }

  lemma ChainAllDistinct(fat: seq<Entry>, chain: seq<nat>)
    requires Chain(fat, chain)
    ensures forall i, j :: 0 <= i < j < |chain| ==> chain[i] != chain[j]
  {
    forall i, j | 0 <= i < j < |chain|
      ensures chain[i] != chain[j]
    {
      ChainDistinct(fat, chain, i, j);
    }
  }

  // A cluster is the first one of at most one chain.
  lemma {:induction false} ChainIsUnique(fat: seq<Entry>, chain: seq<nat>, other: seq<nat>, n: nat)
    requires Chain(fat, chain) && Chain(fat, other) && chain[0] == other[0] && n <= |chain|
    ensures n <= |other| && chain[..n] == other[..n]
    ensures n == |chain| ==> n == |other|
  {
    hide Chain;
    ChainStarts(fat, chain);
    ChainStarts(fat, other);
    if n > 0 {
      ChainIsUnique(fat, chain, other, n - 1);
      if n > 1 {
        SamePrefix(chain, other, n - 1, n - 2);
        SameNext(fat, chain, other, n - 2);
      }
      assert chain[..n] == chain[..n - 1] + [chain[n - 1]];
      assert other[..n] == other[..n - 1] + [other[n - 1]];
      SameEnd(fat, chain, other, n - 1);
    }
  }

  lemma ChainStarts(fat: seq<Entry>, chain: seq<nat>)
    requires Chain(fat, chain)
    ensures |chain| > 0
  {
  }

  lemma SamePrefix(a: seq<nat>, b: seq<nat>, n: nat, i: nat)
    requires i < n <= |a| && n <= |b| && a[..n] == b[..n]
    ensures a[i] == b[i]
  {
    assert a[i] == a[..n][i];
  }

  lemma SameNext(fat: seq<Entry>, chain: seq<nat>, other: seq<nat>, i: nat)
    requires Chain(fat, chain) && Chain(fat, other) && i + 1 < |chain| && i < |other| && chain[i] == other[i]
    ensures i + 1 < |other| && chain[i + 1] == other[i + 1]
  {
    ChainNext(fat, chain, i + 1);
  }

  lemma SameEnd(fat: seq<Entry>, chain: seq<nat>, other: seq<nat>, i: nat)
    requires Chain(fat, chain) && Chain(fat, other) && i < |chain| && i < |other| && chain[i] == other[i]
    ensures i + 1 == |chain| ==> i + 1 == |other|
  {
    if i + 1 == |chain| && i + 1 < |other| {
      SameNext(fat, other, chain, i);
    }
  }

  lemma GrownExtends(fat0: seq<Entry>, fat: seq<Entry>, chain: seq<nat>, link: seq<nat>, c: nat)
    requires Chain(fat0, chain) && Chain(fat, link) && Grown(fat0, chain, link) && SameElsewhere(fat0, fat, link)
    requires IsFree(fat, c) && c !in link && forall b :: IsFree(fat, b) ==> c <= b
    ensures Grown(fat0, chain, link + [c])
  {
    hide Chain, TakesLowest;
    var added := link[|chain|..];
    assert (link + [c])[|chain|..] == added + [c];
    assert link == chain + added;
    assert forall b :: b in added ==> b in link;
    forall b | IsFree(fat0, b) && b !in added
      ensures b == c || c < b
    {
      FreeIsOutside(fat0, chain, b);
      assert b !in link;
      assert IsFree(fat, b);
    }
    assert IsFree(fat0, c) && c !in added;
    TakesNext(fat0, added, c);
  }

  lemma TakesNext(fat: seq<Entry>, added: seq<nat>, c: nat)
    requires TakesLowest(fat, added) && IsFree(fat, c) && c !in added
    requires forall b :: IsFree(fat, b) && b !in added ==> b == c || c < b
    ensures TakesLowest(fat, added + [c])
  {
  }

  // A cluster that joins the chain has its old contents, and the data so far ends before it.
  lemma FilledExtends(at: Layout, disk0: seq<Block>, disk: seq<Block>, link: seq<nat>, c: nat, offset: nat,
                      bytes: seq<Byte>)
    requires at.tableBlocks > 0 && Filled(at, disk0, disk, link, offset, bytes)
    requires 0 < c && at.DataStart() + c < |disk| && c !in link && offset + |bytes| <= BLOCK * |link|
    ensures Filled(at, disk0, disk, link + [c], offset, bytes)
  {
    var b := at.DataStart() + c;
    assert b - at.DataStart() == c;
    assert disk[b] == disk0[b];
    assert Patched(disk0[b], |link|, offset, bytes) == disk0[b];
    hide Patched;
    forall i | 0 <= i < |link + [c]|
      ensures at.DataStart() + (link + [c])[i] < |disk0|
      ensures disk[at.DataStart() + (link + [c])[i]]
           == Patched(disk0[at.DataStart() + (link + [c])[i]], i, offset, bytes)
    {
      if i < |link| {
        assert (link + [c])[i] == link[i];
      }
    }
  }

  // The part of a block from `from` on is replaced by the next bytes of the data.
  lemma PatchGrows(block0: Block, block: Block, i: nat, offset: nat, bytes: seq<Byte>, more: seq<Byte>, from: nat)
    requires block == Patched(block0, i, offset, bytes)
    requires from + |more| <= BLOCK && BLOCK * i + from == offset + |bytes|
    ensures block[..from] + more + block[from + |more|..] == Patched(block0, i, offset, bytes + more)
  {
  }

  // Other blocks are not touched by those bytes.
  lemma PatchElsewhere(block0: Block, i: nat, j: nat, offset: nat, bytes: seq<Byte>, more: seq<Byte>)
    requires i != j && BLOCK * i <= offset + |bytes| && offset + |bytes| + |more| <= BLOCK * (i + 1)
    ensures Patched(block0, j, offset, bytes + more) == Patched(block0, j, offset, bytes)
  {
    forall r | 0 <= r < BLOCK
      ensures Patched(block0, j, offset, bytes + more)[r] == Patched(block0, j, offset, bytes)[r]
    {
      if j < i {
        assert BLOCK * j + r < BLOCK * i;
      } else {
        assert BLOCK * j >= BLOCK * (i + 1);
      }
    }
  }

  // Writing into the cluster with index `m` of the chain.
  lemma FilledGrows(at: Layout, disk0: seq<Block>, disk: seq<Block>, link: seq<nat>, m: nat, offset: nat,
                    bytes: seq<Byte>, more: seq<Byte>, from: nat, block: Block)
    requires at.tableBlocks > 0 && Filled(at, disk0, disk, link, offset, bytes)
    requires m < |link| && (forall i, j :: 0 <= i < j < |link| ==> link[i] != link[j])
    requires forall i :: 0 <= i < |link| ==> link[i] > 0
    requires from + |more| <= BLOCK && BLOCK * m + from == offset + |bytes|
    requires var old_ := disk[at.DataStart() + link[m]]; block == old_[..from] + more + old_[from + |more|..]
    ensures Filled(at, disk0, disk[at.DataStart() + link[m] := block], link, offset, bytes + more)
  {
    var s := at.DataStart();
    var disk' := disk[s + link[m] := block];
    PatchGrows(disk0[s + link[m]], disk[s + link[m]], m, offset, bytes, more, from);
    hide Patched;
    forall i | 0 <= i < |link|
      ensures disk'[s + link[i]] == Patched(disk0[s + link[i]], i, offset, bytes + more)
    {
      if i != m {
        assert link[i] != link[m];
        PatchElsewhere(disk0[s + link[i]], m, i, offset, bytes, more);
      }
    }
  }

  // The chain is cut after its first `m` clusters, which hold all the data.
  lemma ChainCut(fat: seq<Entry>, link: seq<nat>, m: nat)
    requires Chain(fat, link) && 0 < m <= |link|
    ensures Chain(fat[link[m - 1] := END_OF_CHAIN], link[..m])
  {
    var fat', chain' := fat[link[m - 1] := END_OF_CHAIN], link[..m];
    forall i | 0 <= i < m
      ensures 0 < chain'[i] < |fat'| && chain'[i] < LAST_CLUSTER && fat'[chain'[i]] == After(chain', i)
    {
      hide Chain;
      ChainNext(fat, link, i);
      ChainDistinct(fat, link, i, m - 1);
    }
  }

  lemma FilledCut(at: Layout, disk0: seq<Block>, disk: seq<Block>, link: seq<nat>, m: nat, offset: nat,
                  bytes: seq<Byte>)
    requires at.tableBlocks > 0 && Filled(at, disk0, disk, link, offset, bytes)
    requires m <= |link| && offset + |bytes| <= BLOCK * m
    ensures Filled(at, disk0, disk, link[..m], offset, bytes)
  {
    hide Patched;
    var s := at.DataStart();
    forall i | m <= i < |link|
      ensures disk[s + link[i]] == disk0[s + link[i]]
    {
      PatchNothing(disk0[s + link[i]], i, m, offset, bytes);
    }
    CutBlocks(at, disk0, disk, link, m);
  }

  lemma CutBlocks(at: Layout, disk0: seq<Block>, disk: seq<Block>, link: seq<nat>, m: nat)
    requires at.tableBlocks > 0 && SameBlocks(at, disk0, disk, link) && m <= |link|
    requires forall i :: m <= i < |link| ==>
      0 <= at.DataStart() + link[i] < |disk0| && disk[at.DataStart() + link[i]] == disk0[at.DataStart() + link[i]]
    ensures SameBlocks(at, disk0, disk, link[..m])
  {
    var s := at.DataStart();
    forall b | 0 <= b < |disk| && !at.InTable(b) && b - s !in link[..m]
      ensures disk[b] == disk0[b]
    {
      forall i | 0 <= i < |link|
        ensures link[i] == b - s ==> i >= m
      {
        PrefixHas(link, m, i);
      }
    }
  }

  lemma PrefixHas(link: seq<nat>, m: nat, i: nat)
    requires i < |link| && m <= |link|
    ensures i < m ==> link[i] in link[..m]
  {
    if i < m {
      assert link[..m][i] == link[i];
    }
  }

  lemma PatchNothing(block: Block, i: nat, m: nat, offset: nat, bytes: seq<Byte>)
    requires i >= m && offset + |bytes| <= BLOCK * m
    ensures Patched(block, i, offset, bytes) == block
  {
    assert BLOCK * i >= BLOCK * m;
  }

  // What is left at the end of a write.
  lemma Finishes(at: Layout, fat0: seq<Entry>, disk0: seq<Block>, fat: seq<Entry>, disk: seq<Block>, chain: seq<nat>,
                 link: seq<nat>,
                 m: nat, offset: nat, data: seq<Byte>, fat': seq<Entry>, disk': seq<Block>)
    requires at.Fits(|fat0|, |disk0|) && Linked(fat0, fat, chain, link) && Filled(at, disk0, disk, link, offset, data)
    requires m == ClustersFor(offset + |data|) && 0 < m <= |link| && (|link| > |chain| ==> m == |link|)
    requires |fat| == |fat0| && fat' == fat[link[m - 1] := END_OF_CHAIN]
    requires |disk'| == |disk| && Saved(at, fat', disk') && forall b :: 0 <= b < |disk| && !at.InTable(b) ==>
      disk'[b] == disk[b]
    ensures Written(at, fat0, disk0, fat', disk', chain, link[..m], offset, data)
  {
    hide Linked, Grown, Patched, TakesLowest, Saved, Resized, SameElsewhere, Chain, OnDisk, SameBlocks;
    LinkedIsChain(fat0, fat, chain, link);
    ChainNext(fat, link, m - 1);
    TableFinishes(fat0, fat, chain, link, m);
    ChainCut(fat, link, m);
    FilledCut(at, disk0, disk, link, m, offset, data);
    FilledSaved(at, disk0, disk, link[..m], offset, data, disk');
  }

  lemma LinkedIsChain(fat0: seq<Entry>, fat: seq<Entry>, chain: seq<nat>, link: seq<nat>)
    requires Linked(fat0, fat, chain, link)
    ensures Chain(fat, link) && forall i :: 0 <= i < |link| ==> 0 < link[i]
  {
  }

  // Saving the table leaves the blocks of the chain.
  lemma FilledSaved(at: Layout, disk0: seq<Block>, disk: seq<Block>, link: seq<nat>, offset: nat, data: seq<Byte>,
                    disk': seq<Block>)
    requires at.tableBlocks > 0 && Filled(at, disk0, disk, link, offset, data) && forall i :: 0 <= i < |link| ==>
      0 < link[i]
    requires |disk'| == |disk| && forall b :: 0 <= b < |disk| && !at.InTable(b) ==> disk'[b] == disk[b]
    ensures Filled(at, disk0, disk', link, offset, data)
  {
    hide Patched;
    forall i | 0 <= i < |link|
      ensures !at.InTable(at.DataStart() + link[i])
    {
    }
  }

  lemma TableFinishes(fat0: seq<Entry>, fat: seq<Entry>, chain: seq<nat>, link: seq<nat>, m: nat)
    requires |fat| == |fat0| && Linked(fat0, fat, chain, link) && 0 < m <= |link| && link[m - 1] < |fat|
    requires (|link| > |chain| ==> m == |link|)
    ensures Resized(fat0, chain, link[..m], m) && SameElsewhere(fat0, fat[link[m - 1] := END_OF_CHAIN], link[..m])
  {
    hide Chain, TakesLowest;
    var chain' := link[..m];
    assert chain'[m - 1] == link[m - 1];
    if m == |link| {
      assert chain' == link;
    } else {
      assert link == chain && fat == fat0 by {
        assert chain + link[|chain|..] == chain;
      }
    }
  }

  // A write in progress: `m` clusters are done, the data so far fills the chain.
  ghost predicate InProgress(at: Layout, fat0: seq<Entry>, disk0: seq<Block>, fat: seq<Entry>, disk: seq<Block>,
                             chain: seq<nat>, link: seq<nat>, m: nat, offset: nat, bytes: seq<Byte>) {
    && at.Fits(|fat0|, |disk0|) && Linked(fat0, fat, chain, link) && Filled(at, disk0, disk, link, offset, bytes)
    && m <= |link| && (|link| > |chain| ==> m == |link|)
  }

  lemma Starts(at: Layout, fat: seq<Entry>, disk: seq<Block>, chain: seq<nat>, m: nat, offset: nat)
    requires at.Fits(|fat|, |disk|) && Chain(fat, chain) && OnDisk(at.DataStart(), chain, |disk|) && m <= |chain|
    ensures InProgress(at, fat, disk, fat, disk, chain, chain, m, offset, [])
  {
    StartsLinked(fat, chain);
    StartsFilled(at, disk, chain, offset);
  }

  // What a write in progress says about the chain.
  lemma ProgressChain(at: Layout, fat0: seq<Entry>, disk0: seq<Block>, fat: seq<Entry>, disk: seq<Block>,
                      chain: seq<nat>, link: seq<nat>, m: nat, offset: nat, bytes: seq<Byte>)
    requires InProgress(at, fat0, disk0, fat, disk, chain, link, m, offset, bytes)
    ensures at.Fits(|fat|, |disk|) && 0 < |chain| <= |link| && m <= |link| && (|link| > |chain| ==> m == |link|)
    ensures forall i :: 0 <= i < |link| ==>
      0 < link[i] < |fat| && link[i] < LAST_CLUSTER && fat[link[i]] == After(link, i)
  {
    hide TakesLowest, Patched;
  }

  lemma ChainNext(fat: seq<Entry>, chain: seq<nat>, i: nat)
    requires Chain(fat, chain) && i < |chain|
    ensures 0 < chain[i] < |fat| && chain[i] < LAST_CLUSTER && fat[chain[i]] == After(chain, i)
  {
  }

  lemma ProgressParts(at: Layout, fat0: seq<Entry>, disk0: seq<Block>, fat: seq<Entry>, disk: seq<Block>,
                      chain: seq<nat>, link: seq<nat>, m: nat, offset: nat, bytes: seq<Byte>)
    requires InProgress(at, fat0, disk0, fat, disk, chain, link, m, offset, bytes)
    ensures at.Fits(|fat0|, |disk0|) && |fat| == |fat0| && Linked(fat0, fat, chain, link)
    ensures Filled(at, disk0, disk, link, offset, bytes)
  {
    hide Chain, Grown;
  }

  // The chain takes the lowest free cluster.
  lemma ProgressExtends(at: Layout, fat0: seq<Entry>, disk0: seq<Block>, fat: seq<Entry>, disk: seq<Block>,
                        chain: seq<nat>, link: seq<nat>, offset: nat, bytes: seq<Byte>, c: nat)
    requires InProgress(at, fat0, disk0, fat, disk, chain, link, |link|, offset, bytes)
    requires IsFree(fat, c) && (forall b :: IsFree(fat, b) ==> c <= b) && offset + |bytes| <= BLOCK * |link|
    requires |fat| == |fat0| && |link| > 0 && link[|link| - 1] < |fat| && c < at.Clusters(|disk|)
    ensures var fat', n := fat[c := END_OF_CHAIN][link[|link| - 1] := c], at.Clusters(|disk|);
      && Free(fat', n) == Free(fat, n) - {c} && c in Free(fat, n)
      && Linked(fat0, fat', chain, link + [c]) && Filled(at, disk0, disk, link + [c], offset, bytes)
  {
    assert Chain(fat, link);
    FreeIsOutside(fat, link, c);
    hide Grown, TakesLowest, Patched, SameElsewhere, SameBlocks, Chain;
    assert |disk| == |disk0|;
    LinkExtends(fat0, fat, chain, link, c, at.Clusters(|disk|));
    FilledExtends(at, disk0, disk, link, c, offset, bytes);
  }

  lemma ProgressJoins(at: Layout, fat0: seq<Entry>, disk0: seq<Block>, fat: seq<Entry>, disk: seq<Block>,
                      chain: seq<nat>, link: seq<nat>, m: nat, offset: nat, bytes: seq<Byte>)
    requires at.Fits(|fat0|, |disk0|) && Linked(fat0, fat, chain, link) && Filled(at, disk0, disk, link, offset, bytes)
    requires m <= |link| && (|link| > |chain| ==> m == |link|)
    ensures InProgress(at, fat0, disk0, fat, disk, chain, link, m, offset, bytes)
  {
  }

  lemma LinkedChain(at: Layout, fat0: seq<Entry>, disk0: seq<Block>, fat: seq<Entry>, disk: seq<Block>,
                    chain: seq<nat>, link: seq<nat>, m: nat, offset: nat, bytes: seq<Byte>)
    requires Linked(fat0, fat, chain, link) && m < |link| && at.Fits(|fat0|, |disk0|)
    requires Filled(at, disk0, disk, link, offset, bytes)
    ensures 0 < link[m] < |fat| == |fat0| && |disk| == |disk0| && at.DataStart() + link[m] < |disk|
  {
    hide Grown, Patched;
  }

  lemma LinkedClusters(fat0: seq<Entry>, fat: seq<Entry>, chain: seq<nat>, link: seq<nat>)
    requires Linked(fat0, fat, chain, link)
    ensures (forall i :: 0 <= i < |link| ==> link[i] > 0) && forall i, j :: 0 <= i < j < |link| ==> link[i] != link[j]
  {
    hide Grown, SameElsewhere;
    ChainAllDistinct(fat, link);
  }

  // The next bytes go into the cluster with index `m`.
  lemma ProgressWrites(at: Layout, fat0: seq<Entry>, disk0: seq<Block>, fat: seq<Entry>, disk: seq<Block>,
                       chain: seq<nat>, link: seq<nat>, m: nat, offset: nat, bytes: seq<Byte>, more: seq<Byte>,
                       from: nat, block: Block)
    requires at.tableBlocks > 0 && Linked(fat0, fat, chain, link) && Filled(at, disk0, disk, link, offset, bytes)
    requires m < |link| && from + |more| <= BLOCK && BLOCK * m + from == offset + |bytes|
    requires at.DataStart() + link[m] < |disk|
    requires var old_ := disk[at.DataStart() + link[m]]; block == old_[..from] + more + old_[from + |more|..]
    ensures Filled(at, disk0, disk[at.DataStart() + link[m] := block], link, offset, bytes + more)
  {
    hide Grown, TakesLowest, Patched, SameElsewhere, SameBlocks, Filled, Linked, Chain;
    LinkedClusters(fat0, fat, chain, link);
    FilledGrows(at, disk0, disk, link, m, offset, bytes, more, from, block);
  }

  // The clusters of the chain and the free ones on the disk are as many as at the start.
  ghost predicate Budgeted(limit: int, fat0: seq<Entry>, fat: seq<Entry>, chain: seq<nat>, link: seq<nat>) {
    && |link| + |Free(fat, limit)| == |chain| + |Free(fat0, limit)|
    && (EndsAtLastEntry(fat0, limit) ==> EndsAtLastEntry(fat, limit))
  }

  lemma BudgetKept(limit: int, fat0: seq<Entry>, fat: seq<Entry>, chain: seq<nat>, link: seq<nat>, c: nat)
    requires Budgeted(limit, fat0, fat, chain, link) && Chain(fat, link) && IsFree(fat, c) && c in Free(fat, limit)
    ensures |link| > 0 && link[|link| - 1] < |fat|
    ensures Budgeted(limit, fat0, fat[c := END_OF_CHAIN][link[|link| - 1] := c], chain, link + [c])
  {
    FreeIsCluster(fat, link, c);
    ChainNext(fat, link, |link| - 1);
    FreeShrinks(fat, link, c, limit);
    hide Free, Chain;
    var last := link[|link| - 1];
    var fat' := fat[c := END_OF_CHAIN][last := c];
    assert forall b :: 0 <= b < |fat| && fat'[b] == 0 ==> fat[b] == 0 && b != c;
  }

  // When the chain has to grow, there is a free cluster, or the search ends at the last entry.
  lemma FreeOrLast(limit: int, fat0: seq<Entry>, fat: seq<Entry>, chain: seq<nat>, link: seq<nat>, size: nat)
    requires Budgeted(limit, fat0, fat, chain, link) && ClustersFor(size) > |link|
    requires Enough(limit, fat0, chain, size) || EndsAtLastEntry(fat0, limit)
    ensures |Free(fat, limit)| > 0 || (EndsAtLastEntry(fat, limit) && !Enough(limit, fat0, chain, size))
  {
  }

  // The state of the write loop with `written` bytes done.
  ghost predicate Underway(at: Layout, fat0: seq<Entry>, disk0: seq<Block>, fat: seq<Entry>, disk: seq<Block>,
                           chain: seq<nat>, link: seq<nat>,
                           m: nat, offset: nat, data: seq<Byte>, written: nat, current: nat, next: int, inside: nat) {
    && written <= |data| && InProgress(at, fat0, disk0, fat, disk, chain, link, m, offset, data[..written])
    && m <= |link| && inside <= BLOCK
    && (written < |data| ==>
          && next == (if m < |link| then link[m] else END_OF_CHAIN)
          && BLOCK * m + inside == offset + written
          && (m == |link| ==> inside == 0 && m > 0 && current == link[m - 1]))
    && Budgeted(at.Clusters(|disk|), fat0, fat, chain, link)
    && (written == |data| ==> m == ClustersFor(offset + |data|) && m > 0 && current == link[m - 1])
  }

  lemma UnderwayStarts(at: Layout, fat: seq<Entry>, disk: seq<Block>, chain: seq<nat>, m: nat, offset: nat,
                       data: seq<Byte>, current: nat, inside: nat)
    requires at.Fits(|fat|, |disk|) && Chain(fat, chain) && OnDisk(at.DataStart(), chain, |disk|)
    requires |data| > 0 && offset <= BLOCK * |chain| && |chain| > 0
    requires m == (if offset == 0 then 0 else (offset - 1) / BLOCK) && inside == offset - BLOCK * m && m < |chain|
    requires current == chain[m]
    ensures Underway(at, fat, disk, fat, disk, chain, chain, m, offset, data, 0, current, current, inside)
  {
    hide Chain, InProgress, Free, ClustersFor;
    Starts(at, fat, disk, chain, m, offset);
    assert data[..0] == [];
  }

  lemma UnderwayParts(at: Layout, fat0: seq<Entry>, disk0: seq<Block>, fat: seq<Entry>, disk: seq<Block>,
                      chain: seq<nat>, link: seq<nat>,
                      m: nat, offset: nat, data: seq<Byte>, written: nat, current: nat, next: int, inside: nat)
    requires Underway(at, fat0, disk0, fat, disk, chain, link, m, offset, data, written, current, next, inside)
    requires written < |data|
    ensures InProgress(at, fat0, disk0, fat, disk, chain, link, m, offset, data[..written])
    ensures at.Fits(|fat0|, |disk0|) && |fat| == |fat0| && |disk| == |disk0| && m <= |link| && inside <= BLOCK
    ensures BLOCK * m + inside == offset + written
    ensures next == (if m < |link| then link[m] else END_OF_CHAIN)
    ensures m == |link| ==> inside == 0 && m > 0 && current == link[m - 1]
    ensures ClustersFor(offset + |data|) > m && Budgeted(at.Clusters(|disk|), fat0, fat, chain, link)
  {
    hide Chain, Linked, Free, Budgeted;
    ProgressParts(at, fat0, disk0, fat, disk, chain, link, m, offset, data[..written]);
    CountsLeft(m, inside, offset, written, |data|);
  }

  lemma UnderwayAgain(at: Layout, fat0: seq<Entry>, disk0: seq<Block>, fat: seq<Entry>, disk: seq<Block>,
                      chain: seq<nat>, link: seq<nat>,
                      m: nat, offset: nat, data: seq<Byte>, written: nat, inside: nat, size: nat, current: nat,
                      next: int)
    requires written < |data| && inside <= BLOCK
    requires size == (if BLOCK - inside > |data| - written then |data| - written else BLOCK - inside)
    requires InProgress(at, fat0, disk0, fat, disk, chain, link, m + 1, offset, data[..written + size])
    requires BLOCK * m + inside == offset + written && m < |link| && current == link[m] && current < |fat|
    requires next == fat[current]
    requires Budgeted(at.Clusters(|disk|), fat0, fat, chain, link)
    ensures Underway(at, fat0, disk0, fat, disk, chain, link, m + 1, offset, data, written + size, current, next, 0)
  {
    hide InProgress, Free, Budgeted;
    ProgressChain(at, fat0, disk0, fat, disk, chain, link, m + 1, offset, data[..written + size]);
    CountsLeft(m, inside, offset, written, |data|);
  }

  lemma UnderwayEnds(at: Layout, fat0: seq<Entry>, disk0: seq<Block>, fat: seq<Entry>, disk: seq<Block>,
                     chain: seq<nat>, link: seq<nat>,
                     m: nat, offset: nat, data: seq<Byte>, written: nat, current: nat, next: int, inside: nat)
    requires Underway(at, fat0, disk0, fat, disk, chain, link, m, offset, data, written, current, next, inside)
    requires written == |data|
    ensures InProgress(at, fat0, disk0, fat, disk, chain, link, m, offset, data) && at.Fits(|fat0|, |disk0|)
    ensures 0 < m <= |link| && m == ClustersFor(offset + |data|) && current == link[m - 1]
    ensures Enough(at.Clusters(|disk|), fat0, chain, offset + |data|)
  {
    assert data[..written] == data;
    hide Linked, Filled, ClustersFor, Free, EndsAtLastEntry;
  }

  // What is left when the search has come to the last entry.
  lemma StopsThere(at: Layout, fat0: seq<Entry>, disk0: seq<Block>, fat: seq<Entry>, disk: seq<Block>, chain: seq<nat>,
                   link: seq<nat>,
                   offset: nat, data: seq<Byte>, written: nat)
    requires written < |data| && BLOCK * |link| == offset + written && SameTable(at, disk0, disk)
    requires InProgress(at, fat0, disk0, fat, disk, chain, link, |link|, offset, data[..written])
    requires Budgeted(at.Clusters(|disk|), fat0, fat, chain, link)
    requires EndsAtLastEntry(fat, at.Clusters(|disk|)) && |Free(fat, at.Clusters(|disk|))| == 0
    ensures at.Fits(|fat0|, |disk0|)
    ensures Stopped(at, fat0, disk0, fat[LAST_ENTRY := END_OF_CHAIN], disk, chain, link, offset, data)
  {
    hide Free, Patched, TakesLowest, SameBlocks, SameTable, SameElsewhere, Chain, OnDisk;
    LastIsOutside(fat0, fat, link);
    assert data[..BLOCK * |link| - offset] == data[..written];
  }

  lemma LastIsOutside(fat0: seq<Entry>, fat: seq<Entry>, link: seq<nat>)
    requires Chain(fat, link) && |fat| > LAST_ENTRY && SameElsewhere(fat0, fat, link)
    ensures |fat0| == |fat| && Chain(fat[LAST_ENTRY := END_OF_CHAIN], link)
    ensures SameElsewhere(fat0, fat[LAST_ENTRY := END_OF_CHAIN], link + [LAST_ENTRY])
  {
    assert forall c :: c !in link + [LAST_ENTRY] ==> c !in link && c != LAST_ENTRY;
  }

  // A write can only be carried through when the disk has enough free clusters.
  lemma WrittenNeedsRoom(at: Layout, fat: seq<Entry>, disk: seq<Block>, fat': seq<Entry>, disk': seq<Block>,
                         chain: seq<nat>, chain': seq<nat>, offset: nat, data: seq<Byte>)
    requires at.Fits(|fat|, |disk|) && Written(at, fat, disk, fat', disk', chain, chain', offset, data)
    ensures Enough(at.Clusters(|disk|), fat, chain, offset + |data|)
  {
    hide Chain, SameElsewhere, SameBlocks, Saved, Patched, ClustersFor, TakesLowest, Free;
    if |chain'| > |chain| {
      var added := chain'[|chain|..];
      AddedAreFree(at, fat, added, |disk|) by {
        assert forall i :: 0 <= i < |added| ==> added[i] == chain'[|chain| + i];
      }
    }
  }

  lemma AddedAreFree(at: Layout, fat: seq<Entry>, added: seq<nat>, blocks: nat)
    requires at.tableBlocks > 0 && TakesLowest(fat, added) && OnDisk(at.DataStart(), added, blocks)
    ensures |added| <= |Free(fat, at.Clusters(blocks))|
  {
    var free := Free(fat, at.Clusters(blocks));
    var taken := set i | 0 <= i < |added| :: added[i] as int;
    AscendingCount(added);
    assert taken <= free;
    Subset(taken, free);
  }

  lemma {:induction false} AscendingCount(s: seq<nat>)
    requires forall i, j :: 0 <= i < j < |s| ==> s[i] < s[j]
    ensures |set i | 0 <= i < |s| :: s[i] as int| == |s|
  {
    if |s| > 0 {
      var n := |s| - 1;
      var front := set i | 0 <= i < n :: s[..n][i] as int;
      AscendingCount(s[..n]);
      assert (set i | 0 <= i < |s| :: s[i] as int) == front + {s[n] as int};
    }
  }

  lemma Subset(a: set<int>, b: set<int>)
    requires a <= b
    ensures |a| <= |b|
  {
    assert b == a + (b - a);
  }

  // How many clusters are needed, seen from the cluster where the next byte goes.
  lemma CountsLeft(m: nat, inside: nat, offset: nat, written: nat, length: nat)
    requires BLOCK * m + inside == offset + written && inside <= BLOCK && written < length
    ensures ClustersFor(offset + length) > m
    ensures length - written <= BLOCK - inside ==> ClustersFor(offset + length) == m + 1
  {
  }

  lemma WrittenChain(at: Layout, fat: seq<Entry>, disk: seq<Block>, fat': seq<Entry>, disk': seq<Block>,
                     chain: seq<nat>, chain': seq<nat>, offset: nat, data: seq<Byte>)
    requires at.Fits(|fat|, |disk|) && Written(at, fat, disk, fat', disk', chain, chain', offset, data)
    requires Chain(fat, chain)
    ensures Chain(fat', chain') && |chain'| > 0 && chain'[0] == chain[0]
  {
    hide SameBlocks, Saved, SameElsewhere, TakesLowest, Patched;
  }

  lemma ByteOfBlock(m: nat, r: nat)
    requires r < BLOCK
    ensures (BLOCK * m + r) / BLOCK == m && (BLOCK * m + r) % BLOCK == r
  {
  }

  // A part of a block, as a part of the stream.
  lemma StreamPart(disk: seq<Block>, start: nat, chain: seq<nat>, m: nat, inside: nat, size: nat)
    requires OnDisk(start, chain, |disk|) && m < |chain| && inside + size <= BLOCK
    ensures BLOCK * m + inside + size <= BLOCK * |chain|
    ensures Stream(disk, start, chain)[BLOCK * m + inside..BLOCK * m + inside + size]
         == disk[start + chain[m]][inside..inside + size]
  {
    assert BLOCK * (m + 1) <= BLOCK * |chain|;
    var a, b := Stream(disk, start, chain)[BLOCK * m + inside..BLOCK * m + inside + size], disk[start + chain[m]][inside..inside + size];
    forall i | 0 <= i < size
      ensures a[i] == b[i]
    {
      ByteOfBlock(m, inside + i);
      assert BLOCK * m + inside + i == BLOCK * m + (inside + i);
    }
  }

  lemma WindowSplits(s: seq<Byte>, from: nat, done: nat, size: nat)
    requires from + done + size <= |s|
    ensures Window(s, from, done + size) == Window(s, from, done) + s[from + done..from + done + size]
  {
  }

  // Behind the end of the stream there is nothing more.
  lemma WindowEnds(s: seq<Byte>, from: nat, done: nat, want: nat)
    requires |s| <= from + done && done <= want
    ensures Window(s, from, want) == Window(s, from, done)
  {
  }

  // The cluster with an index of the chain, or what the table has at its end.
  function ClusterAt(chain: seq<nat>, m: nat): int {
    if m < |chain| then chain[m] else END_OF_CHAIN
  }

  // The state of the read loop: the front of the buffer holds the front of the window.
  ghost predicate Reading(stream: seq<Byte>, chain: seq<nat>, start: nat, want: nat, before: seq<Byte>, now: seq<Byte>,
                          left: nat, cluster: int, m: nat, inside: nat) {
    && left <= want <= |before| && m <= |chain| && cluster == ClusterAt(chain, m) && |stream| == BLOCK * |chain|
    && (left > 0 && m < |chain| ==> BLOCK * m + inside == start + (want - left) && inside < BLOCK)
    && (left > 0 && m == |chain| ==> start + (want - left) >= |stream|)
    && |Window(stream, start, want - left)| == want - left
    && now == Window(stream, start, want - left) + before[want - left..]
  }

  lemma ReadingStarts(stream: seq<Byte>, chain: seq<nat>, start: nat, want: nat, before: seq<Byte>, cluster: int,
                      m: nat)
    requires |stream| == BLOCK * |chain| && want <= |before| && cluster == ClusterAt(chain, m)
    requires m == if start / BLOCK <= |chain| then start / BLOCK else |chain|
    ensures Reading(stream, chain, start, want, before, before, want, cluster, m, start % BLOCK)
  {
    assert before == [] + before[0..];
  }

  lemma ReadingAgain(stream: seq<Byte>, chain: seq<nat>, start: nat, want: nat, before: seq<Byte>, now: seq<Byte>,
                     left: nat, cluster: int, m: nat, inside: nat, size: nat, part: seq<Byte>, now': seq<Byte>,
                     next: int)
    requires Reading(stream, chain, start, want, before, now, left, cluster, m, inside) && left > 0 && m < |chain|
    requires size == (if left > BLOCK - inside then BLOCK - inside else left) && next == ClusterAt(chain, m + 1)
    requires |part| == size && BLOCK * m + inside + size <= |stream|
    requires part == stream[BLOCK * m + inside..BLOCK * m + inside + size]
    requires now' == now[..want - left] + part + now[want - left + size..]
    ensures Reading(stream, chain, start, want, before, now', left - size, next, m + 1, 0)
  {
    hide Window;
    WindowSplits(stream, start, want - left, size);
    assert now[want - left + size..] == before[want - left + size..];
    assert now[..want - left] == Window(stream, start, want - left);
  }

  lemma ReadingEnds(stream: seq<Byte>, chain: seq<nat>, start: nat, want: nat, before: seq<Byte>, now: seq<Byte>,
                    left: nat, cluster: int, m: nat, inside: nat)
    requires Reading(stream, chain, start, want, before, now, left, cluster, m, inside) && (left == 0 || m == |chain|)
    ensures var got := Window(stream, start, want);
      (left == 0 <==> |got| == want) && now == got + before[|got|..]
  {
    if left > 0 {
      WindowEnds(stream, start, want - left, want);
    }
  }

  // The loop is at the end of the chain exactly when it reads the mark.
  lemma ReadingAt(fat: seq<Entry>, stream: seq<Byte>, chain: seq<nat>, start: nat, want: nat, before: seq<Byte>,
                  now: seq<Byte>,
                  left: nat, cluster: int, m: nat, inside: nat)
    requires Chain(fat, chain) && Reading(stream, chain, start, want, before, now, left, cluster, m, inside)
    ensures left <= want && cluster >= 0 && (cluster == END_OF_CHAIN <==> m == |chain|) && m <= |chain|
  {
    hide Window;
  }

  lemma ReadingHere(stream: seq<Byte>, chain: seq<nat>, start: nat, want: nat, before: seq<Byte>, now: seq<Byte>,
                    left: nat, cluster: int, m: nat, inside: nat)
    requires Reading(stream, chain, start, want, before, now, left, cluster, m, inside) && left > 0 && m < |chain|
    ensures inside < BLOCK && BLOCK * m + inside == start + (want - left) && cluster == chain[m] && |now| == |before|
    ensures left <= want <= |before|
  {
    hide Window;
  }
}
