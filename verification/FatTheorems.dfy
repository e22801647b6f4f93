/**
 * What writes guarantee: the stream of the written file, the other files, and the free
 * clusters, for one write and for runs of writes to any files.
 */
module FatTheorems {
  import opened Words
  import opened FatSpec
  import opened FatSteps

  // ----- the stream of the written file -----

  lemma BlockOf(q: nat, n: nat)
    requires q < BLOCK * n
    ensures q / BLOCK < n && q == BLOCK * (q / BLOCK) + q % BLOCK
  {
  }

  // A byte of the stream after a write: new inside the written range, old elsewhere.
  lemma StreamByteWritten(at: Layout, disk: seq<Block>, disk': seq<Block>, chain': seq<nat>, offset: nat,
                          data: seq<Byte>, q: nat)
    requires at.tableBlocks > 0 && OnDisk(at.DataStart(), chain', |disk|) && |disk'| == |disk| && q < BLOCK * |chain'|
    requires forall i :: 0 <= i < |chain'| ==>
      disk'[at.DataStart() + chain'[i]] == Patched(disk[at.DataStart() + chain'[i]], i, offset, data)
    ensures Stream(disk', at.DataStart(), chain')[q]
         == if offset <= q < offset + |data| then data[q - offset] else Stream(disk, at.DataStart(), chain')[q]
  {
    BlockOf(q, |chain'|);
  }

  // The stream of the new chain is what was there with the data spliced in.
  lemma WriteSplices(at: Layout, fat: seq<Entry>, disk: seq<Block>, fat': seq<Entry>, disk': seq<Block>,
                     chain: seq<nat>, chain': seq<nat>, offset: nat, data: seq<Byte>)
    requires at.Fits(|fat|, |disk|) && Written(at, fat, disk, fat', disk', chain, chain', offset, data)
    ensures OnDisk(at.DataStart(), chain', |disk|) && offset + |data| <= BLOCK * |chain'|
    ensures var old_ := Stream(disk, at.DataStart(), chain');
      Stream(disk', at.DataStart(), chain') == old_[..offset] + data + old_[offset + |data|..]
  {
    hide Stream, Written, Patched, OnDisk;
    WrittenParts(at, fat, disk, fat', disk', chain, chain', offset, data);
    var s, old_ := Stream(disk', at.DataStart(), chain'), Stream(disk, at.DataStart(), chain');
    forall q | 0 <= q < |s|
      ensures s[q] == if offset <= q < offset + |data| then data[q - offset] else old_[q]
    {
      StreamByteWritten(at, disk, disk', chain', offset, data, q);
    }
    SplicedBytes(s, old_, offset, data);
  }

  lemma SplicedBytes(s: seq<Byte>, old_: seq<Byte>, offset: nat, data: seq<Byte>)
    requires |s| == |old_| && offset + |data| <= |s|
    requires forall q :: 0 <= q < |s| ==> s[q] == if offset <= q < offset + |data| then data[q - offset] else old_[q]
    ensures s == old_[..offset] + data + old_[offset + |data|..]
  {
  }

  lemma ClustersHold(size: nat)
    ensures size <= BLOCK * ClustersFor(size)
  {
  }

  lemma WrittenParts(at: Layout, fat: seq<Entry>, disk: seq<Block>, fat': seq<Entry>, disk': seq<Block>,
                     chain: seq<nat>, chain': seq<nat>, offset: nat, data: seq<Byte>)
    requires at.Fits(|fat|, |disk|) && Written(at, fat, disk, fat', disk', chain, chain', offset, data)
    ensures OnDisk(at.DataStart(), chain', |disk|) && |disk'| == |disk| && |fat'| == |fat|
    ensures |chain'| == ClustersFor(offset + |data|) && offset + |data| <= BLOCK * |chain'|
    ensures forall i :: 0 <= i < |chain'| ==>
      disk'[at.DataStart() + chain'[i]] == Patched(disk[at.DataStart() + chain'[i]], i, offset, data)
  {
    hide Chain, Saved, SameBlocks, Patched, ClustersFor, TakesLowest;
    ClustersHold(offset + |data|);
  }

  // Chains that agree in front have streams that agree in front.
  lemma StreamPrefix(disk: seq<Block>, start: nat, chain: seq<nat>, chain': seq<nat>, n: nat)
    requires OnDisk(start, chain, |disk|) && OnDisk(start, chain', |disk|)
    requires n <= BLOCK * |chain| && n <= BLOCK * |chain'|
    requires forall i :: 0 <= i < |chain| && i < |chain'| ==> chain[i] == chain'[i]
    ensures Stream(disk, start, chain)[..n] == Stream(disk, start, chain')[..n]
  {
    forall q | 0 <= q < n
      ensures Stream(disk, start, chain)[q] == Stream(disk, start, chain')[q]
    {
      BlockOf(q, |chain|);
      BlockOf(q, |chain'|);
    }
  }

  // After a write, the file starts with its old bytes up to `offset`, followed by the data.
  lemma WriteThenRead(at: Layout, fat: seq<Entry>, disk: seq<Block>, fat': seq<Entry>, disk': seq<Block>,
                      chain: seq<nat>, chain': seq<nat>, offset: nat, data: seq<Byte>, from: nat, n: nat)
    requires at.Fits(|fat|, |disk|) && OnDisk(at.DataStart(), chain, |disk|) && offset <= BLOCK * |chain|
    requires Written(at, fat, disk, fat', disk', chain, chain', offset, data)
    requires from + n <= offset + |data|
    ensures OnDisk(at.DataStart(), chain', |disk'|)
    ensures var file := Stream(disk, at.DataStart(), chain)[..offset] + data;
      Window(Stream(disk', at.DataStart(), chain'), from, n) == file[from..from + n]
  {
    WriteSplices(at, fat, disk, fat', disk', chain, chain', offset, data);
    assert forall i :: 0 <= i < |chain| && i < |chain'| ==>
      chain[i] == chain'[i] by { ResizedPrefix(fat, chain, chain', ClustersFor(offset + |data|)); }
    hide Stream, Chain, Written, OnDisk;
    StreamPrefix(disk, at.DataStart(), chain, chain', offset);
    SplicedWindow(Stream(disk, at.DataStart(), chain), Stream(disk, at.DataStart(), chain'),
                  Stream(disk', at.DataStart(), chain'), offset, data, from, n);
  }

  lemma ResizedPrefix(fat: seq<Entry>, chain: seq<nat>, chain': seq<nat>, count: nat)
    requires Resized(fat, chain, chain', count)
    ensures forall i :: 0 <= i < |chain| && i < |chain'| ==> chain[i] == chain'[i]
  {
    hide TakesLowest;
  }

  lemma SplicedWindow(old_: seq<Byte>, was: seq<Byte>, now: seq<Byte>, offset: nat, data: seq<Byte>, from: nat, n: nat)
    requires offset <= |old_| && offset + |data| <= |was| && old_[..offset] == was[..offset]
    requires now == was[..offset] + data + was[offset + |data|..] && from + n <= offset + |data|
    ensures Window(now, from, n) == (old_[..offset] + data)[from..from + n]
  {
    assert now[..offset + |data|] == old_[..offset] + data;
    if from < |now| {
      assert now[from..from + n] == now[..offset + |data|][from..from + n];
    } else {
      assert n == 0;
    }
  }

  // ----- other files -----

  predicate Disjoint(a: seq<nat>, b: seq<nat>) {
    forall c :: c in a ==> c !in b
  }

  // A chain of another file, disjoint from the written one, is linked as before and has the
  // same bytes, and is disjoint from the new chain.
  lemma OtherFileKept(at: Layout, fat: seq<Entry>, disk: seq<Block>, fat': seq<Entry>, disk': seq<Block>,
                      chain: seq<nat>, chain': seq<nat>, offset: nat, data: seq<Byte>, other: seq<nat>)
    requires at.Fits(|fat|, |disk|) && Chain(fat, other) && OnDisk(at.DataStart(), other, |disk|)
    requires Disjoint(other, chain)
    requires Written(at, fat, disk, fat', disk', chain, chain', offset, data)
    ensures Disjoint(other, chain') && Chain(fat', other) && |disk'| == |disk|
    ensures Stream(disk', at.DataStart(), other) == Stream(disk, at.DataStart(), other)
  {
    ResizedDisjoint(fat, chain, chain', ClustersFor(offset + |data|), other);
    assert Chain(fat', other) by { ChainKept(fat, fat', other, chain'); }
    hide Written, Resized, Disjoint;
    assert SameBlocks(at, disk, disk', chain') by { WrittenBlocks(at, fat, disk, fat', disk', chain, chain', offset, data); }
    BlocksKept(at, fat, disk, disk', chain', other);
  }

  // The same when the write gave up.
  lemma OtherFileKeptStopped(at: Layout, fat: seq<Entry>, disk: seq<Block>, fat': seq<Entry>, disk': seq<Block>,
                             chain: seq<nat>, chain': seq<nat>, offset: nat, data: seq<Byte>, other: seq<nat>)
    requires at.Fits(|fat|, |disk|) && Chain(fat, other) && OnDisk(at.DataStart(), other, |disk|)
    requires Disjoint(other, chain)
    requires Stopped(at, fat, disk, fat', disk', chain, chain', offset, data)
    ensures Disjoint(other, chain') && Chain(fat', other) && |disk'| == |disk|
    ensures Stream(disk', at.DataStart(), other) == Stream(disk, at.DataStart(), other)
  {
    var n := StoppedParts(at, fat, disk, fat', disk', chain, chain', offset, data);
    hide Stopped, SameBlocks, OnDisk, Stream;
    ResizedDisjoint(fat, chain, chain', n, other);
    assert Disjoint(other, chain' + [LAST_ENTRY]) by {
      hide SameElsewhere, Resized;
      forall c | c in other ensures c !in chain' + [LAST_ENTRY] { assert c != LAST_ENTRY; }
    }
    hide Disjoint, Resized;
    ChainKept(fat, fat', other, chain' + [LAST_ENTRY]);
    hide Chain;
    BlocksKept(at, fat, disk, disk', chain', other);
  }

  lemma StoppedParts(at: Layout, fat: seq<Entry>, disk: seq<Block>, fat': seq<Entry>, disk': seq<Block>,
                     chain: seq<nat>, chain': seq<nat>, offset: nat, data: seq<Byte>) returns (n: nat)
    requires at.Fits(|fat|, |disk|) && Stopped(at, fat, disk, fat', disk', chain, chain', offset, data)
    ensures Resized(fat, chain, chain', n) && Chain(fat', chain') && SameElsewhere(fat, fat', chain' + [LAST_ENTRY])
    ensures |disk'| == |disk| && OnDisk(at.DataStart(), chain', |disk|) && SameBlocks(at, disk, disk', chain')
  {
    hide Chain, SameElsewhere, SameBlocks, SameTable, OnDisk, Patched, Free;
    n := |chain'|;
    if n == |chain| {
      assert chain' == chain[..n];
    }
  }

  lemma WrittenBlocks(at: Layout, fat: seq<Entry>, disk: seq<Block>, fat': seq<Entry>, disk': seq<Block>,
                      chain: seq<nat>, chain': seq<nat>, offset: nat, data: seq<Byte>)
    requires at.Fits(|fat|, |disk|) && Written(at, fat, disk, fat', disk', chain, chain', offset, data)
    ensures SameBlocks(at, disk, disk', chain')
  {
  }

  lemma ResizedDisjoint(fat: seq<Entry>, chain: seq<nat>, chain': seq<nat>, count: nat, other: seq<nat>)
    requires Resized(fat, chain, chain', count) && Chain(fat, other) && Disjoint(other, chain)
    ensures Disjoint(other, chain')
  {
    forall c | c in chain'
      ensures c !in other
    {
      if c !in chain {
        assert count > |chain|;
        var added := chain'[|chain|..];
        assert c in added;
        FreeIsOutside(fat, other, c);
      }
    }
  }

  lemma ChainKept(fat: seq<Entry>, fat': seq<Entry>, other: seq<nat>, chain': seq<nat>)
    requires Chain(fat, other) && Disjoint(other, chain') && SameElsewhere(fat, fat', chain')
    ensures Chain(fat', other)
  {
    forall i | 0 <= i < |other|
      ensures 0 < other[i] < |fat'| && other[i] < LAST_CLUSTER && fat'[other[i]] == After(other, i)
    {
      assert other[i] in other;
      ChainNext(fat, other, i);
    }
  }

  lemma BlocksKept(at: Layout, fat: seq<Entry>, disk: seq<Block>, disk': seq<Block>, chain': seq<nat>, other: seq<nat>)
    requires at.Fits(|fat|, |disk|) && Chain(fat, other) && OnDisk(at.DataStart(), other, |disk|)
    requires Disjoint(other, chain') && SameBlocks(at, disk, disk', chain')
    ensures Stream(disk', at.DataStart(), other) == Stream(disk, at.DataStart(), other)
  {
    forall i | 0 <= i < |other|
      ensures disk'[at.DataStart() + other[i]] == disk[at.DataStart() + other[i]]
    {
      ChainNext(fat, other, i);
      assert other[i] in other && at.DataStart() + other[i] - at.DataStart() !in chain';
    }
    hide Chain, SameBlocks, Disjoint;
    forall q | 0 <= q < BLOCK * |other|
      ensures StreamByte(disk', at.DataStart(), other, q) == StreamByte(disk, at.DataStart(), other, q)
    {
      BlockOf(q, |other|);
    }
  }

  // ----- free clusters -----

  // The free clusters lose exactly those the chain gained; those cut off are not given back.
  lemma FreeAfterWrite(at: Layout, fat: seq<Entry>, disk: seq<Block>, fat': seq<Entry>, disk': seq<Block>,
                       chain: seq<nat>, chain': seq<nat>, offset: nat, data: seq<Byte>)
    requires at.Fits(|fat|, |disk|) && Chain(fat, chain)
    requires Written(at, fat, disk, fat', disk', chain, chain', offset, data)
    ensures forall c :: IsFree(fat', c) <==> IsFree(fat, c) && c !in chain'
    ensures forall c :: c in chain' && c !in chain ==> IsFree(fat, c)
  {
    forall c
      ensures IsFree(fat', c) <==> IsFree(fat, c) && c !in chain'
    {
      if c in chain' && IsFree(fat', c) {
        FreeIsOutside(fat', chain', c);
      }
    }
    forall c | c in chain' && c !in chain
      ensures IsFree(fat, c)
    {
      assert |chain'| > |chain| && c in chain'[|chain|..];
    }
  }

  // ----- runs of writes -----

  // A volume and the chains of its files.
  datatype Volume = Volume(fat: seq<Entry>, disk: seq<Block>, files: seq<seq<nat>>)

  // Every file has a chain, and no two files share a cluster.
  ghost predicate Consistent(at: Layout, v: Volume) {
    && at.Fits(|v.fat|, |v.disk|)
    && (forall f :: 0 <= f < |v.files| ==> Chain(v.fat, v.files[f]) && OnDisk(at.DataStart(), v.files[f], |v.disk|))
    && (forall f, g :: 0 <= f < |v.files| && 0 <= g < |v.files| && f != g ==> Disjoint(v.files[f], v.files[g]))
  }

  datatype Request = Request(file: nat, offset: nat, data: seq<Byte>)

  // The write of a request, as the driver does it: in full, or up to where it gives up.
  ghost predicate Serves(at: Layout, v: Volume, r: Request, v': Volume) {
    && at.Fits(|v.fat|, |v.disk|) && r.file < |v.files| && |v'.files| == |v.files| && |r.data| > 0
    && r.offset <= BLOCK * |v.files[r.file]|
    && (Written(at, v.fat, v.disk, v'.fat, v'.disk, v.files[r.file], v'.files[r.file], r.offset, r.data)
        || Stopped(at, v.fat, v.disk, v'.fat, v'.disk, v.files[r.file], v'.files[r.file], r.offset, r.data))
    && forall g :: 0 <= g < |v.files| && g != r.file ==> v'.files[g] == v.files[g]
  }

  lemma WriteKeepsConsistent(at: Layout, v: Volume, r: Request, v': Volume)
    requires Consistent(at, v) && Serves(at, v, r, v')
    ensures Consistent(at, v') && |v'.disk| == |v.disk|
    ensures forall g :: 0 <= g < |v.files| && g != r.file ==>
      && OnDisk(at.DataStart(), v.files[g], |v.disk|) && |v'.disk| == |v.disk|
      && Stream(v'.disk, at.DataStart(), v.files[g]) == Stream(v.disk, at.DataStart(), v.files[g])
  {
    var f := r.file;
    ServedParts(at, v, r, v');
    hide Written, Stopped, Chain, Stream, OnDisk;
    forall g | 0 <= g < |v.files| && g != f
      ensures Chain(v'.fat, v'.files[g]) && Disjoint(v'.files[g], v'.files[f])
      ensures OnDisk(at.DataStart(), v.files[g], |v.disk|)
      ensures Stream(v'.disk, at.DataStart(), v.files[g]) == Stream(v.disk, at.DataStart(), v.files[g])
    {
      if Written(at, v.fat, v.disk, v'.fat, v'.disk, v.files[f], v'.files[f], r.offset, r.data) {
        OtherFileKept(at, v.fat, v.disk, v'.fat, v'.disk, v.files[f], v'.files[f], r.offset, r.data, v.files[g]);
      } else {
        OtherFileKeptStopped(at, v.fat, v.disk, v'.fat, v'.disk, v.files[f], v'.files[f], r.offset, r.data, v.files[g]);
      }
    }
  }

  lemma ServedParts(at: Layout, v: Volume, r: Request, v': Volume)
    requires Serves(at, v, r, v')
    ensures |v'.fat| == |v.fat| && |v'.disk| == |v.disk|
    ensures Chain(v'.fat, v'.files[r.file]) && OnDisk(at.DataStart(), v'.files[r.file], |v.disk|)
  {
    hide Chain, Resized, Saved, SameBlocks, SameTable, Patched, OnDisk, Free, TakesLowest;
  }

  ghost predicate Run(at: Layout, vs: seq<Volume>, rs: seq<Request>) {
    |vs| == |rs| + 1 && forall i :: 0 <= i < |rs| ==> Serves(at, vs[i], rs[i], vs[i + 1])
  }

  // After every run of writes, the chains are acyclic, ended and pairwise disjoint, and a
  // file that was not written has the same clusters and the same bytes.
  lemma {:induction false} RunKeepsFiles(at: Layout, vs: seq<Volume>, rs: seq<Request>, n: nat)
    requires Run(at, vs, rs) && Consistent(at, vs[0]) && n <= |rs|
    ensures Consistent(at, vs[n]) && |vs[n].files| == |vs[0].files| && |vs[n].disk| == |vs[0].disk|
    ensures forall g :: 0 <= g < |vs[0].files| && (forall i :: 0 <= i < n ==> rs[i].file != g) ==>
      && vs[n].files[g] == vs[0].files[g] && OnDisk(at.DataStart(), vs[0].files[g], |vs[0].disk|)
      && Stream(vs[n].disk, at.DataStart(), vs[0].files[g]) == Stream(vs[0].disk, at.DataStart(), vs[0].files[g])
  {
    hide Written, Stopped, Chain, Stream, OnDisk;
    if n == 0 {
    } else {
      RunKeepsFiles(at, vs, rs, n - 1);
      assert Serves(at, vs[n - 1], rs[n - 1], vs[n - 1 + 1]);
      WriteKeepsConsistent(at, vs[n - 1], rs[n - 1], vs[n]);
      hide Consistent;
    }
  }

  // ----- mounting -----

  // After a write that was carried through, mounting the disk gives the table in memory, so
  // every file is there with its clusters and its bytes.
  lemma MountAfterWrite(at: Layout, v: Volume, r: Request, v': Volume)
    requires Consistent(at, v) && Serves(at, v, r, v')
    requires Written(at, v.fat, v.disk, v'.fat, v'.disk, v.files[r.file], v'.files[r.file], r.offset, r.data)
    ensures at.Fits(|v'.fat|, |v'.disk|) && Mounted(at, v'.disk) == v'.fat
    ensures Consistent(at, Volume(Mounted(at, v'.disk), v'.disk, v'.files))
  {
    WriteKeepsConsistent(at, v, r, v');
    hide Serves, Consistent, Chain, SameBlocks, SameElsewhere, Resized, Patched;
    assert at.Fits(|v'.fat|, |v'.disk|) by { ConsistentFits(at, v'); }
    SavedIsMounted(at, v'.fat, v'.disk);
    assert v' == Volume(v'.fat, v'.disk, v'.files);
  }

  lemma ConsistentFits(at: Layout, v: Volume)
    requires Consistent(at, v)
    ensures at.Fits(|v.fat|, |v.disk|)
  {
  }

  // After a write that gave up, mounting the disk gives the table from before the write: no
  // file has grown, and the written one has the new bytes in the clusters it had.
  lemma MountAfterStop(at: Layout, v: Volume, r: Request, v': Volume)
    requires Consistent(at, v) && Serves(at, v, r, v') && Saved(at, v.fat, v.disk)
    requires Stopped(at, v.fat, v.disk, v'.fat, v'.disk, v.files[r.file], v'.files[r.file], r.offset, r.data)
    ensures at.Fits(|v.fat|, |v'.disk|) && Mounted(at, v'.disk) == v.fat
    ensures Consistent(at, Volume(Mounted(at, v'.disk), v'.disk, v.files))
  {
    assert |v'.disk| == |v.disk| && SameTable(at, v.disk, v'.disk) && at.Fits(|v.fat|, |v.disk|) by {
      hide Chain, SameBlocks, SameElsewhere, Patched, SameTable;
    }
    hide Serves, Stopped, Chain;
    SavedStays(at, v.fat, v.disk, v'.disk);
    SavedIsMounted(at, v.fat, v'.disk);
  }

  lemma SavedStays(at: Layout, fat: seq<Entry>, disk: seq<Block>, disk': seq<Block>)
    requires at.Fits(|fat|, |disk|) && Saved(at, fat, disk) && SameTable(at, disk, disk')
    ensures |disk'| == |disk| && Saved(at, fat, disk')
  {
    hide TableBlock;
    forall i | 0 <= i < at.tableBlocks
      ensures disk'[at.tableStart + i] == TableBlock(fat, i)
    {
      assert at.InTable(at.tableStart + i);
    }
  }
}
