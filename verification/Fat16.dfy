/** The FAT16 driver: the table in memory, and reading and writing file data by cluster. */
module Fat16 {
  import opened Words
  import opened FatSpec
  import opened FatSteps

  class Volume {
    const at: Layout
    const fat: array<Entry>
    const disk: array<Block>

    ghost predicate Valid() {
      at.Fits(fat.Length, disk.Length)
    }

    constructor (layout: Layout, table: array<Entry>, device: array<Block>)
      requires layout.Fits(table.Length, device.Length)
      ensures Valid() && at == layout && fat == table && disk == device
    {
      at, fat, disk := layout, table, device;
    }

    // ----- the disk -----

    method WriteBlock(data: Block, b: nat)
      requires b < disk.Length
      modifies disk
      ensures disk[..] == old(disk[..])[b := data]
    {
      disk[b] := data;
    }

    // Read the block, change a part of it, and write it back.
    method WriteBlockOffset(data: seq<Byte>, size: nat, offset: nat, b: nat)
      requires b < disk.Length && size <= |data| && offset + size <= BLOCK
      modifies disk
      ensures disk[..] == old(disk[..])[b := old(disk[b])[..offset] + data[..size] + old(disk[b])[offset + size..]]
    {
      var buf := disk[b];
      buf := buf[..offset] + data[..size] + buf[offset + size..];
      WriteBlock(buf, b);
    }

    // Read the block, and copy a part of it to the buffer from `pos` on.
    method ReadBlockOffset(buffer: array<Byte>, pos: nat, size: nat, offset: nat, b: nat) returns (result: int)
      requires b < disk.Length && offset + size <= BLOCK && pos + size <= buffer.Length
      modifies buffer
      ensures result == size
      ensures buffer[..] == old(buffer[..pos]) + disk[b][offset..offset + size] + old(buffer[pos + size..])
    {
      var buf := disk[b];
      forall i | 0 <= i < size {
        buffer[pos + i] := buf[offset + i];
      }
      result := size;
    }

    // ----- the table -----

    method GetFatEntry(cluster: nat) returns (e: Entry)
      requires cluster < fat.Length
      ensures e == fat[cluster]
    {
      e := fat[cluster];
    }

    method SetFatEntry(cluster: nat, value: int)
      requires cluster < fat.Length
      modifies fat
      ensures fat[..] == old(fat[..])[cluster := value % 65536]
    {
      fat[cluster] := value % 65536;
    }

    // The lowest cluster with the entry 0, which is marked as the end of a chain. The search
    // goes up to 65535, so the table must have that many entries or one that is 0. On a full
    // table the result is -1 as an unsigned number.
    method GetFreeCluster() returns (c: nat)
      requires fat.Length >= 65536 || exists c :: IsFree(fat[..], c)
      modifies fat
      ensures Full(old(fat[..])) ==> c == NO_CLUSTER && fat[..] == old(fat[..])
      ensures !Full(old(fat[..])) ==> LowestZero(old(fat[..]), c) && fat[..] == old(fat[..])[c := END_OF_CHAIN]
      ensures forall b :: 5 <= b < 65536 && b < fat.Length && old(fat[b]) == 0 ==>
        5 <= c <= b && old(fat[c]) == 0 && fat[c] == 0xFFFF
      ensures (forall b :: 5 <= b < 65536 && b < fat.Length ==> old(fat[b]) != 0) ==> c == 0xFFFF_FFFF
    {
      ghost var table := fat[..];
      c := FIRST_FREE;
      while c < 65536
        invariant FIRST_FREE <= c <= 65536 && fat[..] == table && c <= |table|
        invariant forall b :: FIRST_FREE <= b < c ==> table[b] != 0
      {
        StaysInTable(table, c);
        var e := GetFatEntry(c);
        if e == 0 {
          SetFatEntry(c, END_OF_CHAIN);
          return;
        }
        c := c + 1;
      }
      c := NO_CLUSTER;
    }

    // Save the table.
    method SyncFatTable()
      requires Valid()
      modifies disk
      ensures Saved(at, fat[..], disk[..])
      ensures forall b :: 0 <= b < disk.Length && !at.InTable(b) ==> disk[b] == old(disk[b])
    {
      ghost var table := fat[..];
      var i := 0;
      while i < at.tableBlocks
        invariant 0 <= i <= at.tableBlocks
        invariant forall j :: 0 <= j < i ==> disk[at.tableStart + j] == TableBlock(table, j)
        invariant forall b :: 0 <= b < disk.Length && !at.InTable(b) ==> disk[b] == old(disk[b])
      {
        var block := TableBlock(fat[..], i);
        WriteBlock(block, at.tableStart + i);
        i := i + 1;
      }
    }

    // Read the table from the disk, as when it is mounted.
    method LoadFatTable()
      requires Valid()
      modifies fat
      ensures fat[..] == Mounted(at, disk[..])
    {
      ghost var table := Mounted(at, disk[..]);
      var i := 0;
      while i < at.tableBlocks
        invariant 0 <= i <= at.tableBlocks
        invariant forall c :: 0 <= c < 256 * i ==> fat[c] == table[c]
      {
        var block := disk[at.tableStart + i];
        EntriesOfBlock(at, disk[..], i);
        forall r | 0 <= r < 256 {
          fat[256 * i + r] := block[2 * r] as int + 256 * block[2 * r + 1] as int;
        }
        i := i + 1;
      }
    }

    // The block of a cluster; cluster 0 stands for the root directory.
    function ClusterBlock(cluster: nat): (b: nat)
      requires at.tableBlocks > 0
      ensures b == at.tableStart + at.tableBlocks + if cluster == 0 then 0 else cluster - 1
    {
      if cluster == 0 then at.DataStart() + 1 else at.DataStart() + cluster
    }

    // ----- writing -----

    // The cluster in which `offset` falls, and the offset inside; the end of a cluster counts
    // as its offset 512.
    method FindClusterByOffset(first: nat, offset: nat, ghost chain: seq<nat>) returns (cluster: nat, inside: nat)
      requires Chain(fat[..], chain) && |chain| > 0 && chain[0] == first && offset <= BLOCK * |chain|
      ensures var i := if offset == 0 then 0 else (offset - 1) / BLOCK;
        i < |chain| && cluster == chain[i] && inside == offset - BLOCK * i
    {
      hide Chain;
      cluster := first;
      var traversed := 0;
      ghost var i := 0;
      while cluster < LAST_CLUSTER && cluster != END_OF_CHAIN && traversed + BLOCK < offset
        invariant i < |chain| && cluster == chain[i] && traversed == BLOCK * i && (i == 0 || traversed < offset)
        decreases offset - traversed
      {
        ChainNext(fat[..], chain, i);
        cluster := GetFatEntry(cluster);
        traversed := traversed + BLOCK;
        i := i + 1;
      }
      ChainNext(fat[..], chain, i);
      inside := offset - traversed;
    }

    method WriteDataToCluster(cluster: nat, offset: nat, data: seq<Byte>, length: nat) returns (result: int)
      requires at.tableBlocks > 0 && ClusterBlock(cluster) < disk.Length && length <= |data| && offset + length <= BLOCK
      modifies disk
      ensures result == 0
      ensures var b := ClusterBlock(cluster);
        disk[..] == old(disk[..])[b := old(disk[b])[..offset] + data[..length] + old(disk[b])[offset + length..]]
    {
      var block := ClusterBlock(cluster);
      WriteBlockOffset(data, length, offset, block);
      result := 0;
    }

    // Link a free cluster behind the last one of a chain. The entry 65535 is refused, after
    // the search has marked it; every other number is linked, as is the result on a full table.
    method LinkFreeCluster(current: nat) returns (ok: bool, cluster: nat)
      requires current < fat.Length && (fat.Length > LAST_ENTRY || exists c :: IsFree(fat[..], c))
      modifies fat
      ensures Full(old(fat[..])) ==> ok && cluster == NO_CLUSTER && fat[..] == old(fat[..])[current := END_OF_CHAIN]
      ensures !Full(old(fat[..])) ==> LowestZero(old(fat[..]), cluster) && ok == (cluster != LAST_ENTRY)
      ensures !Full(old(fat[..])) && ok ==> fat[..] == old(fat[..])[cluster := END_OF_CHAIN][current := cluster]
      ensures !ok ==> fat.Length > LAST_ENTRY && fat[..] == old(fat[..])[LAST_ENTRY := END_OF_CHAIN]
    {
      cluster := GetFreeCluster();
      ok := cluster != END_OF_CHAIN;
      if ok {
        SetFatEntry(current, cluster);
      }
    }

    // The cluster to go on in: the next one of the chain, or a new one when it has ended. It
    // fails when the disk has no free cluster and the search comes to the last entry.
    method AdvanceCluster(current: nat, next: int, ghost fat0: seq<Entry>, ghost disk0: seq<Block>,
                          ghost chain: seq<nat>,
                          ghost link: seq<nat>, ghost m: nat, ghost offset: nat, ghost bytes: seq<Byte>)
      returns (ok: bool, cluster: nat, ghost link': seq<nat>)
      requires InProgress(at, fat0, disk0, fat[..], disk[..], chain, link, m, offset, bytes)
      requires next == (if m < |link| then link[m] else END_OF_CHAIN) && (m == |link| ==> current == link[m - 1])
      requires m == |link| ==> offset + |bytes| <= BLOCK * m
      requires m == |link| ==>
        |Free(fat[..], at.Clusters(disk.Length))| > 0 || EndsAtLastEntry(fat[..], at.Clusters(disk.Length))
      requires Budgeted(at.Clusters(disk.Length), fat0, fat[..], chain, link)
      modifies fat
      ensures ok <==> m < |link| || |Free(old(fat[..]), at.Clusters(disk.Length))| > 0
      ensures !ok ==> fat.Length > LAST_ENTRY && fat[..] == old(fat[..])[LAST_ENTRY := END_OF_CHAIN]
      ensures ok ==> |link'| >= |link| && m < |link'| && (|link'| > |chain| ==> m + 1 == |link'|) && cluster == link'[m]
      ensures ok ==> Linked(fat0, fat[..], chain, link') && Filled(at, disk0, disk[..], link', offset, bytes)
      ensures ok ==> Budgeted(at.Clusters(disk.Length), fat0, fat[..], chain, link')
    {
      hide InProgress, Linked, Filled, Free, IsFree, Chain, Budgeted, EndsAtLastEntry;
      ProgressChain(at, fat0, disk0, fat[..], disk[..], chain, link, m, offset, bytes);
      ProgressParts(at, fat0, disk0, fat[..], disk[..], chain, link, m, offset, bytes);
      link', ok, cluster := link, true, 0;
      if next < 0 || next == END_OF_CHAIN || next >= LAST_CLUSTER {
        ghost var table, limit := fat[..], at.Clusters(disk.Length);
        SearchFinds(table, limit);
        ok, cluster := LinkFreeCluster(current);
        if !ok { return; }
        ProgressExtends(at, fat0, disk0, table, disk[..], chain, link, offset, bytes, cluster);
        LinkedIsChain(fat0, table, chain, link);
        BudgetKept(limit, fat0, table, chain, link, cluster);
        link' := link + [cluster];
      } else {
        cluster := next;
      }
    }

    // Write the next `size` bytes into a cluster of the chain.
    method WriteInto(cluster: nat, inside: nat, data: seq<Byte>, written: nat, size: nat, ghost fat0: seq<Entry>,
                     ghost disk0: seq<Block>,
                     ghost chain: seq<nat>, ghost link: seq<nat>, ghost m: nat, ghost offset: nat)
      requires at.Fits(|fat0|, |disk0|) && written + size <= |data| && inside + size <= BLOCK
      requires Linked(fat0, fat[..], chain, link) && Filled(at, disk0, disk[..], link, offset, data[..written])
      requires m < |link| && cluster == link[m] && 0 < cluster < fat.Length == |fat0| && disk.Length == |disk0|
      requires at.DataStart() + cluster < disk.Length
      requires BLOCK * m + inside == offset + written
      modifies disk
      ensures Filled(at, disk0, disk[..], link, offset, data[..written + size])
      ensures SameTable(at, old(disk[..]), disk[..])
    {
      hide Linked, Filled;
      ghost var before, bytes := disk[..], data[..written];
      var more := data[written..written + size];
      var _ := WriteDataToCluster(cluster, inside, more, size);
      assert more[..size] == more && bytes + more == data[..written + size];
      ProgressWrites(at, fat0, disk0, fat[..], before, chain, link, m, offset, bytes, more, inside,
                     disk[at.DataStart() + cluster]);
    }

    // One turn of the write loop: what fits goes into the next cluster of the chain.
    method WriteNext(current: nat, next: int, inside: nat, data: seq<Byte>, written: nat, ghost fat0: seq<Entry>,
                     ghost disk0: seq<Block>,
                     ghost chain: seq<nat>, ghost link: seq<nat>, ghost m: nat, ghost offset: nat)
      returns (ok: bool, cluster: nat, next': int, size: nat, ghost link': seq<nat>)
      requires written < |data|
      requires Underway(at, fat0, disk0, fat[..], disk[..], chain, link, m, offset, data, written, current, next,
                        inside)
      requires at.Fits(|fat0|, |disk0|) && SameTable(at, disk0, disk[..])
      requires Enough(at.Clusters(disk.Length), fat0, chain, offset + |data|) || EndsAtLastEntry(fat0, at.Clusters(disk.Length))
      modifies fat, disk
      ensures SameTable(at, disk0, disk[..])
      ensures !ok ==> !Enough(at.Clusters(disk.Length), fat0, chain, offset + |data|)
      ensures !ok ==> Stopped(at, fat0, disk0, fat[..], disk[..], chain, link', offset, data)
      ensures ok ==> written + size <= |data| && (size > 0 || inside > 0)
      ensures ok ==>
        Underway(at, fat0, disk0, fat[..], disk[..], chain, link', m + 1, offset, data, written + size, cluster, next', 0)
    {
      hide Underway, InProgress, Linked, Filled, Free, ClustersFor, Budgeted, Enough, EndsAtLastEntry, Stopped,
           SameTable;
      UnderwayParts(at, fat0, disk0, fat[..], disk[..], chain, link, m, offset, data, written, current, next, inside);
      if m == |link| { FreeOrLast(at.Clusters(disk.Length), fat0, fat[..], chain, link, offset + |data|); }
      ghost var before := fat[..];
      next', size := 0, 0;
      ok, cluster, link' := AdvanceCluster(current, next, fat0, disk0, chain, link, m, offset, data[..written]);
      if !ok {
        StopsThere(at, fat0, disk0, before, disk[..], chain, link, offset, data, written);
        link' := link;
        return;
      }
      ghost var fat1, disk1 := fat[..], disk[..];
      LinkedChain(at, fat0, disk0, fat1, disk1, chain, link', m, offset, data[..written]);
      size := BLOCK - inside;
      if size > |data| - written { size := |data| - written; }
      WriteInto(cluster, inside, data, written, size, fat0, disk0, chain, link', m, offset);
      SameTableThen(at, disk0, disk1, disk[..]);
      next' := GetFatEntry(cluster);
      ghost var disk2 := disk[..];
      assert fat[..] == fat1;
      ProgressJoins(at, fat0, disk0, fat1, disk2, chain, link', m + 1, offset, data[..written + size]);
      UnderwayAgain(at, fat0, disk0, fat1, disk2, chain, link', m, offset, data, written, inside, size, cluster, next');
    }

    // Cut the chain after its last used cluster, and save the table.
    method EndChain(current: nat, ghost fat0: seq<Entry>, ghost disk0: seq<Block>,
                    ghost chain: seq<nat>, ghost link: seq<nat>, ghost m: nat, ghost offset: nat,
                    ghost bytes: seq<Byte>)
      requires InProgress(at, fat0, disk0, fat[..], disk[..], chain, link, m, offset, bytes) && at.Fits(|fat0|, |disk0|)
      requires m == ClustersFor(offset + |bytes|) && m > 0 && current == link[m - 1]
      modifies fat, disk
      ensures Written(at, fat0, disk0, fat[..], disk[..], chain, link[..m], offset, bytes)
    {
      hide InProgress, Linked, Filled, Chain, ClustersFor, Written;
      ghost var fat1, disk1 := fat[..], disk[..];
      ProgressChain(at, fat0, disk0, fat1, disk1, chain, link, m, offset, bytes);
      ProgressParts(at, fat0, disk0, fat1, disk1, chain, link, m, offset, bytes);
      var last := GetFatEntry(current);
      if last != END_OF_CHAIN {
        SetFatEntry(current, END_OF_CHAIN);
      }
      assert fat[..] == fat1[current := END_OF_CHAIN];
      SyncFatTable();
      Finishes(at, fat0, disk0, fat1, disk1, chain, link, m, offset, bytes, fat[..], disk[..]);
    }

    // Walk along a chain: it ends, after as many steps as there are clusters.
    method PrintClusterChain(cluster: nat, ghost chain: seq<nat>) returns (result: int, i: nat)
      requires Chain(fat[..], chain) && |chain| > 0 && cluster == chain[0]
      ensures result == 0 && i == |chain|
    {
      hide Chain;
      var current := cluster;
      i, result := 0, 0;
      ChainNext(fat[..], chain, 0);
      while current < LAST_CLUSTER && current != END_OF_CHAIN
        invariant i <= |chain| && current == ClusterAt(chain, i)
        decreases |chain| - i
      {
        ChainNext(fat[..], chain, i);
        current := GetFatEntry(current);
        i := i + 1;
        if i < |chain| { ChainNext(fat[..], chain, i); }
      }
      if i < |chain| { ChainNext(fat[..], chain, i); }
    }

    // Write `data` at `offset` of a file. On a volume with enough free clusters the whole of it
    // is written; without them, when the search comes to the last entry, the routine gives up.
    method WriteData(first: nat, offset: nat, data: seq<Byte>, length: int, ghost chain: seq<nat>)
      returns (result: int, ghost chain': seq<nat>)
      requires Valid() && Chain(fat[..], chain) && OnDisk(at.DataStart(), chain, disk.Length)
      requires |chain| > 0 && chain[0] == first && offset <= BLOCK * |chain| && length <= |data|
      requires length > 0 && !Enough(at.Clusters(disk.Length), fat[..], chain, offset + length) ==>
        EndsAtLastEntry(fat[..], at.Clusters(disk.Length))
      modifies fat, disk
      ensures length <= 0 ==> result == -1 && fat[..] == old(fat[..]) && disk[..] == old(disk[..])
      ensures length > 0 ==>
        result == if Enough(at.Clusters(disk.Length), old(fat[..]), chain, offset + length) then length else -1
      ensures length > 0 && result == length ==>
        Written(at, old(fat[..]), old(disk[..]), fat[..], disk[..], chain, chain', offset, data[..length])
      ensures length > 0 && result != length ==>
        Stopped(at, old(fat[..]), old(disk[..]), fat[..], disk[..], chain, chain', offset, data[..length])
    {
      hide Chain, Underway, InProgress, Free, Written, ClustersFor, Enough, EndsAtLastEntry, Stopped, SameTable;
      if length <= 0 { return -1, chain; }
      ghost var fat0, disk0 := fat[..], disk[..];
      var bytes := data[..length];
      var status, count := PrintClusterChain(first, chain);
      var current, inside := FindClusterByOffset(first, offset, chain);
      var remaining: nat, written: nat := length, 0;
      var next: int := current;
      ghost var link, m: nat := chain, if offset == 0 then 0 else (offset - 1) / BLOCK;
      UnderwayStarts(at, fat0, disk0, chain, m, offset, bytes, current, inside);
      SameTableStarts(at, disk0);
      while remaining > 0
        invariant written + remaining == length && SameTable(at, disk0, disk[..])
        invariant Underway(at, fat0, disk0, fat[..], disk[..], chain, link, m, offset, bytes, written, current, next,
                           inside)
        decreases remaining, inside
      {
        var ok, size;
        ok, current, next, size, link := WriteNext(current, next, inside, bytes, written, fat0, disk0, chain, link, m, offset);
        if !ok { return -1, link; }
        remaining := remaining - size;
        written := written + size;
        inside := 0;
        m := m + 1;
      }
      UnderwayEnds(at, fat0, disk0, fat[..], disk[..], chain, link, m, offset, bytes, written, current, next, inside);
      EndChain(current, fat0, disk0, chain, link, m, offset, bytes);
      chain' := link[..m];
      WrittenChain(at, fat0, disk0, fat[..], disk[..], chain, chain', offset, bytes);
      status, count := PrintClusterChain(first, chain');
      result := length;
    }

    // ----- reading -----

    method ReadDataFromCluster(cluster: nat, buffer: array<Byte>, pos: nat, length: nat, offset: nat)
      returns (result: int)
      requires at.tableBlocks > 0 && ClusterBlock(cluster) < disk.Length <= 65536 && pos + length <= buffer.Length
      modifies buffer
      ensures offset + length > BLOCK ==> result == -1 && buffer[..] == old(buffer[..])
      ensures offset + length <= BLOCK ==> (result == length &&
        buffer[..] == old(buffer[..pos]) + disk[ClusterBlock(cluster)][offset..offset + length] + old(buffer[pos + length..]))
    {
      if offset + length > BLOCK { return -1; }
      var block := ClusterBlock(cluster) % 65536;
      result := ReadBlockOffset(buffer, pos, length, offset, block);
    }

    // Follow the chain over a number of clusters, or to its end.
    method SkipClusters(first: nat, skip: nat, ghost chain: seq<nat>) returns (cluster: nat, ghost m: nat)
      requires Chain(fat[..], chain) && |chain| > 0 && chain[0] == first
      ensures m == if skip <= |chain| then skip else |chain|
      ensures cluster == ClusterAt(chain, if skip <= |chain| then skip else |chain|)
    {
      hide Chain;
      cluster := first;
      m := 0;
      var left := skip;
      while left > 0 && cluster != END_OF_CHAIN
        invariant m + left == skip && m <= |chain| && cluster == (if m < |chain| then chain[m] else END_OF_CHAIN)
        invariant left > 0 && m == |chain| ==> cluster == END_OF_CHAIN
        decreases left
      {
        ChainNext(fat[..], chain, m);
        cluster := GetFatEntry(cluster);
        left := left - 1;
        m := m + 1;
      }
      if left > 0 && m < |chain| {
        ChainNext(fat[..], chain, m);
      }
    }

    // Read what the cluster with index `m` has of the window.
    method ReadNext(cluster: nat, buffer: array<Byte>, done: nat, left: nat, inside: nat,
                    ghost chain: seq<nat>, ghost m: nat, ghost start: nat, ghost before: seq<Byte>)
      returns (next: nat, size: nat)
      requires Valid() && Chain(fat[..], chain) && OnDisk(at.DataStart(), chain, disk.Length) && m < |chain| && left > 0
      requires Reading(Stream(disk[..], at.DataStart(), chain), chain, start, done + left, before, buffer[..], left,
                       cluster, m, inside)
      modifies buffer
      ensures OnDisk(at.DataStart(), chain, disk.Length) && size == if left > BLOCK - inside then BLOCK - inside else left
      ensures size > 0
      ensures Reading(Stream(disk[..], at.DataStart(), chain), chain, start, done + left, before, buffer[..],
                      left - size, next, m + 1, 0)
    {
      hide Chain, Stream, OnDisk, Window;
      ghost var now, stream := buffer[..], Stream(disk[..], at.DataStart(), chain);
      ReadingHere(stream, chain, start, done + left, before, now, left, cluster, m, inside);
      hide Reading;
      size := if left > BLOCK - inside then BLOCK - inside else left;
      ChainNext(fat[..], chain, m);
      StreamPart(disk[..], at.DataStart(), chain, m, inside, size);
      ClusterOnDisk(at.DataStart(), chain, disk.Length, m);
      var _ := ReadDataFromCluster(cluster, buffer, done, size, inside);
      next := GetFatEntry(cluster);
      ReadingAgain(stream, chain, start, done + left, before, now, left, cluster, m, inside, size,
                   disk[at.DataStart() + cluster][inside..inside + size], buffer[..], next);
    }

    method ReadData(first: nat, start: nat, buffer: array<Byte>, length: nat, max: nat, ghost chain: seq<nat>)
      returns (result: int)
      requires Valid() && Chain(fat[..], chain) && OnDisk(at.DataStart(), chain, disk.Length) && |chain| > 0
      requires chain[0] == first
      requires length <= buffer.Length && start + length < WORD_LIMIT
      modifies buffer
      ensures OnDisk(at.DataStart(), chain, disk.Length)
      ensures start > max ==> result == -1 && buffer[..] == old(buffer[..])
      ensures start <= max ==> (
        var want := if start + length > max then max - start else length;
        var got := Window(Stream(disk[..], at.DataStart(), chain), start, want);
        result == (if |got| == want then want else -3) && buffer[..] == got + old(buffer[..])[|got|..])
    {
      hide Chain, Stream, Window, OnDisk, Reading;
      if start > max { return -1; }
      var want: nat := if start + length > max then max - start else length;
      ghost var stream, before := Stream(disk[..], at.DataStart(), chain), buffer[..];
      var cluster;
      ghost var m: nat;
      cluster, m := SkipClusters(first, start / BLOCK, chain);
      var inside, left: nat := start % BLOCK, want;
      ReadingStarts(stream, chain, start, want, before, cluster, m);
      while left > 0 && cluster != END_OF_CHAIN
        invariant 0 <= inside && Reading(stream, chain, start, want, before, buffer[..], left, cluster, m, inside)
        decreases left
      {
        ReadingAt(fat[..], stream, chain, start, want, before, buffer[..], left, cluster, m, inside);
        var size;
        cluster, size := ReadNext(cluster, buffer, want - left, left, inside, chain, m, start, before);
        left := left - size;
        m := m + 1;
        inside := 0;
      }
      ReadingAt(fat[..], stream, chain, start, want, before, buffer[..], left, cluster, m, inside);
      ReadingEnds(stream, chain, start, want, before, buffer[..], left, cluster, m, inside);
      result := if left > 0 then -3 else want;
    }
  }

  lemma EntriesOfBlock(at: Layout, disk: seq<Block>, i: nat)
    requires at.tableStart + at.tableBlocks <= |disk| && i < at.tableBlocks
    ensures var block := disk[at.tableStart + i];
      forall c :: 256 * i <= c < 256 * (i + 1) ==>
        Mounted(at, disk)[c] == block[2 * (c - 256 * i)] as int + 256 * block[2 * (c - 256 * i) + 1] as int
  {
    forall c | 256 * i <= c < 256 * (i + 1)
      ensures c / 256 == i && c % 256 == c - 256 * i
    {
    }
  }

  // No entry that the search looks at is 0.
  predicate Full(fat: seq<Entry>) {
    forall b :: FIRST_FREE <= b < 65536 && b < |fat| ==> fat[b] != 0
  }

  predicate LowestZero(fat: seq<Entry>, c: int) {
    FIRST_FREE <= c < 65536 && c < |fat| && fat[c] == 0 && forall b :: FIRST_FREE <= b < c ==> fat[b] != 0
  }

  // If some cluster is free, the search finds the lowest one.
  lemma LowestIsFree(fat: seq<Entry>, free: nat)
    requires IsFree(fat, free)
    ensures !Full(fat) && forall c :: LowestZero(fat, c) ==>
      IsFree(fat, c) && c <= free && forall b :: IsFree(fat, b) ==> c <= b
  {
  }

  lemma StaysInTable(fat: seq<Entry>, c: nat)
    requires |fat| >= 65536 || exists b :: IsFree(fat, b)
    requires FIRST_FREE <= c < 65536 && forall b :: FIRST_FREE <= b < c && b < |fat| ==> fat[b] != 0
    ensures c < |fat|
  {
    if |fat| < 65536 {
      var b :| IsFree(fat, b);
    }
  }

  // What the search finds: the lowest free cluster, or the last entry.
  lemma SearchFinds(fat: seq<Entry>, limit: int)
    requires |Free(fat, limit)| > 0 || EndsAtLastEntry(fat, limit)
    ensures !Full(fat) && (|fat| > LAST_ENTRY || exists c :: IsFree(fat, c))
    ensures |Free(fat, limit)| > 0 ==> forall c :: LowestZero(fat, c) ==>
      IsFree(fat, c) && c < limit && c in Free(fat, limit) && c != LAST_ENTRY && forall b :: IsFree(fat, b) ==> c <= b
    ensures |Free(fat, limit)| == 0 ==> |fat| > LAST_ENTRY && forall c :: LowestZero(fat, c) ==> c == LAST_ENTRY
  {
    if |Free(fat, limit)| > 0 {
      var free :| free in Free(fat, limit);
      LowestIsFree(fat, free);
    } else {
      assert Free(fat, limit) == {};
      assert !Full(fat);
    }
  }

  // The number the search finds is a cluster of the disk if and only if the disk has a free one.
  lemma FoundOnDisk(at: Layout, fat: seq<Entry>, blocks: nat, c: nat)
    requires at.Fits(|fat|, blocks) && LowestZero(fat, c)
    ensures at.tableStart + at.tableBlocks - 1 + c < blocks && c < 0xFFF8 <==> |Free(fat, at.Clusters(blocks))| > 0
  {
    var free := Free(fat, at.Clusters(blocks));
    if at.DataStart() + c < blocks && c < LAST_CLUSTER {
      assert c in free;
    }
    if |free| > 0 {
      var b :| b in free;
      LowestIsFree(fat, b);
    }
  }

  // A number from 65528 to 65534 is linked, and reads as an end: then no chain contains the
  // cluster it was linked to.
  lemma LinkedToNoCluster(fat: seq<Entry>, chain: seq<nat>, c: nat, other: seq<nat>)
    requires Chain(fat, chain) && LowestZero(fat, c) && LAST_CLUSTER <= c < LAST_ENTRY && chain[|chain| - 1] in other
    ensures !Chain(fat[c := END_OF_CHAIN][chain[|chain| - 1] := c], other)
  {
    assert fat[c := END_OF_CHAIN][chain[|chain| - 1] := c][chain[|chain| - 1]] == c;
  }

  // In a table with one free entry, 65528, a chain of one cluster gets it.
  lemma LinkedToNoClusterCase()
    ensures var fat := seq(65536, b requires 0 <= b < 65536 => if b == 65528 then 0 else END_OF_CHAIN);
      Chain(fat, [5]) && LowestZero(fat, 65528)
      && forall other :: 5 in other ==> !Chain(fat[65528 := END_OF_CHAIN][5 := 65528], other)
  {
    var fat: seq<Entry> := seq(65536, b requires 0 <= b < 65536 => if b == 65528 then 0 else END_OF_CHAIN);
    assert LowestZero(fat, 65528) && Chain(fat, [5]);
    forall other: seq<nat> | 5 in other
      ensures !Chain(fat[65528 := END_OF_CHAIN][5 := 65528], other)
    {
      LinkedToNoCluster(fat, [5], 65528, other);
    }
  }

  // A disk of 20000 blocks, one of them before the table of 78: with the 19922 clusters of the
  // disk used, the search finds the next one, whose block would be the one with number 20000.
  lemma PastTheDiskCase()
    ensures var at, fat := Layout(1, 78), seq(19968, b requires 0 <= b < 19968 => if b < 19922 then END_OF_CHAIN else 0);
      at.Fits(|fat|, 20000) && LowestZero(fat, 19922) && at.DataStart() + 19922 == 20000 && Free(fat, at.Clusters(20000)) == {}
  {
  }

  // The result on a full table passes the test of the write routine, and the block it names,
  // with the wrap-around of 32 bits, belongs to no cluster but to the saved table.
  lemma FullTableBlock(at: Layout)
    requires at.tableBlocks > 0
    ensures NO_CLUSTER != END_OF_CHAIN && NO_CLUSTER >= LAST_CLUSTER
    ensures (at.DataStart() + NO_CLUSTER) % WORD_LIMIT == (at.DataStart() - 1) % WORD_LIMIT
    ensures at.tableBlocks > 1 ==> at.InTable(at.DataStart() - 1)
    ensures forall chain: seq<nat>, fat, i :: Chain(fat, chain) && 0 <= i < |chain| ==>
      at.DataStart() - 1 < at.DataStart() + chain[i]
  {
    assert at.DataStart() + NO_CLUSTER == (at.DataStart() - 1) + WORD_LIMIT;
  }

  lemma SameTableStarts(at: Layout, disk: seq<Block>)
    ensures SameTable(at, disk, disk)
  {
  }

  lemma SameTableThen(at: Layout, disk0: seq<Block>, disk1: seq<Block>, disk2: seq<Block>)
    requires SameTable(at, disk0, disk1) && SameTable(at, disk1, disk2)
    ensures SameTable(at, disk0, disk2)
  {
  }

  lemma ClusterOnDisk(start: nat, chain: seq<nat>, blocks: nat, m: nat)
    requires OnDisk(start, chain, blocks) && m < |chain|
    ensures start + chain[m] < blocks
  {
  }
}
