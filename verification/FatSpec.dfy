/**
 * FAT16 file data: cluster chains in a table of 16-bit entries, and the byte stream a
 * chain denotes on a disk of 512-byte blocks.
 */
module FatSpec {
  import opened Words

  const BLOCK: nat := 512
  const END_OF_CHAIN: Entry := 0xFFFF
  const LAST_CLUSTER: int := 0xFFF8   // entries from here on do not name a cluster
  const FIRST_FREE: nat := 5          // where the search for a free cluster starts
  const LAST_ENTRY: nat := 0xFFFF     // where that search ends
  const NO_CLUSTER: nat := 0xFFFF_FFFF // what it returns on a full table

  type Block = s: seq<Byte> | |s| == BLOCK witness seq(BLOCK, _ => 0)
  type Entry = x: int | 0 <= x < 65536

  // Where the saved table stands on the disk. The root directory follows it, as the block
  // of cluster 1, and the data blocks follow that.
  datatype Layout = Layout(tableStart: nat, tableBlocks: nat) {
    predicate Fits(entries: nat, blocks: nat) {
      tableBlocks > 0 && entries == 256 * tableBlocks && tableStart + tableBlocks <= blocks <= 65536
    }

    // Clusters from here on are past the end of the disk; the table may well have entries
    // for them.
    function Clusters(blocks: nat): int {
      blocks - (tableStart + tableBlocks - 1)
    }

    // The block of a cluster is this one plus its number.
    function DataStart(): (b: nat)
      requires tableBlocks > 0
      ensures b + 1 == tableStart + tableBlocks
    {
      tableStart + tableBlocks - 1
    }

    predicate InTable(b: int) {
      tableStart <= b < tableStart + tableBlocks
    }
  }

  // What the table holds for the cluster at an index of its chain.
  function After(chain: seq<nat>, i: nat): int {
    if i + 1 < |chain| then chain[i + 1] else END_OF_CHAIN
  }

  // The table links the clusters in this order, and ends the chain after the last one.
  predicate Chain(fat: seq<Entry>, chain: seq<nat>) {
    && |chain| > 0
    && (forall i :: 0 <= i < |chain| ==> 0 < chain[i] < |fat| && chain[i] < LAST_CLUSTER)
    && (forall i :: 0 <= i < |chain| ==> fat[chain[i]] == After(chain, i))
  }

  predicate IsFree(fat: seq<Entry>, c: int) {
    FIRST_FREE <= c < |fat| && c < LAST_CLUSTER && fat[c] == 0
  }

  // The free clusters below a limit.
  function Free(fat: seq<Entry>, limit: int): set<int> {
    set c | FIRST_FREE <= c < |fat| && IsFree(fat, c) && c < limit
  }

  // The bytes of a chain, cluster after cluster.
  function Stream(disk: seq<Block>, start: nat, chain: seq<nat>): (s: seq<Byte>)
    requires OnDisk(start, chain, |disk|)
    ensures |s| == BLOCK * |chain|
  {
    seq(BLOCK * |chain|, q requires 0 <= q < BLOCK * |chain| => StreamByte(disk, start, chain, q))
  }

  function StreamByte(disk: seq<Block>, start: nat, chain: seq<nat>, q: nat): Byte
    requires OnDisk(start, chain, |disk|) && q < BLOCK * |chain|
  {
    disk[start + chain[q / BLOCK]][q % BLOCK]
  }

  predicate OnDisk(start: nat, chain: seq<nat>, blocks: nat) {
    forall i :: 0 <= i < |chain| ==> start + chain[i] < blocks
  }

  // At most `n` bytes of a stream from `start` on.
  function Window(s: seq<Byte>, start: nat, n: nat): (w: seq<Byte>)
    ensures |w| <= n && (|w| < n ==> start + |w| >= |s|)
    ensures forall k :: 0 <= k < |w| ==> start + k < |s| && w[k] == s[start + k]
  {
    if start >= |s| then [] else s[start..if start + n <= |s| then start + n else |s|]
  }

  // ----- one write -----

  // The block of index `i` in a chain after `bytes` were written at `offset`.
  function Patched(block: Block, i: nat, offset: nat, bytes: seq<Byte>): Block {
    seq(BLOCK, r requires 0 <= r < BLOCK =>
      if offset <= BLOCK * i + r < offset + |bytes| then bytes[BLOCK * i + r - offset] else block[r])
  }

  // The least number of clusters that hold the first `size` bytes.
  function ClustersFor(size: nat): (n: nat)
    ensures size <= 512 * n < size + 512
  {
    (size + BLOCK - 1) / BLOCK
  }

  // The disk has free clusters for what a chain needs to hold `size` bytes.
  predicate Enough(limit: int, fat: seq<Entry>, chain: seq<nat>, size: nat) {
    ClustersFor(size) <= |chain| + |Free(fat, limit)|
  }

  // The search finds the free clusters of the disk, and then the last entry.
  ghost predicate EndsAtLastEntry(fat: seq<Entry>, limit: int) {
    |fat| > LAST_ENTRY && fat[LAST_ENTRY] == 0
    && forall c :: FIRST_FREE <= c < LAST_ENTRY && fat[c] == 0 ==> c in Free(fat, limit)
  }

  // Clusters added in ascending order, each the lowest free one of its time.
  ghost predicate TakesLowest(fat: seq<Entry>, added: seq<nat>) {
    && (forall i :: 0 <= i < |added| ==> IsFree(fat, added[i]))
    && (forall i, j :: 0 <= i < j < |added| ==> added[i] < added[j])
    && (forall c :: IsFree(fat, c) && c !in added ==> forall i :: 0 <= i < |added| ==> added[i] < c)
  }

  // The chain grew by free clusters, or was cut after its last used cluster.
  ghost predicate Resized(fat: seq<Entry>, chain: seq<nat>, chain': seq<nat>, count: nat) {
    && |chain'| == count
    && (if count <= |chain| then chain' == chain[..count]
        else chain' == chain + chain'[|chain|..] && TakesLowest(fat, chain'[|chain|..]))
  }

  predicate SameElsewhere(fat: seq<Entry>, fat': seq<Entry>, chain: seq<nat>) {
    |fat'| == |fat| && forall c :: 0 <= c < |fat| && c !in chain ==> fat'[c] == fat[c]
  }

  // The in-memory table in blocks, as it is saved.
  function TableBlock(fat: seq<Entry>, i: nat): Block
    requires 256 * (i + 1) <= |fat|
  {
    seq(BLOCK, r requires 0 <= r < BLOCK => var e := fat[256 * i + r / 2]; if r % 2 == 0 then e % 256 else e / 256)
  }

  // Writing `data` at `offset` of the file `chain`: the new table links `chain'`, the blocks
  // of `chain'` have the data spliced in, the table is saved, and nothing else changes.
  ghost predicate Written(at: Layout, fat: seq<Entry>, disk: seq<Block>, fat': seq<Entry>, disk': seq<Block>,
                          chain: seq<nat>, chain': seq<nat>, offset: nat, data: seq<Byte>)
    requires at.Fits(|fat|, |disk|)
  {
    && Chain(fat', chain') && Resized(fat, chain, chain', ClustersFor(offset + |data|))
    && SameElsewhere(fat, fat', chain')
    && |disk'| == |disk| && OnDisk(at.DataStart(), chain', |disk|)
    && (forall i :: 0 <= i < |chain'| ==>
          disk'[at.DataStart() + chain'[i]] == Patched(disk[at.DataStart() + chain'[i]], i, offset, data))
    && SameBlocks(at, disk, disk', chain')
    && Saved(at, fat', disk')
  }

  // A write that gave up: the chain has taken every free cluster of the disk, its blocks hold
  // as much of the data as goes into them, the last entry is marked, and the table is not saved.
  ghost predicate Stopped(at: Layout, fat: seq<Entry>, disk: seq<Block>, fat': seq<Entry>, disk': seq<Block>,
                          chain: seq<nat>, chain': seq<nat>, offset: nat, data: seq<Byte>)
    requires at.Fits(|fat|, |disk|)
  {
    && Chain(fat', chain') && |chain'| == |chain| + |Free(fat, at.Clusters(|disk|))|
    && chain' == chain + chain'[|chain|..] && TakesLowest(fat, chain'[|chain|..])
    && |fat| > LAST_ENTRY && SameElsewhere(fat, fat', chain' + [LAST_ENTRY]) && fat'[LAST_ENTRY] == END_OF_CHAIN
    && |disk'| == |disk| && OnDisk(at.DataStart(), chain', |disk|)
    && offset <= BLOCK * |chain'| < offset + |data|
    && (var part := data[..BLOCK * |chain'| - offset];
        forall i :: 0 <= i < |chain'| ==>
          disk'[at.DataStart() + chain'[i]] == Patched(disk[at.DataStart() + chain'[i]], i, offset, part))
    && SameBlocks(at, disk, disk', chain') && SameTable(at, disk, disk')
  }

  // The blocks of the table are the same.
  ghost predicate SameTable(at: Layout, disk: seq<Block>, disk': seq<Block>) {
    |disk'| == |disk| && forall b :: 0 <= b < |disk| && at.InTable(b) ==> disk'[b] == disk[b]
  }

  // Blocks other than those of the table and of the chain are the same.
  ghost predicate SameBlocks(at: Layout, disk: seq<Block>, disk': seq<Block>, chain: seq<nat>)
    requires at.tableBlocks > 0
  {
    |disk'| == |disk| && forall b :: 0 <= b < |disk| && !at.InTable(b) && b - at.DataStart() !in chain ==>
      disk'[b] == disk[b]
  }

  // The table on the disk is the table in memory.
  ghost predicate Saved(at: Layout, fat: seq<Entry>, disk: seq<Block>)
    requires at.Fits(|fat|, |disk|)
  {
    forall i :: 0 <= i < at.tableBlocks ==> disk[at.tableStart + i] == TableBlock(fat, i)
  }

  // The table that mounting the disk reads: two bytes for each entry, the low one first.
  function Mounted(at: Layout, disk: seq<Block>): (fat: seq<Entry>)
    requires at.tableStart + at.tableBlocks <= |disk|
    ensures |fat| == 256 * at.tableBlocks
  {
    seq(256 * at.tableBlocks, c requires 0 <= c < 256 * at.tableBlocks =>
      var block := disk[at.tableStart + c / 256]; block[2 * (c % 256)] as int + 256 * block[2 * (c % 256) + 1] as int)
  }

  // On a disk that holds the table, the bytes 2c and 2c + 1 of the table blocks are the entry
  // of cluster c.
  lemma SavedBytes(at: Layout, fat: seq<Entry>, disk: seq<Block>, c: nat)
    requires at.Fits(|fat|, |disk|) && Saved(at, fat, disk) && c < |fat|
    ensures var b, i := at.tableStart + 2 * c / 512, 2 * c % 512;
      b < |disk| && i + 1 < 512 && disk[b][i] as int + 256 * disk[b][i + 1] as int == fat[c]
  {
    var q, r := c / 256, c % 256;
    assert c == 256 * q + r && 2 * c / 512 == q && 2 * c % 512 == 2 * r;
    assert disk[at.tableStart + q] == TableBlock(fat, q);
    assert 2 * r / 2 == r && (2 * r + 1) / 2 == r;
  }

  // The disk holds the table if and only if mounting it gives the table.
  lemma SavedIsMounted(at: Layout, fat: seq<Entry>, disk: seq<Block>)
    requires at.Fits(|fat|, |disk|)
    ensures Saved(at, fat, disk) <==> Mounted(at, disk) == fat
  {
    if Saved(at, fat, disk) {
      forall c | 0 <= c < |fat|
        ensures Mounted(at, disk)[c] == fat[c]
      {
        SavedBytes(at, fat, disk, c);
        assert 2 * c / 512 == c / 256 && 2 * c % 512 == 2 * (c % 256);
      }
    }
    if Mounted(at, disk) == fat {
      forall i | 0 <= i < at.tableBlocks
        ensures disk[at.tableStart + i] == TableBlock(fat, i)
      {
        MountedBlock(at, fat, disk, i);
      }
    }
  }

  lemma MountedBlock(at: Layout, fat: seq<Entry>, disk: seq<Block>, i: nat)
    requires at.Fits(|fat|, |disk|) && Mounted(at, disk) == fat && i < at.tableBlocks
    ensures disk[at.tableStart + i] == TableBlock(fat, i)
  {
    var block, saved := disk[at.tableStart + i], TableBlock(fat, i);
    forall r | 0 <= r < BLOCK
      ensures block[r] == saved[r]
    {
      var c := 256 * i + r / 2;
      assert c / 256 == i && c % 256 == r / 2;
      assert fat[c] == Mounted(at, disk)[c];
      assert r == 2 * (r / 2) + r % 2;
    }
  }
}
