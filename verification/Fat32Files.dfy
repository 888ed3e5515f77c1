/** Directories on a mounted volume: looking a name up, writing an entry, and making room for one; and what
    creating a file changes. */
module Fat32Files {
  import opened Bytes
  import opened BlockCache
  import opened DivMod
  import opened FatTable
  import opened Fat32Layout
  import opened Fat32Bytes
  import opened Fat32Write
  import opened Fat32Volume
  import opened Fat32Names
  import opened Fat32Dir

  const ERROR_NOT_EXIST: int := -2
  const ERROR_NOT_FILE: int := -4
  const ERROR_OUT_OF_SPACE: int := -7

  /** The bytes of the directory whose chain starts at `cluster`. */
  ghost function DirBytes(vol: Volume, cluster: nat): (dir: seq<byte>)
    reads vol, vol.dev
    requires vol.Valid() && cluster in vol.chains
    ensures |dir| == FileSpan(vol.boot, vol.chains[cluster]) && InVolume(vol.limit, vol.chains[cluster])
  {
    ChainInVolume(FatOf(vol.boot, vol.dev.disk), vol.limit, vol.chains, cluster);
    FileBytes(vol.boot, vol.limit, vol.dev.disk, vol.chains[cluster])
  }

  lemma SpanInEntries(a: nat, s: nat)
    ensures a * (s * 512) == 32 * (a * (s * 16))
  {
    assert a * (s * 512) == a * (s * 16 * 32) == (a * (s * 16)) * 32;
  }

  /** Entries do not straddle clusters. */
  lemma EntryInCluster(boot: Boot, chain: seq<nat>, k: nat)
    requires boot.Wf()
    ensures 32 * k < FileSpan(boot, chain) <==> 32 * k + 32 <= FileSpan(boot, chain)
    ensures Mod(32 * k, boot.ClusterSize()) + 32 <= boot.ClusterSize()
    ensures 32 * k < FileSpan(boot, chain) <==> boot.ClusterIndex(32 * k) < |chain|
  {
    var size, n := boot.ClusterSize(), boot.sectorsPerCluster * 16;
    SpanInEntries(|chain|, boot.sectorsPerCluster);
    DivModSplit(k, n);
    SpanInEntries(Div(k, n), boot.sectorsPerCluster);
    DivModUnique(32 * k, size, Div(k, n), 32 * Mod(k, n));
    DivBelow(32 * k, size, |chain|);
  }

  lemma EntryMatches(boot: Boot, limit: nat, disk: Disk, chain: seq<nat>, k: nat, bytes: seq<byte>)
    requires Layout(boot, limit, disk) && InVolume(limit, chain) && |bytes| == 32
    requires Matches(boot, limit, disk, chain, 32 * k, bytes) && InDir(FileBytes(boot, limit, disk, chain), k)
    ensures bytes == EntryAt(FileBytes(boot, limit, disk, chain), k)
  {
    var dir := FileBytes(boot, limit, disk, chain);
    forall i: nat | i < 32 ensures bytes[i] == EntryAt(dir, k)[i] {
      assert dir[32 * k + i] == FileByte(boot, limit, disk, chain, 32 * k + i);
    }
  }

  /** The step every directory scan starts with: the cluster of entry `k`, 0 past the end, and the
      entry itself. */
  method ReadEntry(vol: Volume, cluster: nat, k: nat) returns (clus: nat, entry: Entry)
    requires vol.Valid() && cluster in vol.chains
    modifies vol.dev`cache, vol.dev`cacheNext
    ensures vol.Valid()
    ensures clus == ClusterAt(vol.chains[cluster], vol.boot.ClusterIndex(32 * k))
    ensures clus != 0 <==> InDir(DirBytes(vol, cluster), k)
    ensures clus != 0 ==> entry == EntryAt(DirBytes(vol, cluster), k)
  {
    hide FileBytes, BlockDevice.Valid, Matches, Partition, IsChain, Mirrored, HasFats, HasCluster;
    ghost var chain, disk := vol.chains[cluster], vol.dev.disk;
    ChainInVolume(FatOf(vol.boot, disk), vol.limit, vol.chains, cluster);
    EntryInCluster(vol.boot, chain, k);
    clus := vol.OffsetCluster(cluster, 32 * k);
    if clus == 0 {
      return 0, seq(32, _ => 0);
    }
    var begin := Mod(32 * k, vol.boot.ClusterSize());
    var bytes := vol.ReadCluster(clus, begin, 32);
    MatchesNothing(vol.boot, vol.limit, disk, chain, 32 * k);
    MatchesExtend(vol.boot, vol.limit, disk, chain, 32 * k, [], bytes, 32 * k, vol.boot.ClusterBase(clus), begin);
    assert [] + bytes == bytes;
    EntryMatches(vol.boot, vol.limit, disk, chain, k, bytes);
    entry := bytes;
  }

  /** `fat32_dir_search`, up to the first entry that it cannot read. */
  method DirSearch(vol: Volume, cluster: nat, name: CString) returns (r: Lookup, entry: Entry)
    requires vol.Valid() && cluster in vol.chains
    modifies vol.dev`cache, vol.dev`cacheNext
    ensures vol.Valid()
    ensures Answers(DirBytes(vol, cluster), name, r)
    ensures r.Hit? ==> entry == EntryAt(DirBytes(vol, cluster), r.k)
  {
    hide Wf, FileBytes, FullName, HasBase, BlockDevice.Valid;
    ghost var dir := DirBytes(vol, cluster);
    var k: nat := 0;
    while true
      invariant vol.Valid() && DirBytes(vol, cluster) == dir
      invariant Passes(dir, name, 0, k)
      decreases |dir| - 32 * k
    {
      var clus, e := ReadEntry(vol, cluster, k);
      if clus == 0 {
        assert StopsAt(dir, name, 0, k);
        return Miss, e;
      }
      assert EntryAt(dir, k) == e;
      if e[0] == DELETED {
        k := k + 1;
        continue;
      } else if e[0] == 0 {
        assert StopsAt(dir, name, 0, k);
        return Miss, e;
      } else if e[11] == ATTR_LONG_NAME {
        k := k + 1;
        continue;
      } else if e[11] == ATTR_VOLUME_ID {
        k := k + 1;
        continue;
      }
      var buffer: seq<byte> := seq(256, _ => 0);
      var fullname := GetFullName(e[..11], buffer);
      if fullname.RunsOff? {
        return Crash(k), e;
      }
      if name == Cut(fullname.name) {
        return Hit(k), e;
      }
      k := k + 1;
    }
  }

  /** One entry of a directory has been overwritten, in a chain that may have grown. */
  ghost predicate EntryWritten(boot: Boot, limit: nat, disk0: Disk, chains0: Chains, disk: Disk, chains: Chains,
                               cluster: nat, k: nat, e: Entry)
  {
    Written(boot, limit, disk0, chains0, disk, chains, cluster, 32 * k, e)
  }

  /** `fat32_offset_cluster` and `fat32_write_cluster` on entry `k`. */
  method WriteEntry(vol: Volume, cluster: nat, k: nat, e: Entry)
    requires vol.Valid() && cluster in vol.chains && InDir(DirBytes(vol, cluster), k)
    modifies vol.dev
    ensures vol.Valid()
    ensures EntryWritten(vol.boot, vol.limit, old(vol.dev.disk), vol.chains, vol.dev.disk, vol.chains, cluster, k, e)
    ensures FatOf(vol.boot, vol.dev.disk) == old(FatOf(vol.boot, vol.dev.disk))
  {
    hide FileBytes, BlockDevice.Valid, Overlay, OthersSame, Partition, IsChain, Mirrored, HasFats, HasCluster, Patched;
    ghost var chain, disk0 := vol.chains[cluster], vol.dev.disk;
    ChainInVolume(FatOf(vol.boot, disk0), vol.limit, vol.chains, cluster);
    EntryInCluster(vol.boot, chain, k);
    NothingWritten(vol.boot, vol.limit, disk0, vol.chains, cluster, 32 * k);
    var clus := vol.OffsetCluster(cluster, 32 * k);
    var begin := Mod(32 * k, vol.boot.ClusterSize());
    ClusterRange(vol.boot, vol.limit, disk0, chain, vol.boot.ClusterIndex(32 * k), begin, 32);
    var status := vol.WriteCluster(e, clus, begin);
    PatchKeepsWf(vol.boot, vol.limit, disk0, vol.dev.disk, vol.chains, clus, begin, e);
    WrittenPatch(vol.boot, vol.limit, disk0, vol.chains, disk0, vol.chains, cluster, 32 * k, [], vol.dev.disk,
                 32 * k, clus, begin, e);
    assert [] + e == e;
  }

  /** The directory has a place for an entry. */
  ghost predicate HasRoom(dir: seq<byte>) {
    exists k: nat :: InsertsAt(dir, k) && InDir(dir, k)
  }

  lemma RoomAt(dir: seq<byte>, k: nat)
    requires InsertsAt(dir, k)
    ensures HasRoom(dir) <==> InDir(dir, k)
  {
    if HasRoom(dir) {
      var j: nat :| InsertsAt(dir, j) && InDir(dir, j);
      assert j == k || (j < k && InDir(dir, j)) || k < j;
    }
  }

  /** `fat32_dir_insert_entry`: the directory gets the entry exactly if it has a place for it or the volume a
      free cluster. Otherwise the driver reports that, or links the directory out of the volume. */
  method InsertEntry(vol: Volume, cluster: nat, e: Entry) returns (status: int, ghost k: nat, ghost kept: bool)
    requires vol.Valid() && cluster in vol.chains
    modifies vol.dev, vol`chains
    ensures InsertsAt(old(DirBytes(vol, cluster)), k)
    ensures status == 0 && kept <==>
      HasRoom(old(DirBytes(vol, cluster))) || old(FreeClusters(FatOf(vol.boot, vol.dev.disk), vol.limit)) != {}
    ensures status == 0 && kept ==>
      && vol.Valid() && cluster in vol.chains
      && EntryWritten(vol.boot, vol.limit, old(vol.dev.disk), old(vol.chains), vol.dev.disk, vol.chains, cluster, k, e)
    ensures InDir(old(DirBytes(vol, cluster)), k) ==> status == 0 && kept && vol.chains == old(vol.chains)
    ensures status != 0 ==>
      status == ERROR_OUT_OF_SPACE && vol.Valid() && vol.dev.disk == old(vol.dev.disk) && vol.chains == old(vol.chains)
    ensures status == 0 && !kept ==>
      HasFats(vol.boot, vol.dev.disk) && !HasChain(FatOf(vol.boot, vol.dev.disk), vol.limit, cluster)
  {
    hide FileBytes, BlockDevice.Valid, Wf, Written, InsertsAt, HasRoom, HasChain;
    ghost var dir := DirBytes(vol, cluster);
    var room, i := FindRoom(vol, cluster);
    RoomAt(dir, i);
    k := i;
    if room {
      WriteEntry(vol, cluster, i, e);
      return 0, i, true;
    }
    status, kept := AppendEntry(vol, cluster, e);
  }

  /** The scan of `fat32_dir_insert_entry` for a deleted or end entry. */
  method FindRoom(vol: Volume, cluster: nat) returns (room: bool, i: nat)
    requires vol.Valid() && cluster in vol.chains
    modifies vol.dev`cache, vol.dev`cacheNext
    ensures vol.Valid()
    ensures InsertsAt(DirBytes(vol, cluster), i)
    ensures room <==> InDir(DirBytes(vol, cluster), i)
    ensures !room ==> 32 * i == FileSpan(vol.boot, vol.chains[cluster])
  {
    hide FileBytes, BlockDevice.Valid, Partition, Mirrored, HasFats, HasCluster;
    ghost var dir := DirBytes(vol, cluster);
    i := 0;
    while true
      invariant vol.Valid() && DirBytes(vol, cluster) == dir
      invariant 32 * i <= |dir|
      invariant forall j: nat :: j < i ==> InDir(dir, j) && !IsEnd(EntryAt(dir, j)) && !IsDeleted(EntryAt(dir, j))
      decreases |dir| - 32 * i
    {
      var clus, entry := ReadEntry(vol, cluster, i);
      if clus == 0 {
        EntryCount(vol.boot, vol.chains[cluster], i);
        return false, i;
      }
      if entry[0] == DELETED || entry[0] == 0 {
        return true, i;
      }
      i := i + 1;
    }
  }

  lemma EntryCount(boot: Boot, chain: seq<nat>, i: nat)
    requires boot.Wf() && 32 * i <= FileSpan(boot, chain) < 32 * i + 32
    ensures 32 * i == FileSpan(boot, chain)
  {
    SpanInEntries(|chain|, boot.sectorsPerCluster);
  }

  /** The end of `fat32_dir_insert_entry`: a full directory gets one more cluster, which is filled
      before it is linked. */
  method AppendEntry(vol: Volume, cluster: nat, e: Entry) returns (status: int, ghost kept: bool)
    requires vol.Valid() && cluster in vol.chains
    modifies vol.dev, vol`chains
    ensures status == 0 && kept <==> old(FreeClusters(FatOf(vol.boot, vol.dev.disk), vol.limit)) != {}
    ensures status == 0 && kept ==>
      && vol.Valid() && cluster in vol.chains
      && Written(vol.boot, vol.limit, old(vol.dev.disk), old(vol.chains), vol.dev.disk, vol.chains, cluster,
                 FileSpan(vol.boot, old(vol.chains[cluster])), e)
    ensures status != 0 ==>
      status == ERROR_OUT_OF_SPACE && vol.Valid() && vol.dev.disk == old(vol.dev.disk) && vol.chains == old(vol.chains)
    ensures status == 0 && !kept ==>
      HasFats(vol.boot, vol.dev.disk) && !HasChain(FatOf(vol.boot, vol.dev.disk), vol.limit, cluster)
  {
    hide FileBytes, BlockDevice.Valid, Overlay, OthersSame, Partition, IsChain, Mirrored, HasFats, HasCluster, Patched,
      Allocates, Touches, HasChain;
    ghost var disk0, chains0 := vol.dev.disk, vol.chains;
    var alloc := vol.AllocateCluster();
    kept := 2 <= alloc < vol.limit;
    if alloc == 0 {
      return ERROR_OUT_OF_SPACE, kept;
    }
    ghost var disk1, chains1 := vol.dev.disk, vol.chains;
    AllocatedFits(FatOf(vol.boot, disk0), vol.limit, chains0, alloc, FatOf(vol.boot, disk1));
    if kept {
      ClusterRange(vol.boot, vol.limit, disk1, [alloc], 0, 0, 32);
    }
    var ignored := vol.WriteCluster(e, alloc, 0);
    ghost var disk2 := vol.dev.disk;
    StoreKeepsWf(vol.boot, vol.limit, disk1, disk2, vol.chains, alloc, 0, |e|);
    vol.AppendCluster(cluster, alloc);
    if kept {
      AppendSingleton(chains0, cluster, alloc);
      WrittenThenLinked(vol.boot, vol.limit, disk0, chains0, disk1, disk2, vol.dev.disk, vol.chains, cluster, alloc, e);
    } else {
      ChainInVolume(FatOf(vol.boot, disk1), vol.limit, chains0, cluster);
      LinkedStray(FatOf(vol.boot, disk0), vol.limit, chains0, cluster, alloc, FatOf(vol.boot, disk1),
                  FatOf(vol.boot, vol.dev.disk));
    }
    return 0, kept;
  }

  /** `after` is `dir` with entry `k` set to `e`; `stale` is `dir` with what lay behind it. */
  ghost predicate DirChange(dir: seq<byte>, stale: seq<byte>, after: seq<byte>, k: nat, e: Entry) {
    dir <= stale && |dir| % 32 == 0 && Replaced(stale, after, k, e)
  }

  lemma WrittenBasics(boot: Boot, limit: nat, disk0: Disk, chains0: Chains, disk: Disk, chains: Chains,
                      cluster: nat, offset: nat, data: seq<byte>)
    requires Written(boot, limit, disk0, chains0, disk, chains, cluster, offset, data)
    ensures Layout(boot, limit, disk0) && Layout(boot, limit, disk)
    ensures cluster in chains0 && cluster in chains && InVolume(limit, chains[cluster])
  {
  }

  lemma EntryWrittenDir(boot: Boot, limit: nat, disk0: Disk, chains0: Chains, disk: Disk, chains: Chains,
                        cluster: nat, k: nat, e: Entry)
    requires EntryWritten(boot, limit, disk0, chains0, disk, chains, cluster, k, e)
    requires InVolume(limit, chains0[cluster]) && 32 * k <= FileSpan(boot, chains0[cluster])
    ensures DirChange(FileBytes(boot, limit, disk0, chains0[cluster]), FileBytes(boot, limit, disk0, chains[cluster]),
                      FileBytes(boot, limit, disk, chains[cluster]), k, e)
  {
    hide Written, FileBytes, HasFats, HasCluster;
    WrittenBasics(boot, limit, disk0, chains0, disk, chains, cluster, 32 * k, e);
    WriteSplices(boot, limit, disk0, chains0, disk, chains, cluster, 32 * k, e);
    var dir, stale := FileBytes(boot, limit, disk0, chains0[cluster]), FileBytes(boot, limit, disk0, chains[cluster]);
    var after := FileBytes(boot, limit, disk, chains[cluster]);
    assert dir[..32 * k] == stale[..32 * k];
    SpliceReplaces(stale, after, k, e);
    SpanInEntries(|chains0[cluster]|, boot.sectorsPerCluster);
  }

  /** Every chain but `cluster` is kept, with its bytes. */
  ghost predicate OthersKept(boot: Boot, limit: nat, disk0: Disk, chains0: Chains, disk: Disk, chains: Chains,
                             cluster: nat) {
    && Layout(boot, limit, disk0) && Layout(boot, limit, disk)
    && forall h :: h in chains0 && h != cluster ==> FileKept(boot, limit, disk0, chains0, disk, chains, h)
  }

  ghost predicate FileKept(boot: Boot, limit: nat, disk0: Disk, chains0: Chains, disk: Disk, chains: Chains, h: nat)
    requires Layout(boot, limit, disk0) && Layout(boot, limit, disk) && h in chains0
  {
    && h in chains && chains[h] == chains0[h] && InVolume(limit, chains[h])
    && FileBytes(boot, limit, disk, chains[h]) == FileBytes(boot, limit, disk0, chains0[h])
  }

  lemma WrittenKeepsOthers(boot: Boot, limit: nat, disk0: Disk, chains0: Chains, disk: Disk, chains: Chains,
                           cluster: nat, offset: nat, data: seq<byte>)
    requires Written(boot, limit, disk0, chains0, disk, chains, cluster, offset, data)
    ensures OthersKept(boot, limit, disk0, chains0, disk, chains, cluster)
  {
    hide Overlay, OthersSame, Partition, FileBytes, HasFats, Mirrored, HasCluster;
    forall h | h in chains0 && h != cluster ensures FileKept(boot, limit, disk0, chains0, disk, chains, h) {
      WriteKeepsOthers(boot, limit, disk0, chains0, disk, chains, cluster, offset, data, h);
    }
  }

  lemma FatsOnlyBytes(boot: Boot, limit: nat, disk: Disk, disk': Disk, chain: seq<nat>)
    requires Layout(boot, limit, disk) && SameOutsideFats(boot, disk, disk') && InVolume(limit, chain)
    ensures Layout(boot, limit, disk')
    ensures FileBytes(boot, limit, disk', chain) == FileBytes(boot, limit, disk, chain)
  {
    LayoutFrame(boot, limit, disk, disk');
    FatsOnlyAllSame(boot, limit, disk, disk');
    FileBytesFrame(boot, limit, disk, disk', [], chain);
  }

  /** A step that changes only the tables, followed by one that keeps the other files. */
  lemma FatsThenKept(boot: Boot, limit: nat, disk0: Disk, chains0: Chains, disk1: Disk, chains1: Chains, disk2: Disk,
                     chains2: Chains, cluster: nat, h: nat)
    requires Layout(boot, limit, disk0) && SameOutsideFats(boot, disk0, disk1)
    requires h in chains0 && h in chains1 && chains1[h] == chains0[h] && h != cluster && InVolume(limit, chains0[h])
    requires OthersKept(boot, limit, disk1, chains1, disk2, chains2, cluster)
    ensures FileKept(boot, limit, disk0, chains0, disk2, chains2, h)
  {
    hide FileBytes, HasFats, HasCluster;
    FatsOnlyBytes(boot, limit, disk0, disk1, chains0[h]);
    assert FileKept(boot, limit, disk1, chains1, disk2, chains2, h);
  }

  /** The volume after a file was created: one new chain, one new directory entry. */
  ghost predicate Created(boot: Boot, limit: nat, disk0: Disk, chains0: Chains, disk: Disk, chains: Chains,
                          cluster: nat, c: nat, k: nat, e: Entry)
  {
    && Layout(boot, limit, disk0) && Layout(boot, limit, disk)
    && cluster in chains0 && cluster in chains && c !in chains0 && c in chains && chains[c] == [c]
    && InVolume(limit, chains0[cluster]) && InVolume(limit, chains[cluster])
    && (forall h :: h in chains0 && h != cluster ==> FileKept(boot, limit, disk0, chains0, disk, chains, h))
    && InsertsAt(FileBytes(boot, limit, disk0, chains0[cluster]), k)
    && (InDir(FileBytes(boot, limit, disk0, chains0[cluster]), k) ==> chains[cluster] == chains0[cluster])
    && DirChange(FileBytes(boot, limit, disk0, chains0[cluster]), FileBytes(boot, limit, disk0, chains[cluster]),
                 FileBytes(boot, limit, disk, chains[cluster]), k, e)
  }

  lemma CreatedBySteps(boot: Boot, limit: nat, disk0: Disk, chains0: Chains, disk1: Disk, chains1: Chains, disk2: Disk,
                       chains2: Chains, cluster: nat, c: nat, k: nat, e: Entry)
    requires Wf(boot, limit, disk0, chains0) && cluster in chains0 && c !in chains0
    requires Wf(boot, limit, disk1, chains1) && chains1 == chains0[c := [c]] && SameOutsideFats(boot, disk0, disk1)
    requires EntryWritten(boot, limit, disk1, chains1, disk2, chains2, cluster, k, e)
    requires InVolume(limit, chains0[cluster]) && InsertsAt(FileBytes(boot, limit, disk1, chains0[cluster]), k)
    requires InDir(FileBytes(boot, limit, disk1, chains0[cluster]), k) ==> chains2 == chains1
    ensures Created(boot, limit, disk0, chains0, disk2, chains2, cluster, c, k, e)
  {
    hide Overlay, OthersSame, Partition, FileBytes, HasFats, Mirrored, HasCluster, InsertsAt, DirChange;
    assert 32 * k <= FileSpan(boot, chains0[cluster]) by {
      InsertBound(FileBytes(boot, limit, disk1, chains0[cluster]), k);
    }
    EntryWrittenDir(boot, limit, disk1, chains1, disk2, chains2, cluster, k, e);
    FatsOnlyBytes(boot, limit, disk0, disk1, chains0[cluster]);
    FatsOnlyBytes(boot, limit, disk0, disk1, chains2[cluster]);
    WrittenKeepsOthers(boot, limit, disk1, chains1, disk2, chains2, cluster, 32 * k, e);
    forall h | h in chains0 && h != cluster ensures FileKept(boot, limit, disk0, chains0, disk2, chains2, h) {
      ChainInVolume(FatOf(boot, disk0), limit, chains0, h);
      FatsThenKept(boot, limit, disk0, chains0, disk1, chains1, disk2, chains2, cluster, h);
    }
  }

  lemma InsertBound(dir: seq<byte>, k: nat)
    requires InsertsAt(dir, k)
    ensures 32 * k <= |dir|
  {
  }
}
