/** A mounted FAT32 volume: the table operations and byte-granular reads and writes along a
    cluster chain, on the sectors of a cached block device. */
module Fat32Volume {
  import opened Bytes
  import opened BlockCache
  import opened DivMod
  import opened FatTable
  import opened Fat32Layout
  import opened Fat32Bytes
  import opened Fat32Write

  const ERROR_WRITE_FAIL: int := -8

  class Volume {
    const dev: BlockDevice
    const boot: Boot
    const limit: nat             // one past the last cluster; the driver never looks at it
    ghost var chains: Chains

    constructor (dev: BlockDevice, boot: Boot, limit: nat, ghost chains: Chains)
      requires dev.Valid() && Wf(boot, limit, dev.disk, chains)
      ensures this.dev == dev && this.boot == boot && this.limit == limit && this.chains == chains
      ensures Valid()
    {
      this.dev, this.boot, this.limit, this.chains := dev, boot, limit, chains;
    }

    ghost predicate Valid()
      reads this, dev
    {
      dev.Valid() && Wf(boot, limit, dev.disk, chains)
    }

    /** `fat32_fat_read`. */
    method FatRead(current: nat) returns (v: nat)
      requires dev.Valid()
      modifies dev`cache, dev`cacheNext
      ensures dev.Valid()
      ensures HasFats(boot, dev.disk) && current < boot.fatSize * 128 ==> v == Entry(boot, dev.disk, current)
    {
      var status, buf := dev.ReadSector(boot.begin + boot.reserved + current / 128);
      v := Word(buf, current % 128);
    }

    /** `fat32_write_fat`: one entry, in both tables. */
    method WriteFat(cluster: nat, data: nat)
      requires dev.Valid() && HasFats(boot, dev.disk) && Mirrored(boot, dev.disk)
      requires cluster < boot.fatSize * 128 && data < 0x1_0000_0000
      modifies dev
      ensures dev.Valid() && HasFats(boot, dev.disk) && Mirrored(boot, dev.disk)
      ensures FatOf(boot, dev.disk) == old(FatOf(boot, dev.disk))[cluster := data]
      ensures SameOutsideFats(boot, old(dev.disk), dev.disk)
    {
      WithEntryFat(boot, dev.disk, cluster, data);
      var sect := boot.begin + boot.reserved + cluster / 128;
      var status, buf := dev.ReadSector(sect);
      buf := SetWord(buf, cluster % 128, data);
      status := dev.WriteSector(sect, buf);
      status := dev.WriteSector(sect + boot.fatSize, buf);
      assert dev.disk == WithEntry(boot, old(dev.disk), cluster, data);
    }

    /** `fat32_offset_cluster`: the cluster that holds byte `offset` of a chain, 0 past its end. */
    method OffsetCluster(cluster: nat, offset: nat) returns (clus: nat)
      requires Valid() && cluster in chains
      modifies dev`cache, dev`cacheNext
      ensures Valid()
      ensures clus == ClusterAt(chains[cluster], boot.ClusterIndex(offset))
    {
      DivDiv(offset, boot.sectorsPerCluster);
      assert ChainAt(FatOf(boot, dev.disk), limit, chains, cluster);
      clus := WalkChain(cluster, Div(offset / 512, boot.sectorsPerCluster), chains[cluster]);
    }

    ghost predicate OnChain(cluster: nat, chain: seq<nat>)
      reads this, dev
    {
      && dev.Valid() && HasFats(boot, dev.disk)
      && limit <= boot.fatSize * 128 && limit <= BAD_CLUSTER
      && IsChain(FatOf(boot, dev.disk), limit, chain) && chain[0] == cluster
    }

    /** The loop of `fat32_offset_cluster`: follow `count` links. */
    method WalkChain(cluster: nat, count: nat, ghost chain: seq<nat>) returns (clus: nat)
      requires OnChain(cluster, chain)
      modifies dev`cache, dev`cacheNext
      ensures dev.Valid()
      ensures clus == ClusterAt(chain, count)
    {
      ghost var fat := FatOf(boot, dev.disk);
      var n := count;
      ghost var i: nat := 0;
      clus := cluster;
      while n > 0
        invariant dev.Valid() && 0 <= n && i + n == count
        invariant i < |chain| && clus == chain[i]
      {
        n := n - 1;
        MemberEntry(fat, limit, chain, clus);
        clus := FatRead(clus);
        if clus >= END_MIN {
          return 0;
        }
        assert Link(fat, chain, i);
        i := i + 1;
      }
    }

    /** `fat32_append_cluster`: link the last cluster of one chain to `endCluster`, whatever that is; the head of
        another chain makes the two chains one. */
    method AppendCluster(beginCluster: nat, endCluster: nat)
      requires Valid() && beginCluster in chains && endCluster < 0x1_0000_0000
      modifies dev, this`chains
      ensures dev.Valid() && HasFats(boot, dev.disk) && SameOutsideFats(boot, old(dev.disk), dev.disk)
      ensures Last(old(chains[beginCluster])) < |old(FatOf(boot, dev.disk))|
      ensures FatOf(boot, dev.disk) == old(FatOf(boot, dev.disk))[Last(old(chains[beginCluster])) := endCluster]
      ensures endCluster in old(chains) && endCluster != beginCluster ==>
        && Valid() && chains == old(Appended(chains, beginCluster, endCluster))
        && FreeClusters(FatOf(boot, dev.disk), limit) == old(FreeClusters(FatOf(boot, dev.disk), limit))
      ensures !(endCluster in old(chains) && endCluster != beginCluster) ==> chains == old(chains)
    {
      ghost var fat := FatOf(boot, dev.disk);
      ChainInVolume(fat, limit, chains, beginCluster);
      var clus := LastCluster(beginCluster, chains[beginCluster]);
      WriteFat(clus, endCluster);
      LayoutFrame(boot, limit, old(dev.disk), dev.disk);
      if endCluster in chains && endCluster != beginCluster {
        AppendKeepsPartition(fat, limit, chains, beginCluster, endCluster);
        chains := Appended(chains, beginCluster, endCluster);
      }
    }

    /** The walk of `fat32_append_cluster` to the end of a chain. */
    method LastCluster(cluster: nat, ghost chain: seq<nat>) returns (clus: nat)
      requires OnChain(cluster, chain)
      modifies dev`cache, dev`cacheNext
      ensures dev.Valid() && clus == Last(chain)
    {
      ghost var fat := FatOf(boot, dev.disk);
      clus := cluster;
      ghost var i: nat := 0;
      MemberEntry(fat, limit, chain, clus);
      var next := FatRead(clus);
      while next < END_MIN
        invariant dev.Valid() && i < |chain| && clus == chain[i] && next == fat[clus]
        decreases |chain| - i
      {
        MemberEntry(fat, limit, chain, clus);
        assert Link(fat, chain, i);
        i := i + 1;
        clus := next;
        MemberEntry(fat, limit, chain, clus);
        next := FatRead(clus);
      }
      MemberEntry(fat, limit, chain, clus);
    }

    /** `fat32_free_chain`: zero the entry of every cluster of a chain. */
    method FreeChain(cluster: nat)
      requires Valid() && cluster in chains
      modifies dev, this`chains
      ensures Valid()
      ensures chains == old(chains) - {cluster}
      ensures FreeClusters(FatOf(boot, dev.disk), limit) ==
        old(FreeClusters(FatOf(boot, dev.disk), limit)) + (set c | c in old(chains[cluster]))
      ensures SameOutsideFats(boot, old(dev.disk), dev.disk)
    {
      ghost var chain, fat := chains[cluster], FatOf(boot, dev.disk);
      assert ChainAt(fat, limit, chains, cluster);
      ClearEntries(cluster, chain);
      FreeKeepsPartition(fat, limit, chains, cluster);
      LayoutFrame(boot, limit, old(dev.disk), dev.disk);
      chains := chains - {cluster};
    }

    /** The loop of `fat32_free_chain`, on the table alone. */
    method ClearEntries(cluster: nat, ghost chain: seq<nat>)
      requires OnChain(cluster, chain) && Mirrored(boot, dev.disk)
      modifies dev
      ensures dev.Valid() && HasFats(boot, dev.disk) && Mirrored(boot, dev.disk)
      ensures SameOutsideFats(boot, old(dev.disk), dev.disk)
      ensures FatOf(boot, dev.disk) == Cleared(old(FatOf(boot, dev.disk)), chain)
    {
      ghost var fat := FatOf(boot, dev.disk);
      var clus := cluster;
      ghost var i: nat := 0;
      while true
        invariant dev.Valid() && HasFats(boot, dev.disk) && Mirrored(boot, dev.disk)
        invariant SameOutsideFats(boot, old(dev.disk), dev.disk)
        invariant i < |chain| && clus == chain[i]
        invariant FatOf(boot, dev.disk) == Cleared(fat, chain[..i])
        decreases |chain| - i
      {
        MemberEntry(fat, limit, chain, clus);
        ghost var now := FatOf(boot, dev.disk);
        assert now[clus] == fat[clus];
        var next := FatRead(clus);
        assert next == fat[clus];
        WriteFat(clus, 0);
        assert chain[..i + 1] == chain[..i] + [clus];
        assert FatOf(boot, dev.disk) == Cleared(fat, chain[..i + 1]);
        if next >= END_MIN {
          assert chain[..i + 1] == chain;
          break;
        }
        assert Link(fat, chain, i);
        clus := next;
        i := i + 1;
      }
    }

    /** `fat32_allocate_cluster`: the lowest free entry of the table, 0 if none is free. It is a cluster of the
        volume, and then a chain of its own, exactly if the volume has a free one. */
    method AllocateCluster() returns (cluster: nat)
      requires Valid()
      modifies dev, this`chains
      ensures Valid() && SameOutsideFats(boot, old(dev.disk), dev.disk)
      ensures Allocates(old(FatOf(boot, dev.disk)), cluster, FatOf(boot, dev.disk))
      ensures cluster == 0 ==> dev.disk == old(dev.disk)
      ensures 2 <= cluster < limit <==> old(FreeClusters(FatOf(boot, dev.disk), limit)) != {}
      ensures 2 <= cluster < limit ==>
        && !Owned(old(chains), cluster) && cluster !in old(chains)
        && chains == old(chains)[cluster := [cluster]]
        && FreeClusters(FatOf(boot, dev.disk), limit) == old(FreeClusters(FatOf(boot, dev.disk), limit)) - {cluster}
      ensures !(2 <= cluster < limit) ==> chains == old(chains) && FreeClusters(FatOf(boot, dev.disk), limit) == {}
    {
      ghost var fat0 := FatOf(boot, dev.disk);
      var found, c := TakeLowestFree();
      assert !found ==> c == 0;
      assert Allocates(fat0, c, FatOf(boot, dev.disk));
      AllocatesInVolume(fat0, limit, c, FatOf(boot, dev.disk));
      LayoutFrame(boot, limit, old(dev.disk), dev.disk);
      if 2 <= c < limit {
        AllocateKeepsPartition(fat0, limit, chains, c);
        chains := chains[c := [c]];
      } else {
        AllocateBeyond(fat0, limit, chains, c, FatOf(boot, dev.disk));
      }
      return c;
    }

    /** The scan of `fat32_allocate_cluster` over the table, sector by sector. */
    method TakeLowestFree() returns (found: bool, cluster: nat)
      requires dev.Valid() && HasFats(boot, dev.disk) && Mirrored(boot, dev.disk)
      modifies dev
      ensures dev.Valid() && HasFats(boot, dev.disk) && Mirrored(boot, dev.disk)
      ensures found ==> LowestFree(old(FatOf(boot, dev.disk)), cluster)
      ensures found ==> FatOf(boot, dev.disk) == old(FatOf(boot, dev.disk))[cluster := END_MARK]
      ensures !found ==> dev.disk == old(dev.disk) && cluster == 0
      ensures !found ==> forall c :: 0 <= c < |old(FatOf(boot, dev.disk))| ==> old(FatOf(boot, dev.disk))[c] != 0
      ensures SameOutsideFats(boot, old(dev.disk), dev.disk)
    {
      hide Word, SetWord;
      ghost var disk0, fat0 := dev.disk, FatOf(boot, dev.disk);
      var fat := 0;
      while fat < boot.fatSize
        invariant 0 <= fat <= boot.fatSize
        invariant dev.Valid() && dev.disk == disk0
        invariant forall c :: 0 <= c < fat * 128 ==> fat0[c] != 0
      {
        var sect := boot.begin + boot.reserved + fat;
        var status, buf := dev.ReadSector(sect);
        var i := 0;
        while i < 128
          invariant 0 <= i <= 128
          invariant dev.Valid() && dev.disk == disk0
          invariant forall c :: 0 <= c < fat * 128 + i ==> fat0[c] != 0
        {
          ghost var c := fat * 128 + i;
          assert c / 128 == fat && c % 128 == i;
          assert fat0[c] == Word(buf, i);
          if Word(buf, i) == 0 {
            WithEntryFat(boot, disk0, c, END_MARK);
            buf := SetWord(buf, i, END_MARK);
            status := dev.WriteSector(sect, buf);
            status := dev.WriteSector(sect + boot.fatSize, buf);
            assert dev.disk == WithEntry(boot, disk0, c, END_MARK);
            return true, fat * 128 + i;
          }
          i := i + 1;
        }
        fat := fat + 1;
      }
      return false, 0;
    }

    /** `fat32_read_cluster`: `size` bytes from byte `begin` of the sectors of a cluster. */
    method ReadCluster(cluster: nat, begin: nat, size: nat) returns (dest: seq<byte>)
      requires dev.Valid()
      modifies dev`cache, dev`cacheNext
      ensures dev.Valid()
      ensures |dest| == size
      ensures forall p: nat :: p < size && boot.ClusterBase(cluster) + (begin + p) / SECTOR_SIZE in dev.disk ==>
        dest[p] == ByteAt(dev.disk, boot.ClusterBase(cluster), begin + p)
    {
      var base := boot.ClusterBase(cluster);
      dest := [];
      while |dest| < size
        invariant dev.Valid() && |dest| <= size
        invariant forall p: nat :: p < |dest| && base + (begin + p) / SECTOR_SIZE in dev.disk ==>
          dest[p] == ByteAt(dev.disk, base, begin + p)
      {
        var pos := begin + |dest|;
        DivModAreQuotientRemainder(pos, SECTOR_SIZE);
        var copysize := Chunk(pos, begin + size, SECTOR_SIZE);
        var status, sect := dev.ReadSector(base + pos / SECTOR_SIZE);
        dest := dest + sect[pos % SECTOR_SIZE..pos % SECTOR_SIZE + copysize];
      }
    }

    /** `fat32_write_cluster`: store `src` at byte `begin` of the sectors of a cluster, up to the first sector the
        device does not have. */
    method WriteCluster(src: seq<byte>, cluster: nat, begin: nat) returns (status: int)
      requires dev.Valid()
      modifies dev
      ensures dev.Valid() && dev.disk.Keys == old(dev.disk.Keys)
      ensures HasRange(dev.disk, boot.ClusterBase(cluster), begin, |src|) ==>
        status == 0 && Patched(old(dev.disk), dev.disk, boot.ClusterBase(cluster), begin, src)
      ensures status != 0 ==> status == ERROR_WRITE_FAIL
      ensures forall s :: s in dev.disk && !Touches(boot.ClusterBase(cluster), begin, |src|, s) ==>
        dev.disk[s] == old(dev.disk)[s]
    {
      var base := boot.ClusterBase(cluster);
      ghost var disk0 := dev.disk;
      var off := 0;
      while off < |src|
        invariant dev.Valid() && 0 <= off <= |src|
        invariant Patched(disk0, dev.disk, base, begin, src[..off])
      {
        var pos := begin + off;
        DivModAreQuotientRemainder(pos, SECTOR_SIZE);
        var copysize := Chunk(pos, begin + |src|, SECTOR_SIZE);
        var sector := base + pos / SECTOR_SIZE;
        assert Touches(base, begin, |src|, sector);
        var sect;
        status, sect := dev.ReadSector(sector);
        ghost var disk1 := dev.disk;
        sect := Splice(sect, pos % SECTOR_SIZE, src[off..off + copysize]);
        status := dev.WriteSector(sector, sect);
        if status < 0 {
          return ERROR_WRITE_FAIL;
        }
        PatchSector(disk0, disk1, dev.disk, base, begin, src[..off], src[off..off + copysize], pos, sector);
        assert src[..off] + src[off..off + copysize] == src[..off + copysize];
        off := off + copysize;
      }
      assert src[..off] == src;
      status := 0;
    }

    /** `fat32_read`: `size` bytes from `offset`; those inside the chain are the file's. */
    method Read(cluster: nat, offset: nat, size: nat) returns (buf: seq<byte>)
      requires Valid() && cluster in chains && offset + size < 0x1_0000_0000
      modifies dev`cache, dev`cacheNext
      ensures Valid() && InVolume(limit, chains[cluster])
      ensures |buf| == size
      ensures Matches(boot, limit, dev.disk, chains[cluster], offset, buf)
    {
      hide Matches, Partition, HasFats, Mirrored, HasCluster, InVolume, IsChain, BlockDevice.Valid;
      ghost var disk0, chain := dev.disk, chains[cluster];
      ChainInVolume(FatOf(boot, disk0), limit, chains, cluster);
      var clussize := boot.ClusterSize();
      buf := [];
      assert Matches(boot, limit, disk0, chain, offset, buf) by { MatchesNothing(boot, limit, disk0, chain, offset); }
      while |buf| < size
        invariant dev.Valid() && |buf| <= size
        invariant Matches(boot, limit, disk0, chain, offset, buf)
      {
        var pos := offset + |buf|;
        var copysize := Chunk(pos, offset + size, clussize);
        var clus := OffsetCluster(cluster, pos);
        var part := ReadCluster(clus, Mod(pos, clussize), copysize);
        MatchesExtend(boot, limit, disk0, chain, offset, buf, part, pos, boot.ClusterBase(clus), Mod(pos, clussize));
        buf := buf + part;
      }
    }

    /** How `fat32_write` finds the cluster for `offset`, extending the chain by one when the offset is anywhere past
        its end. With nothing free it links the file to what is no cluster of the volume. */
    method ClusterForWrite(cluster: nat, offset: nat) returns (clus: nat)
      requires Valid() && cluster in chains
      modifies dev, this`chains
      ensures dev.Valid() && HasFats(boot, dev.disk) && SameOutsideFats(boot, old(dev.disk), dev.disk)
      ensures boot.ClusterIndex(offset) < |old(chains[cluster])| ==>
        && Valid() && dev.disk == old(dev.disk) && chains == old(chains)
        && clus == old(chains[cluster])[boot.ClusterIndex(offset)]
      ensures boot.ClusterIndex(offset) >= |old(chains[cluster])| ==>
        && Extends(old(FatOf(boot, dev.disk)), cluster, FatOf(boot, dev.disk))
        && (2 <= clus < limit <==> old(FreeClusters(FatOf(boot, dev.disk), limit)) != {})
      ensures boot.ClusterIndex(offset) >= |old(chains[cluster])| && 2 <= clus < limit ==>
        && Valid() && chains == old(chains)[cluster := old(chains[cluster]) + [clus]] && !Owned(old(chains), clus)
        && |FreeClusters(FatOf(boot, dev.disk), limit)| == |old(FreeClusters(FatOf(boot, dev.disk), limit))| - 1
    {
      hide IsChain, Partition, Allocates, BlockDevice.Valid, Mirrored, Extends, FatOf, HasFats, Div, FreeClusters;
      PastEnd(FatOf(boot, dev.disk), limit, chains, cluster, boot.ClusterIndex(offset));
      clus := OffsetCluster(cluster, offset);
      if clus == 0 {
        clus := ExtendChain(cluster);
      }
    }

    /** Allocate, then append: the file gets the lowest free cluster, or strays if the volume has none. */
    method ExtendChain(cluster: nat) returns (clus: nat)
      requires Valid() && cluster in chains
      modifies dev, this`chains
      ensures dev.Valid() && HasFats(boot, dev.disk) && SameOutsideFats(boot, old(dev.disk), dev.disk)
      ensures Extends(old(FatOf(boot, dev.disk)), cluster, FatOf(boot, dev.disk))
      ensures 2 <= clus < limit <==> old(FreeClusters(FatOf(boot, dev.disk), limit)) != {}
      ensures 2 <= clus < limit ==>
        && Valid() && chains == old(chains)[cluster := old(chains[cluster]) + [clus]] && !Owned(old(chains), clus)
        && |FreeClusters(FatOf(boot, dev.disk), limit)| == |old(FreeClusters(FatOf(boot, dev.disk), limit))| - 1
    {
      hide IsChain, Partition, Allocates, BlockDevice.Valid, Mirrored, Walks, LowestFree;
      ghost var fat0, chain := FatOf(boot, dev.disk), chains[cluster];
      ChainInVolume(fat0, limit, chains, cluster);
      clus := AllocateCluster();
      ghost var mid := FatOf(boot, dev.disk);
      ChainInVolume(mid, limit, chains, cluster);
      ChainWalks(mid, limit, chain);
      AllocatedFits(fat0, limit, old(chains), clus, mid);
      if 2 <= clus < limit {
        AppendSingleton(old(chains), cluster, clus);
      }
      AppendCluster(cluster, clus);
      assert ExtendsBy(fat0, cluster, FatOf(boot, dev.disk), clus, mid, chain);
    }

    /** One round of the loop of `fat32_write`: find or add the cluster for the next byte and store `src` there, which
        is at `place` of the file. The model follows the driver as far as the link that sends the file astray. */
    method WriteChunk(cluster: nat, pos: nat, src: seq<byte>, ghost disk0: Disk, ghost chains0: Chains,
                      ghost offset: nat, ghost data: seq<byte>, ghost place: nat) returns (kept: bool)
      requires dev.Valid() && Written(boot, limit, disk0, chains0, dev.disk, chains, cluster, offset, data)
      requires place == offset + |data| && 0 < |src|
      requires Mod(pos, boot.ClusterSize()) == Mod(place, boot.ClusterSize())
      requires Mod(pos, boot.ClusterSize()) + |src| <= boot.ClusterSize()
      requires boot.ClusterIndex(place) <= |chains[cluster]|
      requires pos == place || boot.ClusterIndex(place) == |chains[cluster]| <= boot.ClusterIndex(pos)
      modifies dev, this`chains
      ensures dev.Valid() && HasFats(boot, dev.disk)
      ensures kept <==>
        boot.ClusterIndex(place) < old(|chains[cluster]| + |FreeClusters(FatOf(boot, dev.disk), limit)|)
      ensures kept ==> Written(boot, limit, disk0, chains0, dev.disk, chains, cluster, offset, data + src)
      ensures kept ==> |chains[cluster]| == Max(old(|chains[cluster]|), boot.ClusterIndex(place) + 1)
      ensures !kept ==> !HasChain(FatOf(boot, dev.disk), limit, cluster)
    {
      ghost var disk1, chains1 := dev.disk, chains;
      var clus := ClusterForWrite(cluster, pos);
      if clus < 2 || clus >= limit {
        ChainInVolume(FatOf(boot, disk1), limit, chains1, cluster);
        ExtendedStray(FatOf(boot, disk1), limit, chains1, cluster, FatOf(boot, dev.disk));
        return false;
      }
      if boot.ClusterIndex(place) == |chains1[cluster]| {
        WrittenGrow(boot, limit, disk0, chains0, disk1, chains1, cluster, offset, data, dev.disk, chains, clus);
      }
      ghost var disk2 := dev.disk;
      var begin := Mod(pos, boot.ClusterSize());
      ClusterRange(boot, limit, disk2, chains[cluster], boot.ClusterIndex(place), begin, |src|);
      var status := WriteCluster(src, clus, begin);
      WrittenPatch(boot, limit, disk0, chains0, disk2, chains, cluster, offset, data, dev.disk, place, clus, begin,
                   src);
      kept := true;
    }

    /** `fat32_write`. The file keeps a chain exactly if it and the free clusters of the volume make room for the data;
        then it becomes its old bytes with `buf` laid over them, and nothing else changes. The data go to `offset`
        exactly if that is not beyond the cluster after the chain; otherwise they go right behind the chain. */
    method Write(cluster: nat, buf: seq<byte>, offset: nat) returns (r: nat, kept: bool)
      requires Valid() && cluster in chains && offset + |buf| < 0x1_0000_0000
      modifies dev, this`chains
      ensures dev.Valid() && HasFats(boot, dev.disk)
      ensures kept <==> RoomFor(boot, Placed(boot, old(|chains[cluster]|), offset), |buf|,
                                old(|chains[cluster]| + |FreeClusters(FatOf(boot, dev.disk), limit)|))
      ensures kept ==> Valid() && r == |buf|
      ensures kept ==> Written(boot, limit, old(dev.disk), old(chains), dev.disk, chains, cluster,
                               Placed(boot, old(|chains[cluster]|), offset), buf)
      ensures kept ==>
        |chains[cluster]| ==
        Grows(boot, old(|chains[cluster]|), Placed(boot, old(|chains[cluster]|), offset), |buf|)
      ensures !kept ==> !HasChain(FatOf(boot, dev.disk), limit, cluster)
    {
      hide Overlay, OthersSame, Partition, BlockDevice.Valid, IsChain, Mirrored, HasFats, HasCluster, FatOf,
        FreeClusters, HasChain, Placed, ClustersFor, Mod, Div;
      ghost var disk0, chains0 := dev.disk, chains;
      ghost var at := Placed(boot, |chains0[cluster]|, offset);
      NothingWritten(boot, limit, disk0, chains0, cluster, at);
      var clussize := boot.ClusterSize();
      var off := 0;
      while off < |buf|
        invariant dev.Valid() && 0 <= off <= |buf|
        invariant Written(boot, limit, disk0, chains0, dev.disk, chains, cluster, at, buf[..off])
        invariant |chains[cluster]| == Grows(boot, |chains0[cluster]|, at, off)
        invariant RoomFor(boot, at, off, |chains0[cluster]| + |FreeClusters(FatOf(boot, disk0), limit)|)
        invariant off == 0 || off == |buf| || Mod(at + off, clussize) == 0
      {
        var pos := offset + off;
        var copysize := Chunk(pos, offset + |buf|, clussize);
        PlaceOfChunk(boot, |chains0[cluster]|, offset, off, |chains[cluster]|);
        WriteNeeds(boot, at + off, copysize, at + |buf|);
        var ok := WriteChunk(cluster, pos, buf[off..off + copysize], disk0, chains0, at, buf[..off], at + off);
        if !ok {
          return off, false;
        }
        assert buf[..off] + buf[off..off + copysize] == buf[..off + copysize];
        if pos + copysize < offset + |buf| {
          NextAligned(boot, at + off, copysize);
        }
        off := off + copysize;
      }
      assert buf[..off] == buf;
      r, kept := |buf|, true;
    }

    /** A read of the range just written returns the data, if they went where they should. */
    method WriteThenRead(cluster: nat, buf: seq<byte>, offset: nat) returns (got: seq<byte>, kept: bool)
      requires Valid() && cluster in chains && offset + |buf| < 0x1_0000_0000
      modifies dev, this`chains
      ensures kept <==> RoomFor(boot, Placed(boot, old(|chains[cluster]|), offset), |buf|,
                                old(|chains[cluster]| + |FreeClusters(FatOf(boot, dev.disk), limit)|))
      ensures kept ==> Valid() && |got| == |buf|
      ensures kept && boot.ClusterIndex(offset) <= old(|chains[cluster]|) ==> got == buf
    {
      hide OthersSame, Partition, ClustersFor;
      ghost var disk0, chains0 := dev.disk, chains;
      var n;
      n, kept := Write(cluster, buf, offset);
      got := [];
      if kept {
        ghost var disk1, chain := dev.disk, chains[cluster];
        got := Read(cluster, offset, |buf|);
        if boot.ClusterIndex(offset) <= |chains0[cluster]| {
          forall k: nat | k < |buf| ensures got[k] == buf[k] {
            assert FileByte(boot, limit, disk1, chain, offset + k) ==
                   Overlaid(boot, limit, disk0, chain, offset, buf, offset + k);
          }
        }
      }
    }
  }

  lemma PastEnd(fat: Fat, limit: nat, chains: Chains, h: nat, n: nat)
    requires Partition(fat, limit, chains) && h in chains
    ensures ClusterAt(chains[h], n) == 0 <==> n >= |chains[h]|
  {
    ChainInVolume(fat, limit, chains, h);
  }

  lemma AllocatedFits(fat: Fat, limit: nat, chains: Chains, c: nat, fat': Fat)
    requires Partition(fat, limit, chains) && Allocates(fat, c, fat')
    ensures c < 0x1_0000_0000 && c != 1
    ensures 2 <= c < limit ==> c in FreeClusters(fat, limit)
  {
    AllocatesInVolume(fat, limit, c, fat');
  }

  /** Linking what the allocator answered on a volume without a free cluster. */
  lemma LinkedStray(fat: Fat, limit: nat, chains: Chains, a: nat, c: nat, mid: Fat, fat': Fat)
    requires Partition(fat, limit, chains) && a in chains && Allocates(fat, c, mid) && FreeClusters(fat, limit) == {}
    requires Partition(mid, limit, chains) && chains[a] != [] && Last(chains[a]) < |mid|
    requires fat' == mid[Last(chains[a]) := c]
    ensures !HasChain(fat', limit, a)
  {
    ChainInVolume(mid, limit, chains, a);
    ChainWalks(mid, limit, chains[a]);
    assert ExtendsBy(fat, a, fat', c, mid, chains[a]);
    ExtendedStray(fat, limit, chains, a, fat');
  }

  lemma ExtendedStray(fat: Fat, limit: nat, chains: Chains, a: nat, fat': Fat)
    requires Partition(fat, limit, chains) && a in chains && Extends(fat, a, fat') && FreeClusters(fat, limit) == {}
    ensures !HasChain(fat', limit, a)
  {
    RoundStrays(fat, limit, chains, a, fat');
    StraysOn([fat'], limit, chains[a]);
  }
}
