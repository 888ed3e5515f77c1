/** The state of a file write between two copy steps, and why each step keeps it. */
module Fat32Write {
  import opened Bytes
  import opened DivMod
  import opened FatTable
  import opened Fat32Layout
  import opened Fat32Bytes

  /** `data` has been written at `offset` of the file at `cluster`: its chain may have grown, its
      bytes are the old ones with `data` laid over, everything else is as it was on `disk0`. */
  ghost predicate Written(boot: Boot, limit: nat, disk0: Disk, chains0: Chains, disk: Disk, chains: Chains,
                          cluster: nat, offset: nat, data: seq<byte>)
  {
    && Layout(boot, limit, disk0) && Wf(boot, limit, disk, chains)
    && disk.Keys == disk0.Keys
    && cluster in chains0 && cluster in chains
    && chains == chains0[cluster := chains[cluster]]
    && chains0[cluster] <= chains[cluster]
    && InVolume(limit, chains[cluster])
    && (data == [] || offset + |data| <= FileSpan(boot, chains[cluster]))
    && HasFats(boot, disk0)
    && |FreeClusters(FatOf(boot, disk), limit)| + |chains[cluster]| ==
       |FreeClusters(FatOf(boot, disk0), limit)| + |chains0[cluster]|
    && Overlay(boot, limit, disk0, disk, chains[cluster], offset, data)
    && OthersSame(boot, limit, disk0, disk, chains[cluster])
  }

  lemma NothingWritten(boot: Boot, limit: nat, disk: Disk, chains: Chains, cluster: nat, offset: nat)
    requires Wf(boot, limit, disk, chains) && cluster in chains
    ensures Written(boot, limit, disk, chains, disk, chains, cluster, offset, [])
  {
    ChainInVolume(FatOf(boot, disk), limit, chains, cluster);
    UnchangedOverlay(boot, limit, disk, chains[cluster], offset);
  }

  /** Storing bytes in one cluster of the volume does not touch the tables. */
  lemma PatchKeepsWf(boot: Boot, limit: nat, disk: Disk, disk': Disk, chains: Chains, c: nat, begin: nat,
                     src: seq<byte>)
    requires Wf(boot, limit, disk, chains) && 2 <= c < limit
    requires Patched(disk, disk', boot.ClusterBase(c), begin, src)
    ensures Wf(boot, limit, disk', chains) && FatOf(boot, disk') == FatOf(boot, disk)
  {
    StoreKeepsWf(boot, limit, disk, disk', chains, c, begin, |src|);
  }

  /** Nor does storing anything in the sectors of a cluster number from 2 on, inside the volume or not. */
  lemma StoreKeepsWf(boot: Boot, limit: nat, disk: Disk, disk': Disk, chains: Chains, c: nat, begin: nat, size: nat)
    requires Wf(boot, limit, disk, chains) && 2 <= c && disk'.Keys == disk.Keys
    requires forall s :: s in disk && !Touches(boot.ClusterBase(c), begin, size, s) ==> disk'[s] == disk[s]
    ensures Wf(boot, limit, disk', chains) && FatOf(boot, disk') == FatOf(boot, disk)
  {
    LayoutFrame(boot, limit, disk, disk');
    boot.ClusterAfterFats(c);
    forall s | boot.FatStart() <= s < boot.FatStart() + 2 * boot.fatSize ensures disk'[s] == disk[s] {
      assert s in disk;
      assert !Touches(boot.ClusterBase(c), begin, size, s);
    }
    forall i: nat | i < boot.fatSize * 128 ensures Entry(boot, disk', i) == Entry(boot, disk, i) {
      assert i / 128 < boot.fatSize;
    }
    assert FatOf(boot, disk') == FatOf(boot, disk);
  }

  lemma WrittenGrow(boot: Boot, limit: nat, disk0: Disk, chains0: Chains, disk: Disk, chains: Chains,
                    cluster: nat, offset: nat, data: seq<byte>, disk': Disk, chains': Chains, x: nat)
    requires Written(boot, limit, disk0, chains0, disk, chains, cluster, offset, data)
    requires Wf(boot, limit, disk', chains') && SameOutsideFats(boot, disk, disk')
    requires chains' == chains[cluster := chains[cluster] + [x]] && !Owned(chains, x) && 2 <= x < limit
    requires |FreeClusters(FatOf(boot, disk'), limit)| == |FreeClusters(FatOf(boot, disk), limit)| - 1
    ensures Written(boot, limit, disk0, chains0, disk', chains', cluster, offset, data)
  {
    hide Overlay, OthersSame, Partition;
    assert !Owns(chains, cluster, x);
    GrowBytes(boot, limit, disk0, disk, disk', chains[cluster], x, offset, data);
  }

  lemma GrowBytes(boot: Boot, limit: nat, disk0: Disk, disk: Disk, disk': Disk, chain: seq<nat>, x: nat,
                  offset: nat, data: seq<byte>)
    requires Layout(boot, limit, disk0) && Layout(boot, limit, disk) && SameOutsideFats(boot, disk, disk')
    requires InVolume(limit, chain) && 2 <= x < limit && x !in chain
    requires data == [] || offset + |data| <= FileSpan(boot, chain)
    requires Overlay(boot, limit, disk0, disk, chain, offset, data) && OthersSame(boot, limit, disk0, disk, chain)
    ensures Layout(boot, limit, disk') && InVolume(limit, chain + [x])
    ensures Overlay(boot, limit, disk0, disk', chain + [x], offset, data)
    ensures OthersSame(boot, limit, disk0, disk', chain + [x])
    ensures data == [] || offset + |data| <= FileSpan(boot, chain + [x])
  {
    LayoutFrame(boot, limit, disk, disk');
    FatsOnlyAllSame(boot, limit, disk, disk');
    FatsOnlyOverlay(boot, limit, disk0, disk, disk', chain, offset, data);
    assert InVolume(limit, chain + [x]);
    OverlayGrow(boot, limit, disk0, disk', chain, x, offset, data);
    Distribute(|chain|, -1, boot.ClusterSize());
  }

  lemma WrittenPatch(boot: Boot, limit: nat, disk0: Disk, chains0: Chains, disk: Disk, chains: Chains,
                     cluster: nat, offset: nat, data: seq<byte>, disk': Disk, pos: nat, c: nat, begin: nat,
                     src: seq<byte>)
    requires Written(boot, limit, disk0, chains0, disk, chains, cluster, offset, data)
    requires pos == offset + |data| && boot.ClusterIndex(pos) < |chains[cluster]|
    requires c == chains[cluster][boot.ClusterIndex(pos)] && begin == Mod(pos, boot.ClusterSize())
    requires begin + |src| <= boot.ClusterSize() && 0 < |src|
    requires Patched(disk, disk', boot.ClusterBase(c), begin, src)
    ensures Written(boot, limit, disk0, chains0, disk', chains, cluster, offset, data + src)
  {
    var chain := chains[cluster];
    ChainInVolume(FatOf(boot, disk), limit, chains, cluster);
    hide Overlay, OthersSame, Partition;
    PatchKeepsWf(boot, limit, disk, disk', chains, c, begin, src);
    OverlayPatch(boot, limit, disk0, disk, disk', chain, offset, data, pos, src);
    OthersSamePatch(boot, limit, disk0, disk, disk', chain, c, begin, src);
    ClustersForChunk(boot, pos, |src|);
    MulMono(boot.ClusterIndex(pos) + 1, |chain|, boot.ClusterSize());
  }

  lemma MulMono(a: int, b: int, m: int)
    requires a <= b && m >= 0
    ensures a * m <= b * m
  {
  }

  /** A write that fills a cluster before linking it: `x` is allocated, patched and then appended. */
  lemma WrittenThenLinked(boot: Boot, limit: nat, disk0: Disk, chains0: Chains, disk1: Disk, disk2: Disk, disk3: Disk,
                          chains3: Chains, cluster: nat, x: nat, src: seq<byte>)
    requires Wf(boot, limit, disk0, chains0) && Wf(boot, limit, disk3, chains3) && cluster in chains0
    requires chains3 == chains0[cluster := chains0[cluster] + [x]] && 2 <= x < limit && !Owned(chains0, x)
    requires SameOutsideFats(boot, disk0, disk1) && SameOutsideFats(boot, disk2, disk3)
    requires Patched(disk1, disk2, boot.ClusterBase(x), 0, src) && 0 < |src| <= boot.ClusterSize()
    requires |FreeClusters(FatOf(boot, disk3), limit)| == |FreeClusters(FatOf(boot, disk0), limit)| - 1
    ensures Written(boot, limit, disk0, chains0, disk3, chains3, cluster, FileSpan(boot, chains0[cluster]), src)
  {
    hide Overlay, OthersSame, Partition, HasFats, Mirrored, HasCluster, Patched;
    var chain := chains3[cluster];
    assert !Owns(chains0, cluster, x);
    ChainInVolume(FatOf(boot, disk3), limit, chains3, cluster);
    LinkedBytes(boot, limit, disk0, disk1, disk2, disk3, chains0[cluster], x, src);
  }

  lemma LinkedBytes(boot: Boot, limit: nat, disk0: Disk, disk1: Disk, disk2: Disk, disk3: Disk, chain0: seq<nat>,
                    x: nat, src: seq<byte>)
    requires Layout(boot, limit, disk0) && InVolume(limit, chain0 + [x]) && Distinct(chain0 + [x])
    requires SameOutsideFats(boot, disk0, disk1) && SameOutsideFats(boot, disk2, disk3)
    requires 2 <= x < limit && Patched(disk1, disk2, boot.ClusterBase(x), 0, src) && 0 < |src| <= boot.ClusterSize()
    ensures Layout(boot, limit, disk3) && disk3.Keys == disk0.Keys
    ensures Overlay(boot, limit, disk0, disk3, chain0 + [x], FileSpan(boot, chain0), src)
    ensures OthersSame(boot, limit, disk0, disk3, chain0 + [x])
    ensures FileSpan(boot, chain0) + |src| <= FileSpan(boot, chain0 + [x])
  {
    hide Overlay, OthersSame, Patched;
    var chain, offset := chain0 + [x], FileSpan(boot, chain0);
    assert disk2.Keys == disk1.Keys by { PatchedKeys(disk1, disk2, boot.ClusterBase(x), 0, src); }
    LayoutFrame(boot, limit, disk0, disk1);
    LayoutFrame(boot, limit, disk1, disk2);
    LayoutFrame(boot, limit, disk2, disk3);
    UnchangedOverlay(boot, limit, disk0, chain, offset);
    FatsOnlyAllSame(boot, limit, disk0, disk1);
    FatsOnlyOverlay(boot, limit, disk0, disk0, disk1, chain, offset, []);
    Distribute(|chain0|, -1, boot.ClusterSize());
    DivModUnique(offset, boot.ClusterSize(), |chain0|, 0);
    OverlayPatch(boot, limit, disk0, disk1, disk2, chain, offset, [], offset, src);
    assert [] + src == src;
    OthersSamePatch(boot, limit, disk0, disk1, disk2, chain, x, 0, src);
    FatsOnlyAllSame(boot, limit, disk2, disk3);
    FatsOnlyOverlay(boot, limit, disk0, disk2, disk3, chain, offset, src);
  }

  lemma PatchedKeys(disk: Disk, disk': Disk, base: int, begin: nat, src: seq<byte>)
    requires Patched(disk, disk', base, begin, src)
    ensures disk'.Keys == disk.Keys
  {
  }

  lemma UnchangedOverlay(boot: Boot, limit: nat, disk: Disk, chain: seq<nat>, offset: nat)
    requires Layout(boot, limit, disk) && InVolume(limit, chain)
    ensures Overlay(boot, limit, disk, disk, chain, offset, [])
    ensures OthersSame(boot, limit, disk, disk, chain)
  {
    forall c: nat | 2 <= c < limit ensures SameCluster(boot, disk, disk, c) {
      assert HasCluster(boot, disk, c);
    }
  }

  /** After a write the file reads: the old bytes up to `offset`, the data, then the old bytes
      again; where the file grew past its old end, the old bytes are what the added clusters held. */
  ghost predicate Spliced(before: seq<byte>, after: seq<byte>, stale: seq<byte>, offset: nat, data: seq<byte>) {
    && |before| <= |stale| == |after| && offset + |data| <= |after|
    && before == stale[..|before|]
    && after == stale[..offset] + data + stale[offset + |data|..]
  }

  lemma WriteSplices(boot: Boot, limit: nat, disk0: Disk, chains0: Chains, disk: Disk, chains: Chains,
                     cluster: nat, offset: nat, data: seq<byte>)
    requires Written(boot, limit, disk0, chains0, disk, chains, cluster, offset, data)
    requires InVolume(limit, chains0[cluster]) && (data != [] || offset <= FileSpan(boot, chains[cluster]))
    ensures Spliced(FileBytes(boot, limit, disk0, chains0[cluster]), FileBytes(boot, limit, disk, chains[cluster]),
                    FileBytes(boot, limit, disk0, chains[cluster]), offset, data)
  {
    hide Overlay, OthersSame, Partition;
    OverlaySplices(boot, limit, disk0, disk, chains0[cluster], chains[cluster], offset, data);
  }

  lemma OverlaySplices(boot: Boot, limit: nat, disk0: Disk, disk: Disk, chain0: seq<nat>, chain: seq<nat>,
                       offset: nat, data: seq<byte>)
    requires Layout(boot, limit, disk0) && Layout(boot, limit, disk)
    requires InVolume(limit, chain0) && InVolume(limit, chain) && chain0 <= chain
    requires offset + |data| <= FileSpan(boot, chain)
    requires Overlay(boot, limit, disk0, disk, chain, offset, data)
    ensures Spliced(FileBytes(boot, limit, disk0, chain0), FileBytes(boot, limit, disk, chain),
                    FileBytes(boot, limit, disk0, chain), offset, data)
  {
    var more := chain[|chain0|..];
    assert chain == chain0 + more;
    var before, after := FileBytes(boot, limit, disk0, chain0), FileBytes(boot, limit, disk, chain);
    var stale := FileBytes(boot, limit, disk0, chain);
    MulMono(|chain0|, |chain|, boot.ClusterSize());
    forall k: nat | k < |before| ensures before[k] == stale[k] {
      FileBytePrefix(boot, limit, disk0, chain0, more, k);
    }
    forall k: nat | k < |after|
      ensures after[k] == if offset <= k < offset + |data| then data[k - offset] else stale[k]
    {
      assert after[k] == FileByte(boot, limit, disk, chain, k) == Overlaid(boot, limit, disk0, chain, offset, data, k);
    }
  }

  /** Every other file keeps its bytes. */
  lemma WriteKeepsOthers(boot: Boot, limit: nat, disk0: Disk, chains0: Chains, disk: Disk, chains: Chains,
                         cluster: nat, offset: nat, data: seq<byte>, other: nat)
    requires Written(boot, limit, disk0, chains0, disk, chains, cluster, offset, data)
    requires other in chains0 && other != cluster
    ensures other in chains && chains[other] == chains0[other] && InVolume(limit, chains[other])
    ensures FileBytes(boot, limit, disk, chains[other]) == FileBytes(boot, limit, disk0, chains0[other])
  {
    hide Overlay;
    var theirs, mine := chains[other], chains[cluster];
    ChainInVolume(FatOf(boot, disk), limit, chains, other);
    forall i | 0 <= i < |theirs| ensures theirs[i] !in mine {
      assert Owns(chains, other, theirs[i]);
      assert !Owns(chains, cluster, theirs[i]);
    }
    FileBytesFrame(boot, limit, disk0, disk, mine, theirs);
  }
}
