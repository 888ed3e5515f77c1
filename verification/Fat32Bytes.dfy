/** The bytes of a file: byte `k` of a chain lies in its cluster number `k / clussize`. How one
    cluster write and one chain extension show up in those bytes. */
module Fat32Bytes {
  import opened Bytes
  import opened DivMod
  import opened FatTable
  import opened Fat32Layout

  ghost function ClusterByte(boot: Boot, disk: Disk, c: nat, p: nat): (b: byte)
    requires HasCluster(boot, disk, c) && p < boot.ClusterSize()
  {
    ByteAt(disk, boot.ClusterBase(c), p)
  }

  ghost function FileSpan(boot: Boot, chain: seq<nat>): (n: nat) {
    |chain| * boot.ClusterSize()
  }

  ghost function FileByte(boot: Boot, limit: nat, disk: Disk, chain: seq<nat>, k: nat): (b: byte)
    requires Layout(boot, limit, disk) && InVolume(limit, chain) && k < FileSpan(boot, chain)
  {
    DivBelow(k, boot.ClusterSize(), |chain|);
    assert HasCluster(boot, disk, chain[boot.ClusterIndex(k)]);
    ClusterByte(boot, disk, chain[boot.ClusterIndex(k)], Mod(k, boot.ClusterSize()))
  }

  /** The file a chain denotes, up to the end of its last cluster. */
  ghost function FileBytes(boot: Boot, limit: nat, disk: Disk, chain: seq<nat>): (s: seq<byte>)
    requires Layout(boot, limit, disk) && InVolume(limit, chain)
    ensures |s| == FileSpan(boot, chain)
    ensures forall k :: 0 <= k < |s| ==> s[k] == FileByte(boot, limit, disk, chain, k)
  {
    seq(FileSpan(boot, chain), k requires 0 <= k < FileSpan(boot, chain) => FileByte(boot, limit, disk, chain, k))
  }

  /** A file is the sectors of its clusters one after the other, where cluster 2 is the first behind the tables. */
  lemma FileIsSectors(boot: Boot, limit: nat, disk: Disk, chain: seq<nat>, i: nat, j: nat)
    requires Layout(boot, limit, disk) && InVolume(limit, chain) && i < |chain| && j < boot.sectorsPerCluster
    ensures var at := (i * boot.sectorsPerCluster + j) * SECTOR_SIZE;
      var lba := boot.begin + boot.reserved + 2 * boot.fatSize + (chain[i] - 2) * boot.sectorsPerCluster + j;
      && at + SECTOR_SIZE <= FileSpan(boot, chain) && lba in disk
      && FileBytes(boot, limit, disk, chain)[at..at + SECTOR_SIZE] == disk[lba]
  {
    var at, lba := (i * boot.sectorsPerCluster + j) * SECTOR_SIZE, boot.ClusterBase(chain[i]) + j;
    SectorInFile(i, j, boot.sectorsPerCluster, |chain|);
    assert HasCluster(boot, disk, chain[i]);
    assert lba in disk;
    hide FileByte, Layout, InVolume;
    forall p: nat | p < SECTOR_SIZE
      ensures at + p < FileSpan(boot, chain) && FileByte(boot, limit, disk, chain, at + p) == disk[lba][p]
    {
      FileSectorByte(boot, limit, disk, chain, i, j, p);
    }
  }

  lemma FileSectorByte(boot: Boot, limit: nat, disk: Disk, chain: seq<nat>, i: nat, j: nat, p: nat)
    requires Layout(boot, limit, disk) && InVolume(limit, chain) && i < |chain| && j < boot.sectorsPerCluster
    requires p < SECTOR_SIZE
    ensures var at, lba := (i * boot.sectorsPerCluster + j) * SECTOR_SIZE, boot.ClusterBase(chain[i]) + j;
      at + p < FileSpan(boot, chain) && lba in disk && FileByte(boot, limit, disk, chain, at + p) == disk[lba][p]
  {
    SectorInFile(i, j, boot.sectorsPerCluster, |chain|);
    assert HasCluster(boot, disk, chain[i]);
    DivModUnique((i * boot.sectorsPerCluster + j) * SECTOR_SIZE + p, boot.ClusterSize(), i, j * SECTOR_SIZE + p);
    assert (j * SECTOR_SIZE + p) / SECTOR_SIZE == j && (j * SECTOR_SIZE + p) % SECTOR_SIZE == p;
  }

  lemma SectorInFile(i: nat, j: nat, n: nat, length: nat)
    requires i < length && j < n
    ensures (i * n + j) * SECTOR_SIZE == i * (n * SECTOR_SIZE) + j * SECTOR_SIZE
    ensures (i * n + j) * SECTOR_SIZE + SECTOR_SIZE <= length * (n * SECTOR_SIZE)
    ensures j * SECTOR_SIZE + SECTOR_SIZE <= n * SECTOR_SIZE
  {
    var m: int, l: int, k: int := n * SECTOR_SIZE, length, i;
    assert i * n * SECTOR_SIZE == i * (n * SECTOR_SIZE);
    Distribute(l, k, m);
    MulLeast(l - k, m);
  }

  ghost predicate SameCluster(boot: Boot, disk: Disk, disk': Disk, c: nat) {
    && HasCluster(boot, disk, c) && HasCluster(boot, disk', c)
    && forall p: nat :: p < boot.ClusterSize() ==> ClusterByte(boot, disk', c, p) == ClusterByte(boot, disk, c, p)
  }

  /** Every cluster of the volume outside `chain` has its old bytes. */
  ghost predicate OthersSame(boot: Boot, limit: nat, disk: Disk, disk': Disk, chain: seq<nat>) {
    forall c: nat :: 2 <= c < limit && c !in chain ==> SameCluster(boot, disk, disk', c)
  }

  ghost function Overlaid(boot: Boot, limit: nat, disk: Disk, chain: seq<nat>, offset: nat, data: seq<byte>,
                          k: nat): (b: byte)
    requires Layout(boot, limit, disk) && InVolume(limit, chain) && k < FileSpan(boot, chain)
  {
    if offset <= k < offset + |data| then data[k - offset] else FileByte(boot, limit, disk, chain, k)
  }

  /** The chain's bytes on `disk'` are its bytes on `disk` with `data` laid over them at `offset`. */
  ghost predicate Overlay(boot: Boot, limit: nat, disk: Disk, disk': Disk, chain: seq<nat>, offset: nat,
                          data: seq<byte>)
    requires Layout(boot, limit, disk) && Layout(boot, limit, disk') && InVolume(limit, chain)
  {
    forall k: nat :: k < FileSpan(boot, chain) ==>
      FileByte(boot, limit, disk', chain, k) == Overlaid(boot, limit, disk, chain, offset, data, k)
  }

  /** Sectors outside the tables unchanged means clusters unchanged. */
  lemma FatsOnlySameCluster(boot: Boot, disk: Disk, disk': Disk, c: nat)
    requires SameOutsideFats(boot, disk, disk') && 2 <= c && HasCluster(boot, disk, c)
    ensures SameCluster(boot, disk, disk', c)
  {
    boot.ClusterAfterFats(c);
    forall p: nat | p < boot.ClusterSize() ensures ClusterByte(boot, disk', c, p) == ClusterByte(boot, disk, c, p) {
      assert boot.ClusterBase(c) + p / SECTOR_SIZE in disk;
    }
  }

  lemma FileByteFrame(boot: Boot, limit: nat, disk: Disk, disk': Disk, chain: seq<nat>, k: nat)
    requires Layout(boot, limit, disk) && Layout(boot, limit, disk') && InVolume(limit, chain)
    requires k < FileSpan(boot, chain)
    requires boot.ClusterIndex(k) < |chain| ==> SameCluster(boot, disk, disk', chain[boot.ClusterIndex(k)])
    ensures FileByte(boot, limit, disk', chain, k) == FileByte(boot, limit, disk, chain, k)
  {
    DivBelow(k, boot.ClusterSize(), |chain|);
  }

  /** A chain none of whose clusters changed denotes the same file. */
  lemma FileBytesFrame(boot: Boot, limit: nat, disk: Disk, disk': Disk, chain: seq<nat>, other: seq<nat>)
    requires Layout(boot, limit, disk) && Layout(boot, limit, disk') && InVolume(limit, other)
    requires OthersSame(boot, limit, disk, disk', chain)
    requires forall i :: 0 <= i < |other| ==> other[i] !in chain
    ensures FileBytes(boot, limit, disk', other) == FileBytes(boot, limit, disk, other)
  {
    forall k: nat | k < FileSpan(boot, other)
      ensures FileByte(boot, limit, disk', other, k) == FileByte(boot, limit, disk, other, k)
    {
      DivBelow(k, boot.ClusterSize(), |other|);
      FileByteFrame(boot, limit, disk, disk', other, k);
    }
  }

  /** Writing inside one cluster leaves every other cluster alone. */
  lemma PatchedElsewhere(boot: Boot, disk: Disk, disk': Disk, c: nat, begin: nat, src: seq<byte>, d: nat)
    requires boot.Wf() && HasCluster(boot, disk, c) && HasCluster(boot, disk, d) && c != d
    requires begin + |src| <= boot.ClusterSize()
    requires Patched(disk, disk', boot.ClusterBase(c), begin, src)
    ensures SameCluster(boot, disk, disk', d)
  {
    if c < d { boot.ClustersApart(c, d); } else { boot.ClustersApart(d, c); }
    forall p: nat | p < boot.ClusterSize() ensures ClusterByte(boot, disk', d, p) == ClusterByte(boot, disk, d, p) {
      var s := boot.ClusterBase(d) + p / SECTOR_SIZE;
      assert s in disk;
      assert !Touches(boot.ClusterBase(c), begin, |src|, s);
    }
  }

  lemma PatchedCluster(boot: Boot, disk: Disk, disk': Disk, c: nat, begin: nat, src: seq<byte>, p: nat)
    requires boot.Wf() && HasCluster(boot, disk, c) && p < boot.ClusterSize()
    requires Patched(disk, disk', boot.ClusterBase(c), begin, src)
    ensures HasCluster(boot, disk', c)
    ensures ClusterByte(boot, disk', c, p) ==
            if begin <= p < begin + |src| then src[p - begin] else ClusterByte(boot, disk, c, p)
  {
    assert boot.ClusterBase(c) + p / SECTOR_SIZE in disk;
    assert ByteAt(disk', boot.ClusterBase(c), p) == PatchedByte(disk, boot.ClusterBase(c), begin, src, p);
  }

  /** In file coordinates, the patched cluster bytes are the next stretch of the file. */
  lemma PatchedFileByte(boot: Boot, limit: nat, disk: Disk, disk': Disk, chain: seq<nat>, pos: nat, src: seq<byte>,
                        k: nat)
    requires Layout(boot, limit, disk) && Layout(boot, limit, disk') && InVolume(limit, chain) && Distinct(chain)
    requires boot.ClusterIndex(pos) < |chain| && k < FileSpan(boot, chain)
    requires Mod(pos, boot.ClusterSize()) + |src| <= boot.ClusterSize()
    requires Patched(disk, disk', boot.ClusterBase(chain[boot.ClusterIndex(pos)]), Mod(pos, boot.ClusterSize()), src)
    ensures FileByte(boot, limit, disk', chain, k) ==
            if pos <= k < pos + |src| then src[k - pos] else FileByte(boot, limit, disk, chain, k)
  {
    var size := boot.ClusterSize();
    var n, i := boot.ClusterIndex(pos), boot.ClusterIndex(k);
    var p := Mod(k, size);
    DivBelow(k, size, |chain|);
    assert HasCluster(boot, disk, chain[n]) && HasCluster(boot, disk, chain[i]);
    SameUnit(pos, k, |src|, size);
    if i == n {
      PatchedCluster(boot, disk, disk', chain[n], Mod(pos, size), src, p);
    } else {
      PatchedElsewhere(boot, disk, disk', chain[n], Mod(pos, size), src, chain[i]);
      FileByteFrame(boot, limit, disk, disk', chain, k);
    }
  }

  /** Positions `pos ..< pos + len` inside one unit, recognised from quotient and remainder. */
  lemma SameUnit(pos: nat, k: nat, len: nat, unit: nat)
    requires unit > 0 && Mod(pos, unit) + len <= unit
    ensures pos <= k < pos + len <==>
            Div(k, unit) == Div(pos, unit) && Mod(pos, unit) <= Mod(k, unit) < Mod(pos, unit) + len
    ensures Div(k, unit) == Div(pos, unit) ==> k - pos == Mod(k, unit) - Mod(pos, unit)
  {
    var q: int, i: int := Div(pos, unit), Div(k, unit);
    DivModSplit(pos, unit);
    DivModSplit(k, unit);
    Distribute(i, q, unit);
    if i > q {
      MulLeast(i - q, unit);
    } else if i < q {
      MulLeast(q - i, unit);
      Negate(i - q, unit);
    }
  }

  lemma OverlayPatch(boot: Boot, limit: nat, disk0: Disk, disk: Disk, disk': Disk, chain: seq<nat>, offset: nat,
                     data: seq<byte>, pos: nat, src: seq<byte>)
    requires Layout(boot, limit, disk0) && Layout(boot, limit, disk) && Layout(boot, limit, disk')
    requires InVolume(limit, chain) && Distinct(chain) && pos == offset + |data|
    requires Overlay(boot, limit, disk0, disk, chain, offset, data)
    requires boot.ClusterIndex(pos) < |chain| && Mod(pos, boot.ClusterSize()) + |src| <= boot.ClusterSize()
    requires Patched(disk, disk', boot.ClusterBase(chain[boot.ClusterIndex(pos)]), Mod(pos, boot.ClusterSize()), src)
    ensures Overlay(boot, limit, disk0, disk', chain, offset, data + src)
  {
    forall k: nat | k < FileSpan(boot, chain)
      ensures FileByte(boot, limit, disk', chain, k) == Overlaid(boot, limit, disk0, chain, offset, data + src, k)
    {
      PatchedFileByte(boot, limit, disk, disk', chain, pos, src, k);
      assert FileByte(boot, limit, disk, chain, k) == Overlaid(boot, limit, disk0, chain, offset, data, k);
    }
  }

  lemma OthersSamePatch(boot: Boot, limit: nat, disk0: Disk, disk: Disk, disk': Disk, chain: seq<nat>, c: nat,
                        begin: nat, src: seq<byte>)
    requires Layout(boot, limit, disk) && OthersSame(boot, limit, disk0, disk, chain)
    requires c in chain && 2 <= c < limit && begin + |src| <= boot.ClusterSize()
    requires Patched(disk, disk', boot.ClusterBase(c), begin, src)
    ensures OthersSame(boot, limit, disk0, disk', chain)
  {
    forall d: nat | 2 <= d < limit && d !in chain ensures SameCluster(boot, disk0, disk', d) {
      assert SameCluster(boot, disk0, disk, d);
      assert HasCluster(boot, disk, c);
      PatchedElsewhere(boot, disk, disk', c, begin, src, d);
    }
  }

  lemma FatsOnlyAllSame(boot: Boot, limit: nat, disk: Disk, disk': Disk)
    requires Layout(boot, limit, disk) && SameOutsideFats(boot, disk, disk')
    ensures OthersSame(boot, limit, disk, disk', [])
  {
    forall c: nat | 2 <= c < limit ensures SameCluster(boot, disk, disk', c) {
      assert HasCluster(boot, disk, c);
      FatsOnlySameCluster(boot, disk, disk', c);
    }
  }

  lemma SameClusterTrans(boot: Boot, disk0: Disk, disk: Disk, disk': Disk, c: nat)
    requires SameCluster(boot, disk0, disk, c) && SameCluster(boot, disk, disk', c)
    ensures SameCluster(boot, disk0, disk', c)
  {
    forall p: nat | p < boot.ClusterSize() ensures ClusterByte(boot, disk', c, p) == ClusterByte(boot, disk0, c, p) {
      assert ClusterByte(boot, disk, c, p) == ClusterByte(boot, disk0, c, p);
    }
  }

  /** A step that only touches the tables keeps every file byte. */
  lemma FatsOnlyOverlay(boot: Boot, limit: nat, disk0: Disk, disk: Disk, disk': Disk, chain: seq<nat>, offset: nat,
                        data: seq<byte>)
    requires Layout(boot, limit, disk0) && Layout(boot, limit, disk) && Layout(boot, limit, disk')
    requires InVolume(limit, chain) && OthersSame(boot, limit, disk, disk', [])
    requires Overlay(boot, limit, disk0, disk, chain, offset, data) && OthersSame(boot, limit, disk0, disk, chain)
    ensures Overlay(boot, limit, disk0, disk', chain, offset, data)
    ensures OthersSame(boot, limit, disk0, disk', chain)
  {
    forall k: nat | k < FileSpan(boot, chain)
      ensures FileByte(boot, limit, disk', chain, k) == Overlaid(boot, limit, disk0, chain, offset, data, k)
    {
      assert FileByte(boot, limit, disk, chain, k) == Overlaid(boot, limit, disk0, chain, offset, data, k);
      DivBelow(k, boot.ClusterSize(), |chain|);
      FileByteFrame(boot, limit, disk, disk', chain, k);
    }
    forall c: nat | 2 <= c < limit && c !in chain ensures SameCluster(boot, disk0, disk', c) {
      assert SameCluster(boot, disk0, disk, c);
      SameClusterTrans(boot, disk0, disk, disk', c);
    }
  }

  lemma FileBytePrefix(boot: Boot, limit: nat, disk: Disk, chain: seq<nat>, more: seq<nat>, k: nat)
    requires Layout(boot, limit, disk) && InVolume(limit, chain) && InVolume(limit, chain + more)
    requires k < FileSpan(boot, chain)
    ensures FileSpan(boot, chain) <= FileSpan(boot, chain + more)
    ensures FileByte(boot, limit, disk, chain + more, k) == FileByte(boot, limit, disk, chain, k)
  {
    assert FileSpan(boot, chain + more) == FileSpan(boot, chain) + |more| * boot.ClusterSize();
    DivBelow(k, boot.ClusterSize(), |chain|);
  }

  /** Appending an untouched cluster: the longer file starts with the shorter one, and its new
      part is whatever the cluster held. */
  lemma OverlayGrow(boot: Boot, limit: nat, disk0: Disk, disk: Disk, chain: seq<nat>, x: nat, offset: nat,
                    data: seq<byte>)
    requires Layout(boot, limit, disk0) && Layout(boot, limit, disk) && InVolume(limit, chain + [x])
    requires InVolume(limit, chain) && x !in chain && 2 <= x < limit
    requires data == [] || offset + |data| <= FileSpan(boot, chain)
    requires Overlay(boot, limit, disk0, disk, chain, offset, data) && OthersSame(boot, limit, disk0, disk, chain)
    ensures Overlay(boot, limit, disk0, disk, chain + [x], offset, data)
    ensures OthersSame(boot, limit, disk0, disk, chain + [x])
  {
    var longer := chain + [x];
    assert SameCluster(boot, disk0, disk, x);
    forall k: nat | k < FileSpan(boot, longer)
      ensures FileByte(boot, limit, disk, longer, k) == Overlaid(boot, limit, disk0, longer, offset, data, k)
    {
      if k < FileSpan(boot, chain) {
        FileBytePrefix(boot, limit, disk, chain, [x], k);
        FileBytePrefix(boot, limit, disk0, chain, [x], k);
        assert FileByte(boot, limit, disk, chain, k) == Overlaid(boot, limit, disk0, chain, offset, data, k);
      } else {
        DivBelow(k, boot.ClusterSize(), |chain|);
        DivBelow(k, boot.ClusterSize(), |longer|);
        FileByteFrame(boot, limit, disk0, disk, longer, k);
      }
    }
    forall c: nat | 2 <= c < limit && c !in longer ensures SameCluster(boot, disk0, disk, c) {
      assert c !in chain;
    }
  }

  /** As far as the chain reaches, `buf` is the file from `offset` on. */
  ghost predicate Matches(boot: Boot, limit: nat, disk: Disk, chain: seq<nat>, offset: nat, buf: seq<byte>)
    requires Layout(boot, limit, disk) && InVolume(limit, chain)
  {
    forall k: nat :: k < |buf| && offset + k < FileSpan(boot, chain) ==>
      buf[k] == FileByte(boot, limit, disk, chain, offset + k)
  }

  lemma MatchesNothing(boot: Boot, limit: nat, disk: Disk, chain: seq<nat>, offset: nat)
    requires Layout(boot, limit, disk) && InVolume(limit, chain)
    ensures Matches(boot, limit, disk, chain, offset, [])
  {
  }

  /** Reading part of one cluster extends a read by that many bytes. */
  lemma MatchesExtend(boot: Boot, limit: nat, disk: Disk, chain: seq<nat>, offset: nat, buf: seq<byte>, part: seq<byte>,
                      pos: nat, base: int, q: nat)
    requires Layout(boot, limit, disk) && InVolume(limit, chain)
    requires Matches(boot, limit, disk, chain, offset, buf) && pos == offset + |buf|
    requires base == boot.ClusterBase(ClusterAt(chain, boot.ClusterIndex(pos))) && q == Mod(pos, boot.ClusterSize())
    requires q + |part| <= boot.ClusterSize()
    requires forall p: nat :: p < |part| && base + (q + p) / SECTOR_SIZE in disk ==>
      part[p] == ByteAt(disk, base, q + p)
    ensures Matches(boot, limit, disk, chain, offset, buf + part)
  {
    var size := boot.ClusterSize();
    forall k: nat | k < |buf + part| && offset + k < FileSpan(boot, chain)
      ensures (buf + part)[k] == FileByte(boot, limit, disk, chain, offset + k)
    {
      if k >= |buf| {
        SameUnit(pos, offset + k, |part|, size);
        DivBelow(offset + k, size, |chain|);
        assert HasCluster(boot, disk, chain[boot.ClusterIndex(pos)]);
      }
    }
  }

  /** How many clusters hold `n` bytes. */
  function ClustersFor(boot: Boot, n: nat): (c: nat)
    requires boot.Wf()
  {
    Div(n + boot.ClusterSize() - 1, boot.ClusterSize())
  }

  function Max(a: nat, b: nat): (m: nat) {
    if a >= b then a else b
  }

  /** A chunk that ends in cluster `i` needs `i + 1` clusters. */
  lemma ClustersForChunk(boot: Boot, pos: nat, n: nat)
    requires boot.Wf() && 0 < n && Mod(pos, boot.ClusterSize()) + n <= boot.ClusterSize()
    ensures ClustersFor(boot, pos + n) == boot.ClusterIndex(pos) + 1
    ensures pos + n <= (boot.ClusterIndex(pos) + 1) * boot.ClusterSize()
  {
    var size := boot.ClusterSize();
    var q := boot.ClusterIndex(pos);
    DivModSplit(pos, size);
    Distribute(q, -1, size);
    DivModUnique(pos + n + size - 1, size, q + 1, Mod(pos, size) + n - 1);
  }

  /** A position within or at the end of `n` clusters needs no more than `n`. */
  lemma ClustersForBound(boot: Boot, x: nat, n: nat)
    requires boot.Wf() && x <= n * boot.ClusterSize()
    ensures ClustersFor(boot, x) <= n
  {
    var size := boot.ClusterSize();
    Distribute(n, -1, size);
    DivBelow(x + size - 1, size, n + 1);
  }

  lemma ClustersForMono(boot: Boot, x: nat, y: nat)
    requires boot.Wf() && x <= y
    ensures ClustersFor(boot, x) <= ClustersFor(boot, y)
  {
    var size := boot.ClusterSize();
    var n := ClustersFor(boot, y);
    DivBelow(x + size - 1, size, n + 1);
    DivBelow(y + size - 1, size, n + 1);
  }

  lemma WriteNeeds(boot: Boot, pos: nat, n: nat, end: nat)
    requires boot.Wf() && 0 < n && pos + n <= end && Mod(pos, boot.ClusterSize()) + n <= boot.ClusterSize()
    ensures ClustersFor(boot, pos) <= ClustersFor(boot, pos + n) == boot.ClusterIndex(pos) + 1 <= ClustersFor(boot, end)
  {
    ClustersForChunk(boot, pos, n);
    ClustersForMono(boot, pos, pos + n);
    ClustersForMono(boot, pos + n, end);
  }

  // ---- where the driver puts a write that starts past the chain ----

  /** The driver adds one cluster at a time, whatever the offset, so that a write that starts beyond the cluster after
      the chain is put right behind the chain. */
  function Placed(boot: Boot, length: nat, offset: nat): (at: nat)
    requires boot.Wf()
  {
    if boot.ClusterIndex(offset) <= length then offset
    else length * boot.ClusterSize() + Mod(offset, boot.ClusterSize())
  }

  lemma PlacedIndex(boot: Boot, length: nat, offset: nat)
    requires boot.Wf()
    ensures boot.ClusterIndex(Placed(boot, length, offset)) <= length
    ensures boot.ClusterIndex(offset) > length ==> boot.ClusterIndex(Placed(boot, length, offset)) == length
  {
    var size := boot.ClusterSize();
    if boot.ClusterIndex(offset) > length {
      DivModUnique(Placed(boot, length, offset), size, length, Mod(offset, size));
    }
  }

  /** The clusters hold `size` bytes at `at`, if there are any. */
  predicate RoomFor(boot: Boot, at: nat, size: nat, clusters: nat)
    requires boot.Wf()
  {
    size == 0 || ClustersFor(boot, at + size) <= clusters
  }

  /** The length of a chain after a write of `size` bytes at `at`. */
  function Grows(boot: Boot, length: nat, at: nat, size: nat): (n: nat)
    requires boot.Wf()
  {
    if size == 0 then length else Max(length, ClustersFor(boot, at + size))
  }

  /** From there on the places and the offsets stay in step. */
  lemma PlacedShift(boot: Boot, length: nat, offset: nat, n: nat)
    requires boot.Wf()
    ensures var at := Placed(boot, length, offset);
      && Mod(at + n, boot.ClusterSize()) == Mod(offset + n, boot.ClusterSize())
      && (at != offset ==> boot.ClusterIndex(at + n) < boot.ClusterIndex(offset + n))
  {
    hide Div, Mod;
    var size := boot.ClusterSize();
    var at, i := Placed(boot, length, offset), boot.ClusterIndex(offset);
    if i > length {
      DivModSplit(offset, size);
      Distribute(i, length, size);
      DivModShift(at + n, i - length, size);
    }
  }

  lemma AlignedClusters(boot: Boot, x: nat)
    requires boot.Wf() && Mod(x, boot.ClusterSize()) == 0
    ensures ClustersFor(boot, x) == boot.ClusterIndex(x)
  {
    var size := boot.ClusterSize();
    DivModSplit(x, size);
    DivModUnique(x + size - 1, size, boot.ClusterIndex(x), size - 1);
  }

  lemma NextAligned(boot: Boot, pos: nat, n: nat)
    requires boot.Wf() && Mod(pos, boot.ClusterSize()) + n == boot.ClusterSize()
    ensures Mod(pos + n, boot.ClusterSize()) == 0
  {
    var size := boot.ClusterSize();
    DivModSplit(pos, size);
    Distribute(boot.ClusterIndex(pos), -1, size);
    DivModUnique(pos + n, size, boot.ClusterIndex(pos) + 1, 0);
  }

  /** Where the next chunk goes: onto the chain or right behind it. */
  lemma PlaceOfChunk(boot: Boot, length: nat, offset: nat, off: nat, now: nat)
    requires boot.Wf()
    requires off == 0 ==> now == length
    requires off > 0 ==>
      && now == Max(length, ClustersFor(boot, Placed(boot, length, offset) + off))
      && Mod(Placed(boot, length, offset) + off, boot.ClusterSize()) == 0
    ensures var at := Placed(boot, length, offset);
      && Mod(offset + off, boot.ClusterSize()) == Mod(at + off, boot.ClusterSize())
      && boot.ClusterIndex(at + off) <= now
      && (at == offset || boot.ClusterIndex(at + off) == now <= boot.ClusterIndex(offset + off))
  {
    hide ClustersFor;
    var at := Placed(boot, length, offset);
    PlacedIndex(boot, length, offset);
    PlacedShift(boot, length, offset, off);
    if off > 0 {
      AlignedClusters(boot, at + off);
      IndexMono(boot, at, at + off);
    }
  }

  lemma IndexMono(boot: Boot, x: nat, y: nat)
    requires boot.Wf() && x <= y
    ensures boot.ClusterIndex(x) <= boot.ClusterIndex(y)
  {
    var n := boot.ClusterIndex(y) + 1;
    DivBelow(y, boot.ClusterSize(), n);
    DivBelow(x, boot.ClusterSize(), n);
  }

  lemma ClusterRange(boot: Boot, limit: nat, disk: Disk, chain: seq<nat>, n: nat, begin: nat, size: nat)
    requires Layout(boot, limit, disk) && InVolume(limit, chain) && n < |chain|
    requires begin + size <= boot.ClusterSize()
    ensures HasRange(disk, boot.ClusterBase(chain[n]), begin, size)
  {
    assert HasCluster(boot, disk, chain[n]);
  }
}
