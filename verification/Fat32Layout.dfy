/** Where a FAT32 volume keeps things: cluster and sector addressing, the two mirrored tables on
    disk, and the bytes of a cluster chain. */
module Fat32Layout {
  import opened Bytes
  import BlockCache
  import opened FatTable
  import opened DivMod

  type Disk = BlockCache.Disk

  /** The boot sector fields the driver uses, and where the partition begins on the device. */
  datatype Boot = Boot(begin: int, sectorsPerCluster: nat, reserved: nat, fatSize: nat, rootCluster: nat) {
    ghost predicate Wf() {
      0 < sectorsPerCluster < 256
    }

    function ClusterSize(): (n: nat) {
      sectorsPerCluster * SECTOR_SIZE
    }

    function FatStart(): (lba: int) {
      begin + reserved
    }

    /** `fat32_cluster_to_sector`, as an address on the device of a volume with two tables. */
    function ClusterBase(cluster: int): (lba: int) {
      begin + (cluster - 2) * sectorsPerCluster + reserved + 2 * fatSize
    }

    /** Which cluster of a chain holds byte `offset`. */
    function ClusterIndex(offset: nat): (n: nat)
      requires Wf()
    {
      Div(offset, sectorsPerCluster * SECTOR_SIZE)
    }

    /** The volume from its first sector on: the reserved sectors, the two tables, then cluster 2. */
    lemma FirstCluster()
      ensures FatStart() - begin == reserved && ClusterBase(2) == FatStart() + 2 * fatSize
    {
    }

    lemma ClustersAbut(c: int)
      ensures ClusterBase(c + 1) == ClusterBase(c) + sectorsPerCluster
    {
      Distribute(c - 1, 1, sectorsPerCluster);
    }

    predicate InCluster(c: int, lba: int) {
      ClusterBase(c) <= lba < ClusterBase(c) + sectorsPerCluster
    }

    /** Every sector behind the tables belongs to exactly one cluster, from number 2 on. */
    lemma OneClusterPerSector(lba: int) returns (c: nat)
      requires Wf() && begin + reserved + 2 * fatSize <= lba
      ensures 2 <= c && InCluster(c, lba) && forall d: int :: InCluster(d, lba) ==> d == c
    {
      c := 2;
      FirstCluster();
      while ClusterBase(c) + sectorsPerCluster <= lba
        invariant 2 <= c && ClusterBase(c) <= lba
        decreases lba - ClusterBase(c)
      {
        ClustersAbut(c);
        c := c + 1;
      }
      forall d: int | InCluster(d, lba) ensures d == c {
        if d < c {
          ClustersApart(d, c);
        } else if c < d {
          ClustersApart(c, d);
        }
      }
    }

    lemma ClustersApart(c: int, d: int)
      requires c < d
      ensures ClusterBase(c) + sectorsPerCluster <= ClusterBase(d)
    {
      Distribute(d - 2, c - 2, sectorsPerCluster);
      MulLeast((d - 2) - (c - 2), sectorsPerCluster);
    }

    lemma ClusterAfterFats(c: int)
      requires 2 <= c
      ensures FatStart() + 2 * fatSize <= ClusterBase(c)
    {
      assert (c - 2) * sectorsPerCluster >= 0;
    }
  }

  /** Byte `p` of the run of sectors that starts at `base`. */
  function ByteAt(disk: Disk, base: int, p: nat): (b: byte)
    requires base + p / SECTOR_SIZE in disk
  {
    disk[base + p / SECTOR_SIZE][p % SECTOR_SIZE]
  }

  function ClusterAt(chain: seq<nat>, n: nat): (c: nat) {
    if n < |chain| then chain[n] else 0
  }

  ghost predicate HasFats(boot: Boot, disk: Disk) {
    forall s :: boot.FatStart() <= s < boot.FatStart() + 2 * boot.fatSize ==> s in disk
  }

  ghost predicate HasCluster(boot: Boot, disk: Disk, c: nat) {
    forall s :: boot.ClusterBase(c) <= s < boot.ClusterBase(c) + boot.sectorsPerCluster ==> s in disk
  }

  ghost predicate Layout(boot: Boot, limit: nat, disk: Disk) {
    && boot.Wf()
    && HasFats(boot, disk)
    && (forall c: nat :: 2 <= c < limit ==> HasCluster(boot, disk, c))
  }

  ghost function Entry(boot: Boot, disk: Disk, c: nat): (v: nat)
    requires HasFats(boot, disk) && c < boot.fatSize * 128
  {
    Word(disk[boot.FatStart() + c / 128], c % 128)
  }

  /** On disk: entry `c` is the four bytes at `4 * c` of the first table, which follows the reserved sectors. */
  lemma EntryDigits(boot: Boot, disk: Disk, c: nat, k: nat)
    requires HasFats(boot, disk) && c < boot.fatSize * 128 && k < 4
    ensures boot.begin + boot.reserved + (4 * c + k) / SECTOR_SIZE in disk
    ensures Digit(Entry(boot, disk, c), k) == ByteAt(disk, boot.begin + boot.reserved, 4 * c + k)
  {
    hide Word, Digit;
    var s := boot.FatStart() + c / 128;
    assert c / 128 < boot.fatSize;
    WordDigits(disk[s], c % 128, k);
    assert (4 * c + k) / SECTOR_SIZE == c / 128 && (4 * c + k) % SECTOR_SIZE == 4 * (c % 128) + k;
  }

  /** The first table, as the sequence of its entries. */
  ghost function FatOf(boot: Boot, disk: Disk): (fat: Fat)
    requires HasFats(boot, disk)
  {
    seq(boot.fatSize * 128, c requires 0 <= c < boot.fatSize * 128 => Entry(boot, disk, c))
  }

  ghost predicate Mirrored(boot: Boot, disk: Disk)
    requires HasFats(boot, disk)
  {
    forall s :: boot.FatStart() <= s < boot.FatStart() + boot.fatSize ==> disk[s] == disk[s + boot.fatSize]
  }

  ghost predicate Wf(boot: Boot, limit: nat, disk: Disk, chains: Chains) {
    && Layout(boot, limit, disk)
    && Mirrored(boot, disk)
    && Partition(FatOf(boot, disk), limit, chains)
  }

  /** No sector outside the two tables differs. */
  ghost predicate SameOutsideFats(boot: Boot, disk: Disk, disk': Disk) {
    && disk'.Keys == disk.Keys
    && forall s :: s in disk && !(boot.FatStart() <= s < boot.FatStart() + 2 * boot.fatSize) ==> disk'[s] == disk[s]
  }

  /** The sectors that change when table entry `c` becomes `v` in both copies. */
  ghost function WithEntry(boot: Boot, disk: Disk, c: nat, v: nat): (d: Disk)
    requires HasFats(boot, disk) && c < boot.fatSize * 128 && v < 0x1_0000_0000
    ensures SameOutsideFats(boot, disk, d)
  {
    var s := boot.FatStart() + c / 128;
    var sector := SetWord(disk[s], c % 128, v);
    disk[s := sector][s + boot.fatSize := sector]
  }

  lemma WithEntryFat(boot: Boot, disk: Disk, c: nat, v: nat)
    requires HasFats(boot, disk) && Mirrored(boot, disk) && c < boot.fatSize * 128 && v < 0x1_0000_0000
    ensures HasFats(boot, WithEntry(boot, disk, c, v)) && Mirrored(boot, WithEntry(boot, disk, c, v))
    ensures FatOf(boot, WithEntry(boot, disk, c, v)) == FatOf(boot, disk)[c := v]
  {
    hide Word, SetWord;
    var d := WithEntry(boot, disk, c, v);
    forall i: nat | i < boot.fatSize * 128 ensures Entry(boot, d, i) == FatOf(boot, disk)[c := v][i] {
      assert i / 128 < boot.fatSize;
      assert i == c <==> i / 128 == c / 128 && i % 128 == c % 128;
    }
  }

  lemma LayoutFrame(boot: Boot, limit: nat, disk: Disk, disk': Disk)
    requires Layout(boot, limit, disk) && disk'.Keys == disk.Keys
    ensures Layout(boot, limit, disk')
  {
    forall c: nat | 2 <= c < limit ensures HasCluster(boot, disk', c) {
      assert HasCluster(boot, disk, c);
    }
  }

  lemma ChainInVolume(fat: Fat, limit: nat, chains: Chains, h: nat)
    requires Partition(fat, limit, chains) && h in chains
    ensures chains[h] != [] && 2 <= h < limit <= BAD_CLUSTER && limit <= |fat|
    ensures 2 <= Last(chains[h]) < limit
    ensures IsChain(fat, limit, chains[h]) && chains[h][0] == h
  {
    assert ChainAt(fat, limit, chains, h);
    HeadOwns(fat, limit, chains, h);
  }

  // ---- sectors as a run of bytes ----

  /** The sectors that bytes `begin` up to `begin + size` of the run at `base` lie in. */
  predicate Touches(base: int, begin: nat, size: nat, s: int) {
    base + begin / SECTOR_SIZE <= s && SECTOR_SIZE * (s - base) < begin + size
  }

  ghost predicate HasRange(disk: Disk, base: int, begin: nat, size: nat) {
    forall s :: Touches(base, begin, size, s) ==> s in disk
  }

  /** `disk'` is `disk` with `data` stored at byte `begin` of the run of sectors at `base`. */
  ghost predicate Patched(disk: Disk, disk': Disk, base: int, begin: nat, data: seq<byte>) {
    && disk'.Keys == disk.Keys
    && (forall s :: s in disk && !Touches(base, begin, |data|, s) ==> disk'[s] == disk[s])
    && (forall p: nat :: base + p / SECTOR_SIZE in disk ==>
          ByteAt(disk', base, p) == PatchedByte(disk, base, begin, data, p))
  }

  function PatchedByte(disk: Disk, base: int, begin: nat, data: seq<byte>, p: nat): (b: byte)
    requires base + p / SECTOR_SIZE in disk
  {
    if begin <= p < begin + |data| then data[p - begin] else ByteAt(disk, base, p)
  }

  /** One read-modify-write of a sector extends the patch. */
  lemma PatchSector(disk: Disk, disk': Disk, d: Disk, base: int, begin: nat, data: seq<byte>, more: seq<byte>,
                    pos: nat, s: int)
    requires Patched(disk, disk', base, begin, data)
    requires pos == begin + |data| && s == base + pos / SECTOR_SIZE && s in disk
    requires 0 < |more| && pos % SECTOR_SIZE + |more| <= SECTOR_SIZE
    requires d == disk'[s := Splice(disk'[s], pos % SECTOR_SIZE, more)]
    ensures Patched(disk, d, base, begin, data + more)
  {
    var all := data + more;
    forall p: nat | base + p / SECTOR_SIZE in disk
      ensures ByteAt(d, base, p) == PatchedByte(disk, base, begin, all, p)
    {
      assert ByteAt(disk', base, p) == PatchedByte(disk, base, begin, data, p);
      assert p == p / SECTOR_SIZE * SECTOR_SIZE + p % SECTOR_SIZE;
      assert pos == pos / SECTOR_SIZE * SECTOR_SIZE + pos % SECTOR_SIZE;
    }
    assert Touches(base, begin, |all|, s);
    forall t | t in disk && !Touches(base, begin, |all|, t) ensures d[t] == disk[t] {
      assert !Touches(base, begin, |data|, t);
    }
  }
}
