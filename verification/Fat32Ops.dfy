/** Creating, opening, resizing and removing a file: walking the path to a directory, and the operation there. */
module Fat32Ops {
  import opened Bytes
  import opened BlockCache
  import opened FatTable
  import opened Fat32Layout
  import opened Fat32Bytes
  import opened Fat32Volume
  import opened Fat32Names
  import opened Fat32Dir
  import opened Fat32Files

  /** How many clusters creating a file takes. */
  ghost function CreateNeeds(dir: seq<byte>): (n: nat) {
    if HasRoom(dir) then 1 else 2
  }

  /** The last part of `fat32_file_create`, in the directory its path names: allocate the file's first cluster, then
      add an entry for it. The driver does not look for an entry of that name. With too few free clusters it reports
      that, or it makes an entry that names no cluster of the volume, or links the directory out of the volume. The
      model stops where the driver steps over the end of the name. */
  method FileCreate(vol: Volume, cluster: nat, name: CString)
    returns (status: int, ghost c: nat, ghost k: nat, ghost created: bool, overrun: bool)
    requires vol.Valid() && cluster in vol.chains
    modifies vol.dev, vol`chains
    ensures overrun <==> ShortName(name).Overrun?
    ensures overrun ==> vol.dev.disk == old(vol.dev.disk) && vol.chains == old(vol.chains) && vol.Valid()
    ensures created <==>
      && !overrun
      && |old(FreeClusters(FatOf(vol.boot, vol.dev.disk), vol.limit))| >= CreateNeeds(old(DirBytes(vol, cluster)))
    ensures created ==> vol.Valid() && status == 0
    ensures created ==>
      && c < 0x1_0000_0000 && LowestFree(old(FatOf(vol.boot, vol.dev.disk)), c)
      && Created(vol.boot, vol.limit, old(vol.dev.disk), old(vol.chains), vol.dev.disk, vol.chains, cluster, c, k,
                 NewEntry(ShortName(name).raw, c))
    ensures status != 0 && !overrun ==>
      status == ERROR_OUT_OF_SPACE && vol.Valid() && SameOutsideFats(vol.boot, old(vol.dev.disk), vol.dev.disk)
    ensures status == 0 && !created && !overrun && c < vol.limit ==>
      HasFats(vol.boot, vol.dev.disk) && !HasChain(FatOf(vol.boot, vol.dev.disk), vol.limit, cluster)
  {
    hide FileBytes, BlockDevice.Valid, Partition, IsChain, Mirrored, HasFats, HasCluster, InsertsAt, DirChange,
      Overlay, OthersSame, ShortName, NewEntry, FatOf, HasRoom, HasChain, Allocates;
    ghost var disk0, chains0 := vol.dev.disk, vol.chains;
    ChainInVolume(FatOf(vol.boot, disk0), vol.limit, chains0, cluster);
    var shortname := GetShortName(name);
    overrun := shortname.Overrun?;
    if overrun {
      return 0, 0, 0, false, true;
    }
    var alloc := vol.AllocateCluster();
    c, k := alloc, 0;
    if alloc == 0 {
      return ERROR_OUT_OF_SPACE, c, k, false, false;
    }
    ghost var disk1, chains1 := vol.dev.disk, vol.chains;
    AllocatedFits(FatOf(vol.boot, disk0), vol.limit, chains0, alloc, FatOf(vol.boot, disk1));
    FatsOnlyBytes(vol.boot, vol.limit, disk0, disk1, chains0[cluster]);
    ghost var kept;
    var dirent := NewEntry(shortname.raw, alloc);
    status, k, kept := InsertEntry(vol, cluster, dirent);
    created := 2 <= alloc < vol.limit && status == 0 && kept;
    SetsLeft(FreeClusters(FatOf(vol.boot, disk0), vol.limit), alloc);
    if created {
      AllocatesLowest(FatOf(vol.boot, disk0), vol.limit, chains0, alloc, FatOf(vol.boot, disk1));
      CreatedBySteps(vol.boot, vol.limit, disk0, chains0, disk1, chains1, vol.dev.disk, vol.chains, cluster, alloc, k,
                     dirent);
    }
  }

  lemma SetsLeft(s: set<nat>, x: nat)
    ensures x in s ==> |s| >= 1 && (s - {x} == {} <==> |s| == 1)
    ensures s == {} <==> |s| == 0
  {
    if x in s {
      assert s == s - {x} + {x};
    }
  }

  lemma AllocatesLowest(fat: Fat, limit: nat, chains: Chains, c: nat, fat': Fat)
    requires Partition(fat, limit, chains) && Allocates(fat, c, fat') && 2 <= c < limit
    ensures LowestFree(fat, c)
  {
    AllocatesInVolume(fat, limit, c, fat');
  }

  /** What the entry `e` of a new file does to the search for `n`: one that goes past it ends as before, up to entries
      behind the old end marker; one that `e` ends comes to `e` exactly if it came to nothing before. */
  ghost predicate CreateLaw(dir: seq<byte>, stale: seq<byte>, after: seq<byte>, k: nat, e: Entry, n: seq<byte>) {
    && EarlierKept(dir, after, k, n)
    && (Names(e, n) ==> (Finds(after, n, k) <==> Reaches(dir, n, k)))
    && (Blank(e) ==> (Overruns(after, n, k) <==> Reaches(dir, n, k)))
    && (Skips(e, n) ==> InsertLaw(dir, stale, after, k, n))
  }

  lemma CreateObeys(dir: seq<byte>, stale: seq<byte>, after: seq<byte>, k: nat, e: Entry, n: seq<byte>)
    requires InsertsAt(dir, k) && (InDir(dir, k) ==> stale == dir) && DirChange(dir, stale, after, k, e)
    ensures CreateLaw(dir, stale, after, k, e, n)
  {
    hide FindsFrom, OverrunsFrom, InsertLaw, InsertsAt, EntryName, HasBase;
    InsertResolves(dir, stale, after, k, e, n);
    if Skips(e, n) {
      InsertObeys(dir, stale, after, k, e, n);
    }
  }

  /** Creating a file, under any name, and then looking up any name. */
  lemma CreateThenOpen(boot: Boot, limit: nat, disk0: Disk, chains0: Chains, disk: Disk, chains: Chains,
                       cluster: nat, c: nat, k: nat, e: Entry)
    requires Created(boot, limit, disk0, chains0, disk, chains, cluster, c, k, e)
    ensures InDir(FileBytes(boot, limit, disk, chains[cluster]), k)
    ensures EntryAt(FileBytes(boot, limit, disk, chains[cluster]), k) == e
    ensures forall n ::
      CreateLaw(FileBytes(boot, limit, disk0, chains0[cluster]), FileBytes(boot, limit, disk0, chains[cluster]),
                FileBytes(boot, limit, disk, chains[cluster]), k, e, n)
  {
    hide FileBytes, InsertsAt, CreateLaw, HasFats, HasCluster, FileKept;
    var dir := FileBytes(boot, limit, disk0, chains0[cluster]);
    var stale, after := FileBytes(boot, limit, disk0, chains[cluster]), FileBytes(boot, limit, disk, chains[cluster]);
    forall n ensures CreateLaw(dir, stale, after, k, e, n) {
      CreateObeys(dir, stale, after, k, e, n);
    }
  }

  /** The names a new file can be opened by. */
  predicate Openable(name: CString) {
    Fits(name) && name[0] != DELETED
  }

  /** The entry made for a name is found under it exactly if the name is openable. */
  lemma EntryOfName(name: CString, c: nat)
    requires ShortName(name).Short? && c < 0x1_0000_0000
    ensures Names(NewEntry(ShortName(name).raw, c), name) <==> Openable(name)
  {
    hide FullName, EntryCluster, EntrySize, Fits, HasBase, NewEntry, Cut, Lay;
    var raw := ShortName(name).raw;
    NameExact(name);
    LayNoZero(name, 0, BLANK);
    FullNoZero(raw);
    EntryHead(raw, c);
    if Fits(name) {
      FirstByte(name);
    }
  }

  lemma EntryHead(raw: Raw, c: nat)
    requires c < 0x1_0000_0000
    ensures var e := NewEntry(raw, c); e[..11] == raw && e[0] == raw[0] && e[11] == 0
  {
    hide NewEntry;
    assert NewEntry(raw, c)[0] == NewEntry(raw, c)[..11][0];
  }

  lemma FirstByte(name: seq<byte>)
    requires Fits(name) && ShortName(name).Short?
    ensures name != [] && ShortName(name).raw[0] == Upper(name[0])
  {
    hide Base, Lay;
    var raw := ShortName(name).raw;
    FitsReadsBack(name);
    assert raw[0] == UpperAll(Base(name))[0];
  }

  /** The entry made for a name cannot be read exactly if only blanks stand before the first dot of the name, among its
      first eight bytes: from then on every search that gets to it runs off the driver's buffer. */
  lemma BlankEntryOfName(name: CString, c: nat)
    requires ShortName(name).Short? && c < 0x1_0000_0000
    ensures Blank(NewEntry(ShortName(name).raw, c)) <==> forall i :: 0 <= i < |Head(name)| ==> name[i] == SPACE
  {
    hide EntryCluster, EntrySize, NewEntry, Lay, Head;
    var raw := ShortName(name).raw;
    EntryHead(raw, c);
    BlankExact(name);
  }

  /** The name ".x" makes such an entry. */
  lemma DotFileCrashes(dir: seq<byte>, stale: seq<byte>, after: seq<byte>, k: nat, c: nat, x: byte, n: seq<byte>)
    requires x != DOT && c < 0x1_0000_0000 && ShortName([DOT, x]).Short?
    requires InsertsAt(dir, k) && (InDir(dir, k) ==> stale == dir)
    requires DirChange(dir, stale, after, k, NewEntry(ShortName([DOT, x]).raw, c)) && Absent(dir, n)
    ensures Overruns(after, n, k)
  {
    hide EntryCluster, EntrySize, NewEntry, ShortName, FindsFrom, OverrunsFrom, EntryName;
    var e := NewEntry(ShortName([DOT, x]).raw, c);
    DotFile(x);
    EntryHead(ShortName([DOT, x]).raw, c);
    BlankBegins(x);
    CreateObeys(dir, stale, after, k, e, n);
    AbsentReaches(dir, n, k);
  }

  lemma BlankBegins(x: byte)
    requires x != DOT
    ensures ShortName([DOT, x]).Short? && ShortName([DOT, x]).raw[0] == SPACE
  {
    hide HasBase;
    DotFile(x);
    LayDot([x], 0, BLANK);
    assert [DOT, x] == [DOT] + [x] && [x][1..] == [];
  }

  lemma AbsentReaches(dir: seq<byte>, n: seq<byte>, k: nat)
    requires Absent(dir, n)
    ensures Reaches(dir, n, k)
  {
    forall j: nat | j < k ensures !Finds(dir, n, j) && !Overruns(dir, n, j) {
      if Finds(dir, n, j) {
        LookupUnique(dir, n, Hit(j), Miss);
      }
      if Overruns(dir, n, j) {
        LookupUnique(dir, n, Crash(j), Miss);
      }
    }
  }

  // ---- paths ----

  /** The bytes of every chain. */
  ghost function Dirs(vol: Volume): (dirs: map<nat, seq<byte>>)
    reads vol, vol.dev
    requires vol.Valid()
    ensures dirs.Keys == vol.chains.Keys && forall h :: h in vol.chains ==> dirs[h] == DirBytes(vol, h)
  {
    map h | h in vol.chains :: DirBytes(vol, h)
  }

  /** What the search demands of the volume: every directory it looks into is a chain. */
  ghost predicate Searchable(dirs: map<nat, seq<byte>>, from: nat, path: seq<seq<byte>>)
    decreases |path|
  {
    path == [] ||
    (&& from in dirs
     && forall k: nat :: Finds(dirs[from], path[0], k) ==>
          Searchable(dirs, EntryCluster(EntryAt(dirs[from], k)), path[1..]))
  }

  lemma SearchOn(dirs: map<nat, seq<byte>>, from: nat, path: seq<seq<byte>>, i: nat, k: nat)
    requires i < |path| && Searchable(dirs, from, path[i..])
    ensures from in dirs
    ensures Finds(dirs[from], path[i], k) ==> Searchable(dirs, EntryCluster(EntryAt(dirs[from], k)), path[i + 1..])
  {
    assert path[i..][0] == path[i] && path[i..][1..] == path[i + 1..];
  }

  /** How the search for a path ends, with how many names it could follow and the directory it got to. */
  datatype Walk = Arrived(to: nat) | Stopped(n: nat, to: nat) | Crashed(n: nat, to: nat)

  ghost predicate Walked(dirs: map<nat, seq<byte>>, from: nat, path: seq<seq<byte>>, w: Walk) {
    match w
    case Arrived(to) => LeadsTo(dirs, from, path, to)
    case Stopped(n, to) => StopsAfter(dirs, from, path, n, to)
    case Crashed(n, to) => CrashesAfter(dirs, from, path, n, to)
  }

  /** `fat32_path_search` from the root. */
  method PathSearch(vol: Volume, path: seq<CString>) returns (w: Walk)
    requires vol.Valid() && Searchable(Dirs(vol), vol.boot.rootCluster, path)
    modifies vol.dev`cache, vol.dev`cacheNext
    ensures vol.Valid() && Dirs(vol) == old(Dirs(vol))
    ensures Walked(Dirs(vol), vol.boot.rootCluster, path, w)
  {
    hide Wf, BlockDevice.Valid, FileBytes, FindsFrom, AbsentFrom, OverrunsFrom, LeadsTo, Searchable;
    ghost var dirs := Dirs(vol);
    var cluster, n := vol.boot.rootCluster, 0;
    LeadsNowhere(dirs, cluster);
    assert path[..0] == [] && path[0..] == path;
    while n < |path|
      invariant 0 <= n <= |path| && vol.Valid() && Dirs(vol) == dirs
      invariant LeadsTo(dirs, vol.boot.rootCluster, path[..n], cluster) && Searchable(dirs, cluster, path[n..])
    {
      SearchOn(dirs, cluster, path, n, 0);
      var r, entry := DirSearch(vol, cluster, path[n]);
      assert Dirs(vol) == dirs;
      if r.Miss? {
        return Stopped(n, cluster);
      }
      if r.Crash? {
        return Crashed(n, cluster);
      }
      SearchOn(dirs, cluster, path, n, r.k);
      LeadsOn(dirs, vol.boot.rootCluster, path[..n], cluster, path[n], r.k);
      assert path[..n + 1] == path[..n] + [path[n]];
      cluster := EntryCluster(entry);
      n := n + 1;
    }
    assert path[..n] == path;
    w := Arrived(cluster);
  }

  /** `fat32_open`: the cluster the path leads to, the root's for an empty path. */
  method Open(vol: Volume, path: seq<CString>) returns (block: int, w: Walk)
    requires vol.Valid() && Searchable(Dirs(vol), vol.boot.rootCluster, path)
    modifies vol.dev`cache, vol.dev`cacheNext
    ensures vol.Valid() && Dirs(vol) == old(Dirs(vol))
    ensures Walked(Dirs(vol), vol.boot.rootCluster, path, w)
    ensures w.Arrived? ==> block == w.to
    ensures w.Stopped? ==> block == ERROR_NOT_EXIST
  {
    hide Wf, BlockDevice.Valid, FileBytes, FindsFrom, LeadsTo, Searchable, StopsAfter, CrashesAfter;
    LeadsNowhere(Dirs(vol), vol.boot.rootCluster);
    if path == [] {
      return vol.boot.rootCluster, Arrived(vol.boot.rootCluster);
    }
    w := PathSearch(vol, path);
    block := if w.Arrived? then w.to else ERROR_NOT_EXIST;
  }

  /** How `fat32_file_create` and `fat32_file_remove` find the directory of a path: they do not look at the result of
      the search, so that with a directory of the path missing they act on the last one there is. `garbage` is what
      the entry holds when not even the first is there. */
  method ParentDir(vol: Volume, path: seq<CString>, garbage: nat) returns (cluster: nat, w: Walk)
    requires vol.Valid() && path != [] && Searchable(Dirs(vol), vol.boot.rootCluster, path[..|path| - 1])
    modifies vol.dev`cache, vol.dev`cacheNext
    ensures vol.Valid() && Dirs(vol) == old(Dirs(vol))
    ensures Walked(Dirs(vol), vol.boot.rootCluster, path[..|path| - 1], w)
    ensures w.Arrived? ==> cluster == w.to
    ensures w.Stopped? ==> cluster == if w.n == 0 then garbage else w.to
  {
    hide Wf, BlockDevice.Valid, FileBytes, FindsFrom, LeadsTo, Searchable, StopsAfter, CrashesAfter;
    LeadsNowhere(Dirs(vol), vol.boot.rootCluster);
    if |path| == 1 {
      assert path[..0] == [];
      return vol.boot.rootCluster, Arrived(vol.boot.rootCluster);
    }
    w := PathSearch(vol, path[..|path| - 1]);
    cluster := if w.Stopped? && w.n == 0 then garbage else w.to;
  }

  function WithSize(e: Entry, size: nat): (r: Entry)
    requires size < 0x1_0000_0000
    ensures EntrySize(r) == size && r[..28] == e[..28]
  {
    Splice(e, 28, WordBytes(size))
  }

  /** `fat32_update_size`: the entry is looked up, then looked up again to be written back. */
  method UpdateSize(vol: Volume, cluster: nat, name: CString, size: nat) returns (status: int, r: Lookup)
    requires vol.Valid() && cluster in vol.chains && size < 0x1_0000_0000
    modifies vol.dev
    ensures vol.Valid() && Answers(old(DirBytes(vol, cluster)), name, r)
    ensures r.Hit? ==>
      && status == 0
      && EntryWritten(vol.boot, vol.limit, old(vol.dev.disk), vol.chains, vol.dev.disk, vol.chains, cluster, r.k,
                      WithSize(EntryAt(old(DirBytes(vol, cluster)), r.k), size))
    ensures !r.Hit? ==> vol.dev.disk == old(vol.dev.disk)
    ensures r.Miss? ==> status == ERROR_NOT_EXIST
  {
    hide FileBytes, BlockDevice.Valid, Wf, EntryWritten, FindsFrom, AbsentFrom, OverrunsFrom;
    ghost var dir := DirBytes(vol, cluster);
    var entry;
    r, entry := DirSearch(vol, cluster, name);
    status := ERROR_NOT_EXIST;
    if !r.Hit? {
      return;
    }
    entry := WithSize(entry, size);
    var again, ignored := DirSearch(vol, cluster, name);
    LookupUnique(dir, name, r, again);
    FindsInDir(dir, name, r.k);
    WriteEntry(vol, cluster, again.k, entry);
    status := 0;
  }

  /** Changing an entry's size keeps what every name resolves to. */
  lemma ResizeKeeps(before: seq<byte>, after: seq<byte>, k: nat, size: nat, name: seq<byte>, j: nat)
    requires size < 0x1_0000_0000 && InDir(before, k) && Replaced(before, after, k, WithSize(EntryAt(before, k), size))
    requires Finds(before, name, j) && !IsEnd(EntryAt(before, k))
    ensures Finds(after, name, j)
    ensures EntryAt(after, j) == if j == k then WithSize(EntryAt(before, k), size) else EntryAt(before, j)
  {
    hide FullName;
    var e, e' := EntryAt(before, k), WithSize(EntryAt(before, k), size);
    assert e'[..11] == e'[..28][..11] == e[..28][..11] == e[..11];
    assert e'[0] == e'[..28][0] == e[0] && e'[11] == e'[..28][11] == e[11];
    assert k < j ==> Skips(e, name);
    PassesReplaced(before, after, k, e', name, 0, j);
  }

  predicate IsDirectory(e: Entry) {
    e[11] / ATTR_DIRECTORY % 2 == 1
  }

  function Erased(e: Entry): (r: Entry)
    ensures IsDeleted(r) && r[1..] == e[1..]
  {
    e[0 := DELETED]
  }

  /** The files that are neither the directory nor the removed one, and the directory's change. */
  ghost predicate Removed(boot: Boot, limit: nat, disk0: Disk, chains0: Chains, disk: Disk, chains: Chains,
                          cluster: nat, c: nat, k: nat, e: Entry)
  {
    && Layout(boot, limit, disk0) && Layout(boot, limit, disk)
    && cluster in chains0 && c in chains0 && c != cluster && chains == chains0 - {c}
    && InVolume(limit, chains0[cluster])
    && (forall h :: h in chains0 && h != cluster && h != c ==> FileKept(boot, limit, disk0, chains0, disk, chains, h))
    && Replaced(FileBytes(boot, limit, disk0, chains0[cluster]), FileBytes(boot, limit, disk, chains0[cluster]), k, e)
  }

  lemma RemovedBySteps(boot: Boot, limit: nat, disk0: Disk, chains0: Chains, disk1: Disk, chains: Chains, disk2: Disk,
                       cluster: nat, c: nat, k: nat, e: Entry)
    requires Wf(boot, limit, disk0, chains0) && cluster in chains0 && c in chains0 && c != cluster
    requires Wf(boot, limit, disk1, chains) && chains == chains0 - {c} && SameOutsideFats(boot, disk0, disk1)
    requires EntryWritten(boot, limit, disk1, chains, disk2, chains, cluster, k, e)
    requires InVolume(limit, chains0[cluster]) && InDir(FileBytes(boot, limit, disk1, chains0[cluster]), k)
    ensures Removed(boot, limit, disk0, chains0, disk2, chains, cluster, c, k, e)
  {
    hide Overlay, OthersSame, Partition, FileBytes, HasFats, Mirrored, HasCluster, InsertsAt;
    EntryWrittenDir(boot, limit, disk1, chains, disk2, chains, cluster, k, e);
    FatsOnlyBytes(boot, limit, disk0, disk1, chains0[cluster]);
    WrittenKeepsOthers(boot, limit, disk1, chains, disk2, chains, cluster, 32 * k, e);
    forall h | h in chains0 && h != cluster && h != c ensures FileKept(boot, limit, disk0, chains0, disk2, chains, h) {
      ChainInVolume(FatOf(boot, disk0), limit, chains0, h);
      FatsThenKept(boot, limit, disk0, chains0, disk1, chains, disk2, chains, cluster, h);
    }
  }

  /** `fat32_file_remove` in the directory its path names: free the file's chain, then mark its
      entry deleted. */
  method FileRemove(vol: Volume, cluster: nat, name: CString) returns (status: int, r: Lookup)
    requires vol.Valid() && cluster in vol.chains
    requires forall j: nat :: Finds(DirBytes(vol, cluster), name, j) ==>
      var c := EntryCluster(EntryAt(DirBytes(vol, cluster), j)); c in vol.chains && c != cluster
    modifies vol.dev, vol`chains
    ensures vol.Valid() && Answers(old(DirBytes(vol, cluster)), name, r)
    ensures r.Hit? && !IsDirectory(EntryAt(old(DirBytes(vol, cluster)), r.k)) ==>
      && status == 0
      && var e := EntryAt(old(DirBytes(vol, cluster)), r.k);
         && Removed(vol.boot, vol.limit, old(vol.dev.disk), old(vol.chains), vol.dev.disk, vol.chains, cluster,
                    EntryCluster(e), r.k, Erased(e))
         && FreeClusters(FatOf(vol.boot, vol.dev.disk), vol.limit) ==
            old(FreeClusters(FatOf(vol.boot, vol.dev.disk), vol.limit))
              + (set x | x in old(vol.chains)[EntryCluster(e)])
    ensures !(r.Hit? && !IsDirectory(EntryAt(old(DirBytes(vol, cluster)), r.k))) ==>
      vol.dev.disk == old(vol.dev.disk) && vol.chains == old(vol.chains)
    ensures r.Hit? && IsDirectory(EntryAt(old(DirBytes(vol, cluster)), r.k)) ==> status == ERROR_NOT_FILE
    ensures r.Miss? ==> status == ERROR_NOT_EXIST
  {
    hide FileBytes, BlockDevice.Valid, Partition, IsChain, Mirrored, HasFats, HasCluster, Overlay, OthersSame,
      FatOf, FindsFrom, AbsentFrom, OverrunsFrom, EntryCluster;
    ghost var disk0, chains0, dir := vol.dev.disk, vol.chains, DirBytes(vol, cluster);
    var entry;
    r, entry := DirSearch(vol, cluster, name);
    if !r.Hit? {
      return ERROR_NOT_EXIST, r;
    }
    FindsInDir(dir, name, r.k);
    if entry[11] / ATTR_DIRECTORY % 2 == 1 {
      return ERROR_NOT_FILE, r;
    }
    vol.FreeChain(EntryCluster(entry));
    ghost var disk1, chains1 := vol.dev.disk, vol.chains;
    FatsOnlyBytes(vol.boot, vol.limit, disk0, disk1, chains0[cluster]);
    WriteEntry(vol, cluster, r.k, Erased(entry));
    RemovedBySteps(vol.boot, vol.limit, disk0, chains0, disk1, chains1, vol.dev.disk, cluster, EntryCluster(entry),
                   r.k, Erased(entry));
    status := 0;
  }

  /** After a removal: the name is gone exactly if no later entry carries it, every other name resolves as before. */
  lemma RemoveThenLookup(boot: Boot, limit: nat, disk0: Disk, chains0: Chains, disk: Disk, chains: Chains,
                         cluster: nat, c: nat, k: nat, e: Entry, name: seq<byte>)
    requires Removed(boot, limit, disk0, chains0, disk, chains, cluster, c, k, Erased(e))
    requires Finds(FileBytes(boot, limit, disk0, chains0[cluster]), name, k)
    ensures cluster in chains && chains[cluster] == chains0[cluster]
    ensures forall n :: RemoveLaw(FileBytes(boot, limit, disk0, chains0[cluster]),
                                  FileBytes(boot, limit, disk, chains[cluster]), k, name, n)
  {
    hide FileBytes, FindsFrom, RemoveLaw, HasFats, HasCluster, FileKept;
    forall n ensures RemoveLaw(FileBytes(boot, limit, disk0, chains0[cluster]),
                               FileBytes(boot, limit, disk, chains[cluster]), k, name, n) {
      RemoveObeys(FileBytes(boot, limit, disk0, chains0[cluster]), FileBytes(boot, limit, disk, chains[cluster]),
                  k, Erased(e), name, n);
    }
  }

  /** Creating a file and removing it again: every name is as it was, up to what lay behind the end marker. */
  lemma CreateThenRemove(boot: Boot, limit: nat, disk0: Disk, chains0: Chains, disk1: Disk, chains1: Chains,
                         disk2: Disk, chains2: Chains, cluster: nat, c: nat, k: nat, e: Entry, n: seq<byte>)
    requires Created(boot, limit, disk0, chains0, disk1, chains1, cluster, c, k, e)
    requires Removed(boot, limit, disk1, chains1, disk2, chains2, cluster, c, k, Erased(e))
    ensures var dir := FileBytes(boot, limit, disk0, chains0[cluster]);
      var last := FileBytes(boot, limit, disk2, chains1[cluster]);
      && (forall j: nat :: Finds(dir, n, j) ==> Finds(last, n, j) && EntryAt(last, j) == EntryAt(dir, j))
      && (forall j: nat :: Overruns(dir, n, j) ==> Overruns(last, n, j))
      && (Absent(dir, n) ==>
            (Absent(last, n) <==> AbsentFrom(FileBytes(boot, limit, disk0, chains1[cluster]), n, k + 1)))
  {
    hide FileBytes, FindsFrom, AbsentFrom, OverrunsFrom, HasFats, HasCluster, FileKept, InsertsAt;
    InsertThenRemove(FileBytes(boot, limit, disk0, chains0[cluster]), FileBytes(boot, limit, disk0, chains1[cluster]),
                     FileBytes(boot, limit, disk1, chains1[cluster]), FileBytes(boot, limit, disk2, chains1[cluster]),
                     k, e, Erased(e), n);
  }

  // ---- what creating and removing a file does to paths ----

  /** `dirs` has the bytes of every chain. */
  ghost predicate IsDirs(boot: Boot, limit: nat, disk: Disk, chains: Chains, dirs: map<nat, seq<byte>>)
    requires Layout(boot, limit, disk)
  {
    && dirs.Keys == chains.Keys
    && forall h :: h in chains ==> InVolume(limit, chains[h]) && dirs[h] == FileBytes(boot, limit, disk, chains[h])
  }

  /** No name of the path resolves behind a new entry `e` at `k` that would end the search for it. */
  ghost predicate Undisturbed(dir: seq<byte>, k: nat, e: Entry, path: seq<seq<byte>>) {
    forall n: seq<byte>, j: nat :: n in path && Finds(dir, n, j) ==> j < k || Skips(e, n)
  }

  lemma InsertKeepsFinds(dir: seq<byte>, stale: seq<byte>, after: seq<byte>, k: nat, e: Entry, n: seq<byte>, j: nat)
    requires InsertsAt(dir, k) && (InDir(dir, k) ==> stale == dir) && DirChange(dir, stale, after, k, e)
    requires Finds(dir, n, j) ==> j < k || Skips(e, n)
    ensures FindKept(dir, after, {}, n, j)
  {
    hide EntryCluster, EntryName, HasBase;
    CreateObeys(dir, stale, after, k, e, n);
  }

  /** After creating a file, undisturbed paths lead where they led. */
  lemma CreateKeepsPaths(boot: Boot, limit: nat, disk0: Disk, chains0: Chains, disk: Disk, chains: Chains,
                         cluster: nat, c: nat, k: nat, e: Entry, dirs: map<nat, seq<byte>>,
                         dirs': map<nat, seq<byte>>, from: nat, path: seq<seq<byte>>, to: nat)
    requires Created(boot, limit, disk0, chains0, disk, chains, cluster, c, k, e)
    requires IsDirs(boot, limit, disk0, chains0, dirs) && IsDirs(boot, limit, disk, chains, dirs')
    requires LeadsTo(dirs, from, path, to) && Undisturbed(dirs[cluster], k, e, path)
    ensures LeadsTo(dirs', from, path, to)
  {
    hide FileBytes, FindsFrom, HasFats, HasCluster, InsertsAt, DirChange, LeadsTo, Skips;
    var stale := FileBytes(boot, limit, disk0, chains[cluster]);
    forall h | h in dirs ensures DirKept(dirs, dirs', {}, h, path) {
      forall n: seq<byte>, j: nat | n in path ensures h in dirs' && FindKept(dirs[h], dirs'[h], {}, n, j) {
        if h == cluster {
          InsertKeepsFinds(dirs[cluster], stale, dirs'[cluster], k, e, n, j);
        } else {
          assert FileKept(boot, limit, disk0, chains0, disk, chains, h);
        }
      }
      assert h in chains;
    }
    PathsKept(dirs, dirs', {}, from, path, to);
  }

  /** And the path to the directory, with the name of the new file, leads to the new file, exactly if the directory had
      nothing before that place that ends the search. */
  lemma CreateLeads(boot: Boot, limit: nat, disk0: Disk, chains0: Chains, disk: Disk, chains: Chains,
                    cluster: nat, c: nat, k: nat, e: Entry, dirs: map<nat, seq<byte>>,
                    dirs': map<nat, seq<byte>>, from: nat, path: seq<seq<byte>>, n: seq<byte>)
    requires Created(boot, limit, disk0, chains0, disk, chains, cluster, c, k, e)
    requires IsDirs(boot, limit, disk0, chains0, dirs) && IsDirs(boot, limit, disk, chains, dirs')
    requires LeadsTo(dirs, from, path, cluster) && Undisturbed(dirs[cluster], k, e, path)
    requires Names(e, n) && Reaches(dirs[cluster], n, k)
    ensures LeadsTo(dirs', from, path + [n], EntryCluster(e))
  {
    hide FileBytes, FindsFrom, OverrunsFrom, HasFats, HasCluster, InsertsAt, LeadsTo, Skips, Reaches, InsertLaw,
      EntryName, HasBase;
    CreateKeepsPaths(boot, limit, disk0, chains0, disk, chains, cluster, c, k, e, dirs, dirs', from, path, cluster);
    CreateThenOpen(boot, limit, disk0, chains0, disk, chains, cluster, c, k, e);
    assert CreateLaw(dirs[cluster], FileBytes(boot, limit, disk0, chains[cluster]), dirs'[cluster], k, e, n);
    LeadsOn(dirs', from, path, cluster, n, k);
  }

  /** After removing a file, paths that do not come to it lead where they led. */
  lemma RemoveKeepsPaths(boot: Boot, limit: nat, disk0: Disk, chains0: Chains, disk: Disk, chains: Chains,
                         cluster: nat, c: nat, k: nat, e: Entry, dirs: map<nat, seq<byte>>,
                         dirs': map<nat, seq<byte>>, from: nat, path: seq<seq<byte>>, to: nat)
    requires Removed(boot, limit, disk0, chains0, disk, chains, cluster, c, k, Erased(e))
    requires IsDirs(boot, limit, disk0, chains0, dirs) && IsDirs(boot, limit, disk, chains, dirs')
    requires InDir(dirs[cluster], k) && EntryCluster(EntryAt(dirs[cluster], k)) == c
    requires LeadsTo(dirs - {c}, from, path, to) && to != c
    ensures LeadsTo(dirs', from, path, to)
  {
    hide FileBytes, FindsFrom, OverrunsFrom, HasFats, HasCluster, LeadsTo, EntryCluster;
    var rest := dirs - {c};
    forall h | h in rest ensures DirKept(rest, dirs', {c}, h, path) {
      forall n: seq<byte>, j: nat | n in path ensures h in dirs' && FindKept(rest[h], dirs'[h], {c}, n, j) {
        if h == cluster {
          if j != k {
            RemoveKeeps(dirs[cluster], dirs'[cluster], k, Erased(e), n, j);
          }
        } else {
          assert FileKept(boot, limit, disk0, chains0, disk, chains, h);
        }
      }
      assert h in chains;
    }
    PathsKept(rest, dirs', {c}, from, path, to);
  }

  /** And the path to it stops at its name, exactly if no later entry ends the search. */
  lemma RemoveStops(boot: Boot, limit: nat, disk0: Disk, chains0: Chains, disk: Disk, chains: Chains,
                    cluster: nat, c: nat, k: nat, e: Entry, dirs: map<nat, seq<byte>>,
                    dirs': map<nat, seq<byte>>, from: nat, path: seq<seq<byte>>, name: seq<byte>)
    requires Removed(boot, limit, disk0, chains0, disk, chains, cluster, c, k, Erased(e))
    requires IsDirs(boot, limit, disk0, chains0, dirs) && IsDirs(boot, limit, disk, chains, dirs')
    requires Finds(dirs[cluster], name, k) && LeadsTo(dirs', from, path, cluster)
    ensures StopsAfter(dirs', from, path + [name], |path|, cluster) <==> AbsentFrom(dirs[cluster], name, k + 1)
  {
    hide FileBytes, FindsFrom, AbsentFrom, HasFats, HasCluster, LeadsTo, FileKept;
    RemoveIsAbsent(dirs[cluster], dirs'[cluster], k, Erased(e), name);
    assert (path + [name])[..|path|] == path;
  }
}
