/** An open file: a byte string and a position, kept by the VFS as a start cluster, an offset and
    a size over a FAT32 volume. */
module FileDescriptor {
  import opened Bytes
  import opened BlockCache
  import opened DivMod
  import opened FatTable
  import opened Fat32Layout
  import opened Fat32Bytes
  import opened Fat32Write
  import opened Fat32Volume
  import opened Fat32Names
  import opened Fat32Dir
  import opened Fat32Files
  import opened Fat32Ops

  const ERROR_INVALID: int := -1
  const INT_LIMIT: nat := 0x8000_0000
  const UINT_LIMIT: nat := 0x1_0000_0000

  /** What a program sees of an open file. */
  datatype View = View(bytes: seq<byte>, pos: nat)

  datatype Origin = SEEK_SET | SEEK_CUR | SEEK_END

  datatype Call = ReadN(n: nat) | WriteAll(data: seq<byte>) | SeekTo(off: nat, origin: Origin)

  datatype Answer = Got(data: seq<byte>) | Wrote(n: nat) | At(pos: int) | Refused

  function Min(a: nat, b: nat): (m: nat) {
    if a <= b then a else b
  }

  function Overwrite(bytes: seq<byte>, pos: nat, data: seq<byte>): (r: seq<byte>)
    requires pos <= |bytes|
    ensures |r| == Max(|bytes|, pos + |data|)
  {
    bytes[..pos] + data + bytes[Min(pos + |data|, |bytes|)..]
  }

  /** A 32-bit position as the `int` it is returned as. */
  function AsInt(pos: nat): (r: int)
    ensures pos < UINT_LIMIT ==> 0 <= r + INT_LIMIT && r < INT_LIMIT && (r == pos || r == pos - UINT_LIMIT)
  {
    if pos < INT_LIMIT then pos else pos - UINT_LIMIT
  }

  /** Where a seek goes: any offset below the size is accepted, from whatever origin. */
  function Target(v: View, off: nat, origin: Origin): (pos: nat) {
    match origin
    case SEEK_SET => off
    case SEEK_CUR => (v.pos + off) % UINT_LIMIT
    case SEEK_END => (|v.bytes| + off) % UINT_LIMIT
  }

  /** Whether a call starts inside the file or at its end, if it is a write. */
  predicate Starts(v: View, append: bool, call: Call) {
    call.WriteAll? && !append ==> v.pos <= |v.bytes|
  }

  /** The operations on a byte string with a position, in append mode or not. */
  function Perform(v: View, append: bool, call: Call): (r: (View, Answer))
    requires Starts(v, append, call)
  {
    match call
    case ReadN(n) =>
      var got := if v.pos >= |v.bytes| then [] else v.bytes[v.pos..Min(v.pos + n, |v.bytes|)];
      (View(v.bytes, v.pos + |got|), Got(got))
    case WriteAll(data) =>
      var pos := if append then |v.bytes| else v.pos;
      (View(Overwrite(v.bytes, pos, data), pos + |data|), Wrote(|data|))
    case SeekTo(off, origin) =>
      var pos := Target(v, off, origin);
      if off >= |v.bytes| then (v, Refused) else (View(v.bytes, pos), At(AsInt(pos)))
  }

  /** No write of the sequence starts past the end of the file. */
  predicate AllStart(v: View, append: bool, calls: seq<Call>)
    decreases |calls|
  {
    calls == [] || (Starts(v, append, calls[0]) && AllStart(Perform(v, append, calls[0]).0, append, calls[1..]))
  }

  function PerformAll(v: View, append: bool, calls: seq<Call>): (r: (View, seq<Answer>))
    requires AllStart(v, append, calls)
    decreases |calls|
  {
    if calls == [] then (v, []) else
    var (v', answer) := Perform(v, append, calls[0]);
    var (final, answers) := PerformAll(v', append, calls[1..]);
    (final, [answer] + answers)
  }

  lemma {:induction false} PerformAllSnoc(v: View, append: bool, calls: seq<Call>, call: Call)
    requires AllStart(v, append, calls + [call])
    ensures AllStart(v, append, calls) && Starts(PerformAll(v, append, calls).0, append, call)
    ensures var (mid, answers) := PerformAll(v, append, calls);
      var (last, answer) := Perform(mid, append, call);
      PerformAll(v, append, calls + [call]) == (last, answers + [answer])
    decreases |calls|
  {
    hide Perform;
    if calls == [] {
      assert calls + [call] == [call] && [call][1..] == [];
      var (last, answer) := Perform(v, append, call);
      assert PerformAll(last, append, []) == (last, []);
      assert [answer] + [] == [] + [answer];
    } else {
      assert (calls + [call])[0] == calls[0] && (calls + [call])[1..] == calls[1..] + [call];
      var (v', first) := Perform(v, append, calls[0]);
      PerformAllSnoc(v', append, calls[1..], call);
      var (mid, rest) := PerformAll(v', append, calls[1..]);
      var answer := Perform(mid, append, call).1;
      assert [first] + (rest + [answer]) == ([first] + rest) + [answer];
    }
  }

  /** The first calls of a sequence are as good as the whole. */
  lemma {:induction false} AllStartPrefix(v: View, append: bool, calls: seq<Call>, i: nat)
    requires i <= |calls| && AllStart(v, append, calls)
    ensures AllStart(v, append, calls[..i])
    decreases |calls|
  {
    hide Perform;
    if i > 0 {
      assert calls[..i][0] == calls[0] && calls[..i][1..] == calls[1..][..i - 1];
      AllStartPrefix(Perform(v, append, calls[0]).0, append, calls[1..], i - 1);
    }
  }

  /** A file never shrinks. */
  lemma {:induction false} PerformAllGrows(v: View, append: bool, calls: seq<Call>, i: nat)
    requires i <= |calls| && AllStart(v, append, calls) && AllStart(v, append, calls[..i])
    ensures |PerformAll(v, append, calls[..i]).0.bytes| <= |PerformAll(v, append, calls).0.bytes|
    decreases |calls| - i
  {
    if i == |calls| {
      assert calls[..i] == calls;
    } else {
      assert calls[..i + 1] == calls[..i] + [calls[i]];
      AllStartPrefix(v, append, calls, i + 1);
      PerformAllSnoc(v, append, calls[..i], calls[i]);
      PerformAllGrows(v, append, calls, i + 1);
    }
  }

  // ---- what calls do together ----

  /** A read after an accepted SEEK_SET returns the bytes from there on, as many as there are. */
  lemma SeekThenRead(v: View, append: bool, off: nat, n: nat)
    requires off < |v.bytes|
    ensures var at := Perform(v, append, SeekTo(off, SEEK_SET));
      at.1.At? && Perform(at.0, append, ReadN(n)).1 == Got(v.bytes[off..][..Min(n, |v.bytes| - off)])
  {
    assert v.bytes[off..][..Min(n, |v.bytes| - off)] == v.bytes[off..Min(off + n, |v.bytes|)];
  }

  /** Two moves from the position add up. */
  lemma SeeksAdd(v: View, append: bool, a: nat, b: nat)
    requires a < |v.bytes| && b < |v.bytes| && a + b < |v.bytes| && v.pos + a + b < UINT_LIMIT
    ensures Perform(Perform(v, append, SeekTo(a, SEEK_CUR)).0, append, SeekTo(b, SEEK_CUR)) ==
            Perform(v, append, SeekTo(a + b, SEEK_CUR))
    ensures Perform(v, append, SeekTo(0, SEEK_CUR)) == (v, At(AsInt(v.pos)))
  {
  }

  /** Nothing can be read after a SEEK_END. */
  lemma SeekEndThenRead(v: View, append: bool, off: nat, n: nat)
    requires off < |v.bytes| && |v.bytes| + off < UINT_LIMIT
    ensures Perform(Perform(v, append, SeekTo(off, SEEK_END)).0, append, ReadN(n)).1 == Got([])
    ensures Perform(v, append, SeekTo(off, SEEK_END)).0.pos == |v.bytes| + off
  {
  }

  /** One read after the other is one read of both lengths. */
  lemma ReadsJoin(v: View, append: bool, n: nat, m: nat)
    ensures var first := Perform(v, append, ReadN(n));
      var second := Perform(first.0, append, ReadN(m));
      Perform(v, append, ReadN(n + m)) == (second.0, Got(first.1.data + second.1.data))
  {
    if v.pos < |v.bytes| {
      var mid := Min(v.pos + n, |v.bytes|);
      var end := Min(mid + m, |v.bytes|);
      assert v.bytes[v.pos..mid] + v.bytes[mid..end] == v.bytes[v.pos..end];
      assert mid == |v.bytes| ==> v.bytes[mid..end] == [];
    } else {
      var none: seq<byte> := [];
      assert none + none == none;
    }
  }

  /** What was written reads back after going back to where it was written, and nothing before or behind it changes. */
  lemma WriteThenSeekRead(v: View, append: bool, data: seq<byte>)
    requires Starts(v, append, WriteAll(data)) && data != []
    ensures var pos := if append then |v.bytes| else v.pos;
      var after := Perform(v, append, WriteAll(data)).0;
      && after.pos == pos + |data| && pos < |after.bytes|
      && Perform(Perform(after, append, SeekTo(pos, SEEK_SET)).0, append, ReadN(|data|)).1 == Got(data)
      && after.bytes[..pos] == v.bytes[..pos]
      && (pos + |data| <= |v.bytes| ==> after.bytes[pos + |data|..] == v.bytes[pos + |data|..])
      && (pos + |data| > |v.bytes| ==> |after.bytes| == pos + |data|)
  {
    var pos := if append then |v.bytes| else v.pos;
    var after := Perform(v, append, WriteAll(data)).0;
    assert after.bytes[pos..pos + |data|] == data;
  }

  function BytesWritten(call: Call): (n: nat) {
    if call.WriteAll? then |call.data| else 0
  }

  function TotalWritten(calls: seq<Call>): (n: nat) {
    if calls == [] then 0 else BytesWritten(calls[0]) + TotalWritten(calls[1..])
  }

  predicate BoundedCall(call: Call) {
    match call
    case ReadN(n) => n < INT_LIMIT
    case WriteAll(data) => true
    case SeekTo(off, _) => off < UINT_LIMIT
  }

  /** Counts and offsets that fit the kernel's `int`. */
  predicate Bounded(calls: seq<Call>) {
    forall i :: 0 <= i < |calls| ==> BoundedCall(calls[i])
  }

  class FileDesc {
    const vol: Volume
    const dirCluster: nat        // the directory and name of the path kept for the size update
    const name: CString
    var used: bool
    var read: bool
    var write: bool
    var append: bool
    var dir: bool
    var block: nat
    var offset: nat
    var size: nat

    constructor (vol: Volume, dirCluster: nat, name: CString, block: nat, size: nat, read: bool, write: bool,
                 append: bool)
      requires vol.Valid() && block in vol.chains && size <= FileSpan(vol.boot, vol.chains[block])
      ensures this.vol == vol && this.dirCluster == dirCluster && this.name == name
      ensures Valid() && this.read == read && this.write == write && this.append == append
      ensures this.block == block && this.size == size && offset == 0 && used && !dir
    {
      this.vol, this.dirCluster, this.name := vol, dirCluster, name;
      this.block, this.size, this.offset := block, size, 0;
      this.used, this.read, this.write, this.append, this.dir := true, read, write, append, false;
    }

    ghost predicate Valid()
      reads this, vol, vol.dev
    {
      && vol.Valid()
      && block in vol.chains
      && offset < UINT_LIMIT && size <= FileSpan(vol.boot, vol.chains[block])
    }

    ghost function Contents(): (v: View)
      reads this, vol, vol.dev
      requires Valid()
      ensures |v.bytes| == size && v.pos == offset
    {
      View(DirBytes(vol, block)[..size], offset)
    }

    /** Clusters the file has or could get. */
    ghost function Capacity(): (n: nat)
      reads this, vol, vol.dev
      requires Valid()
    {
      |vol.chains[block]| + |FreeClusters(FatOf(vol.boot, vol.dev.disk), vol.limit)|
    }

    /** `vfs_fd_read`. The driver is asked for the whole request even past the end of the file;
        only the counted bytes mean anything. */
    method ReadBytes(n: nat) returns (status: int, buf: seq<byte>)
      requires Valid() && n < INT_LIMIT && (offset < size ==> offset + n < UINT_LIMIT)
      modifies this`offset, vol.dev`cache, vol.dev`cacheNext
      ensures Valid()
      ensures !(used && read && !dir) ==> status == ERROR_INVALID && offset == old(offset)
      ensures used && read && !dir ==>
        && 0 <= status <= |buf|
        && (Contents(), Got(buf[..status])) == Perform(old(Contents()), append, ReadN(n))
    {
      hide BlockDevice.Valid, FileBytes, Matches, Partition, HasFats, Mirrored, HasCluster, Perform;
      buf := [];
      if !used || !read || dir {
        return ERROR_INVALID, buf;
      }
      PerformRead(Contents(), append, n);
      if offset >= size {
        return 0, buf;
      }
      if offset + n > size {
        status := size - offset;
      } else {
        status := n;
      }
      buf := vol.Read(block, offset, n);
      ReadCounted(vol.boot, vol.limit, vol.dev.disk, vol.chains[block], offset, buf, status, size);
      offset := offset + status;
    }

    /** Where `vfs_fd_write` writes. */
    function WritesAt(): (pos: nat)
      reads this
    {
      if append then size else offset
    }

    /** `vfs_fd_write`: as long as the volume has room for it, and exactly then, the file keeps its chain. A write that
        starts past the end of the file leaves bytes there as they are on the disk; one that starts beyond the cluster
        after the file's chain leaves a size that the chain does not have. */
    method WriteBytes(data: seq<byte>) returns (status: int, kept: bool)
      requires Valid() && |data| < INT_LIMIT && WritesAt() + |data| < UINT_LIMIT
      modifies this`offset, this`size, vol.dev, vol`chains
      ensures !(used && write && !dir) ==>
        && Valid() && kept && status == ERROR_INVALID && offset == old(offset) && size == old(size)
        && vol.dev.disk == old(vol.dev.disk) && vol.chains == old(vol.chains)
      ensures used && write && !dir ==>
        (kept <==>
          RoomFor(vol.boot, Placed(vol.boot, old(|vol.chains[block]|), old(WritesAt())), |data|, old(Capacity())))
      ensures used && write && !dir && kept ==>
        && status == |data| && vol.Valid() && block in vol.chains
        && offset == old(WritesAt()) + |data| && size == Max(old(size), offset)
        && OthersKept(vol.boot, vol.limit, old(vol.dev.disk), old(vol.chains), vol.dev.disk, vol.chains, block)
      ensures used && write && !dir && kept && old(WritesAt()) <= old(size) ==>
        && Valid() && Capacity() == old(Capacity())
        && (Contents(), Wrote(|data|)) == Perform(old(Contents()), append, WriteAll(data))
      ensures used && write && !dir && kept && data != [] ==>
        (Valid() <==> vol.boot.ClusterIndex(old(WritesAt())) <= old(|vol.chains[block]|))
      ensures used && write && !dir && kept && data != [] && Valid() && old(WritesAt()) > old(size) ==>
        Sparse(old(Contents()).bytes, Contents().bytes, old(WritesAt()), data)
      ensures !kept ==> HasFats(vol.boot, vol.dev.disk) && !HasChain(FatOf(vol.boot, vol.dev.disk), vol.limit, block)
    {
      hide BlockDevice.Valid, FileBytes, Overlay, OthersSame, Partition, HasFats, Mirrored, HasCluster, OthersKept,
        Perform, Overwrite, HasChain, Placed, ClustersFor, Sparse;
      if !used || !write || dir {
        return ERROR_INVALID, true;
      }
      ghost var view := Contents();
      if append {
        offset := size;
      }
      ghost var pos, size0 := offset, size;
      ghost var disk0, chains0 := vol.dev.disk, vol.chains;
      var ret;
      ret, kept := vol.Write(block, data, offset);
      offset := offset + ret;
      if offset > size {
        size := size + (offset - size);
      }
      status := ret;
      if kept {
        WrittenKeepsOthers(vol.boot, vol.limit, disk0, chains0, vol.dev.disk, vol.chains, block,
                           Placed(vol.boot, |chains0[block]|, pos), data);
        WrittenView(vol.boot, vol.limit, disk0, chains0, vol.dev.disk, vol.chains, block, pos, data, size0);
        if pos <= size0 {
          PerformWrite(view, append, data);
        }
      }
    }

    /** `vfs_fd_seek`. Only an offset below the size is accepted, so that SEEK_END leaves the file unless it wraps. */
    method Seek(off: nat, origin: Origin) returns (status: int)
      requires Valid() && off < UINT_LIMIT
      modifies this`offset
      ensures Valid()
      ensures used && !dir ==>
        (Contents(), if off < size then At(status) else Refused) ==
        Perform(old(Contents()), append, SeekTo(off, origin))
      ensures !(used && !dir) ==> offset == old(offset)
      ensures !(used && !dir && off < size) ==> status == ERROR_INVALID
      ensures used && !dir && origin.SEEK_END? && off < size && size < INT_LIMIT ==> offset >= size
    {
      hide BlockDevice.Valid, FileBytes, Partition, HasFats, Mirrored, HasCluster;
      if !used || dir {
        return ERROR_INVALID;
      }
      if off >= size {
        return ERROR_INVALID;
      }
      match origin {
        case SEEK_SET => offset := off;
        case SEEK_CUR => offset := (offset + off) % UINT_LIMIT;
        case SEEK_END => offset := (size + off) % UINT_LIMIT;
      }
      return AsInt(offset);
    }

    /** Any sequence of reads, seeks and writes that start inside the file answers as the byte string with a position
        does, as long as the file keeps its chain; and it does exactly if the volume has room for what the byte string
        becomes. */
    method Run(calls: seq<Call>) returns (answers: seq<Answer>, kept: bool)
      requires Valid() && used && read && write && !dir
      requires Bounded(calls) && size + TotalWritten(calls) < INT_LIMIT && AllStart(Contents(), append, calls)
      modifies this`offset, this`size, vol.dev, vol`chains
      ensures kept <==>
        ClustersFor(vol.boot, |PerformAll(old(Contents()), append, calls).0.bytes|) <= old(Capacity())
      ensures kept ==> Valid() && (Contents(), answers) == PerformAll(old(Contents()), append, calls)
      ensures !kept ==> HasFats(vol.boot, vol.dev.disk) && !HasChain(FatOf(vol.boot, vol.dev.disk), vol.limit, block)
    {
      hide BlockDevice.Valid, FileBytes, Partition, HasFats, Mirrored, HasCluster, OthersKept, Perform, HasChain;
      answers := [];
      ghost var bound, start := size + TotalWritten(calls), Contents();
      var i := 0;
      assert calls[0..] == calls;
      while i < |calls|
        invariant 0 <= i <= |calls| && Valid() && Capacity() == old(Capacity())
        invariant size + TotalWritten(calls[i..]) <= bound
        invariant AllStart(start, append, calls[..i]) && PerformAll(start, append, calls[..i]) == (Contents(), answers)
      {
        assert calls[i..][0] == calls[i] && calls[i..][1..] == calls[i + 1..];
        assert calls[..i + 1] == calls[..i] + [calls[i]];
        AllStartPrefix(start, append, calls, i + 1);
        PerformAllSnoc(start, append, calls[..i], calls[i]);
        var answer, ok := PerformCall(calls[i], bound, TotalWritten(calls[i + 1..]));
        if !ok {
          PerformAllGrows(start, append, calls, i + 1);
          ClustersForMono(vol.boot, |PerformAll(start, append, calls[..i + 1]).0.bytes|,
                          |PerformAll(start, append, calls).0.bytes|);
          return answers, false;
        }
        answers := answers + [answer];
        i := i + 1;
      }
      assert calls[..i] == calls;
      ClustersForBound(vol.boot, size, |vol.chains[block]|);
      kept := true;
    }

    /** One call of a run. */
    method PerformCall(call: Call, ghost bound: nat, ghost later: nat) returns (answer: Answer, kept: bool)
      requires Valid() && used && read && write && !dir && Starts(Contents(), append, call)
      requires BoundedCall(call) && size + BytesWritten(call) + later <= bound < INT_LIMIT
      modifies this`offset, this`size, vol.dev, vol`chains
      ensures kept ==> Valid() && Capacity() == old(Capacity()) && size + later <= bound
      ensures kept ==> (Contents(), answer) == Perform(old(Contents()), append, call)
      ensures !kept ==> ClustersFor(vol.boot, |Perform(old(Contents()), append, call).0.bytes|) > old(Capacity())
      ensures !kept ==> HasFats(vol.boot, vol.dev.disk) && !HasChain(FatOf(vol.boot, vol.dev.disk), vol.limit, block)
    {
      hide BlockDevice.Valid, FileBytes, Partition, HasFats, Mirrored, HasCluster, OthersKept, Overwrite, HasChain;
      kept := true;
      match call
      case ReadN(n) =>
        var status, buf := ReadBytes(n);
        answer := Got(buf[..status]);
      case WriteAll(data) =>
        ghost var pos, view := WritesAt(), Contents();
        InsideIndex(vol.boot, |vol.chains[block]|, pos);
        var status;
        status, kept := WriteBytes(data);
        if kept {
          answer := Wrote(status);
        } else {
          answer := Refused;
          ClustersForMono(vol.boot, pos + |data|, |Overwrite(view.bytes, pos, data)|);
        }
      case SeekTo(off, origin) =>
        var status := Seek(off, origin);
        answer := if off < size then At(status) else Refused;
    }

    /** `vfs_fd_close`: a file that was open for writing leaves its size in its directory entry, if the search for it
        comes to it. The model stops where the search runs off the driver's buffer. */
    method Close() returns (status: int, r: Lookup)
      requires Valid() && size < UINT_LIMIT
      requires used && !dir && write ==> dirCluster in vol.chains && dirCluster != block
      modifies this`used, vol.dev
      ensures Valid() && DirBytes(vol, block) == old(DirBytes(vol, block))
      ensures !(old(used) && !dir) ==> status == ERROR_INVALID && used == old(used)
      ensures !(old(used) && !dir && write) ==> vol.dev.disk == old(vol.dev.disk)
      ensures old(used) && !dir && !(write && r.Crash?) ==> status == 0 && !used
      ensures old(used) && !dir && write ==>
        && Answers(old(DirBytes(vol, dirCluster)), name, r)
        && (r.Hit? ==> SizeStored(old(DirBytes(vol, dirCluster)), DirBytes(vol, dirCluster), r.k))
        && (!r.Hit? ==> vol.dev.disk == old(vol.dev.disk))
    {
      hide BlockDevice.Valid, FileBytes, Wf, FindsFrom, AbsentFrom, OverrunsFrom, EntrySize, EntryCluster;
      r := Miss;
      if !used || dir {
        return ERROR_INVALID, r;
      }
      if write {
        r := StoreSize();
        if r.Crash? {
          return 0, r;
        }
      }
      used := false;
      status := 0;
    }

    /** The name still resolves to entry `k`, which now has the file's size. */
    ghost predicate SizeStored(before: seq<byte>, after: seq<byte>, k: nat)
      reads this`size
      requires Finds(before, name, k)
    {
      && Finds(after, name, k) && EntrySize(EntryAt(after, k)) == size
      && EntryCluster(EntryAt(after, k)) == EntryCluster(EntryAt(before, k))
    }

    /** The size update of `vfs_fd_close`; its status is ignored. */
    method StoreSize() returns (r: Lookup)
      requires Valid() && size < UINT_LIMIT
      requires dirCluster in vol.chains && dirCluster != block
      modifies vol.dev
      ensures Valid() && DirBytes(vol, block) == old(DirBytes(vol, block))
      ensures Answers(old(DirBytes(vol, dirCluster)), name, r)
      ensures r.Hit? ==> SizeStored(old(DirBytes(vol, dirCluster)), DirBytes(vol, dirCluster), r.k)
      ensures !r.Hit? ==> vol.dev.disk == old(vol.dev.disk)
    {
      hide BlockDevice.Valid, FileBytes, Overlay, OthersSame, Partition, HasFats, Mirrored, HasCluster, FindsFrom,
        AbsentFrom, OverrunsFrom, EntrySize, EntryCluster, WithSize;
      ghost var disk0, entries := vol.dev.disk, DirBytes(vol, dirCluster);
      var ignored;
      ignored, r := UpdateSize(vol, dirCluster, name, size);
      if r.Hit? {
        FindsInDir(entries, name, r.k);
        ghost var e := WithSize(EntryAt(entries, r.k), size);
        EntryWrittenDir(vol.boot, vol.limit, disk0, vol.chains, vol.dev.disk, vol.chains, dirCluster, r.k, e);
        WrittenKeepsOthers(vol.boot, vol.limit, disk0, vol.chains, vol.dev.disk, vol.chains, dirCluster, 32 * r.k, e);
        assert FileKept(vol.boot, vol.limit, disk0, vol.chains, vol.dev.disk, vol.chains, block);
        ResizeFinds(entries, DirBytes(vol, dirCluster), r.k, size, name);
      }
    }
  }

  lemma ResizeFinds(before: seq<byte>, after: seq<byte>, k: nat, size: nat, name: seq<byte>)
    requires size < UINT_LIMIT && Finds(before, name, k)
    requires Replaced(before, after, k, WithSize(EntryAt(before, k), size))
    ensures Finds(after, name, k) && EntrySize(EntryAt(after, k)) == size
    ensures EntryCluster(EntryAt(after, k)) == EntryCluster(EntryAt(before, k))
  {
    ResizeKeeps(before, after, k, size, name, k);
    var e, e' := EntryAt(before, k), EntryAt(after, k);
    assert e'[..28] == e[..28];
    assert e'[20] == e'[..28][20] && e'[21] == e'[..28][21] && e'[26] == e'[..28][26] && e'[27] == e'[..28][27];
  }

  lemma PerformRead(v: View, append: bool, n: nat)
    ensures Perform(v, append, ReadN(n)) ==
      var got := if v.pos >= |v.bytes| then [] else v.bytes[v.pos..Min(v.pos + n, |v.bytes|)];
      (View(v.bytes, v.pos + |got|), Got(got))
  {
  }

  lemma PerformWrite(v: View, append: bool, data: seq<byte>)
    requires Starts(v, append, WriteAll(data))
    ensures Perform(v, append, WriteAll(data)) ==
      var pos := if append then |v.bytes| else v.pos; (View(Overwrite(v.bytes, pos, data), pos + |data|), Wrote(|data|))
  {
  }

  lemma ReadCounted(boot: Boot, limit: nat, disk: Disk, chain: seq<nat>, offset: nat, buf: seq<byte>, n: nat,
                    size: nat)
    requires Layout(boot, limit, disk) && InVolume(limit, chain)
    requires Matches(boot, limit, disk, chain, offset, buf) && n <= |buf|
    requires offset + n <= size <= FileSpan(boot, chain)
    ensures buf[..n] == FileBytes(boot, limit, disk, chain)[..size][offset..offset + n]
  {
    var bytes := FileBytes(boot, limit, disk, chain);
    forall k: nat | k < n ensures buf[k] == bytes[offset + k] {
      assert bytes[offset + k] == FileByte(boot, limit, disk, chain, offset + k);
    }
  }

  /** The file is as long as its new end, with its old bytes and the data at their places, and something between. */
  ghost predicate Sparse(before: seq<byte>, after: seq<byte>, pos: nat, data: seq<byte>) {
    && |before| <= pos && |after| == pos + |data|
    && after[..|before|] == before && after[pos..] == data
  }

  /** What a write of `data` at `pos` makes of the first bytes of the file. */
  lemma WrittenView(boot: Boot, limit: nat, disk0: Disk, chains0: Chains, disk: Disk, chains: Chains,
                    block: nat, pos: nat, data: seq<byte>, size: nat)
    requires Wf(boot, limit, disk0, chains0) && block in chains0
    requires Written(boot, limit, disk0, chains0, disk, chains, block, Placed(boot, |chains0[block]|, pos), data)
    requires size <= FileSpan(boot, chains0[block])
    requires |chains[block]| == Grows(boot, |chains0[block]|, Placed(boot, |chains0[block]|, pos), |data|)
    ensures InVolume(limit, chains0[block]) && InVolume(limit, chains[block])
    ensures pos <= size ==>
      && Max(size, pos + |data|) <= FileSpan(boot, chains[block])
      && FileBytes(boot, limit, disk, chains[block])[..Max(size, pos + |data|)] ==
         Overwrite(FileBytes(boot, limit, disk0, chains0[block])[..size], pos, data)
    ensures data != [] ==>
      (Max(size, pos + |data|) <= FileSpan(boot, chains[block]) <==> boot.ClusterIndex(pos) <= |chains0[block]|)
    ensures data != [] && pos > size && pos + |data| <= FileSpan(boot, chains[block]) ==>
      Sparse(FileBytes(boot, limit, disk0, chains0[block])[..size],
             FileBytes(boot, limit, disk, chains[block])[..pos + |data|], pos, data)
  {
    hide FileBytes, Overlay, OthersSame, Partition, HasFats, Mirrored, HasCluster, Overwrite, Sparse, ClustersFor;
    ChainInVolume(FatOf(boot, disk0), limit, chains0, block);
    if pos <= size {
      InsideIndex(boot, |chains0[block]|, pos);
      OverwriteFile(boot, limit, disk0, chains0, disk, chains, block, pos, data, size);
    }
    if data != [] {
      PlacedEnd(boot, |chains0[block]|, pos, |data|);
      if pos > size && boot.ClusterIndex(pos) <= |chains0[block]| {
        SparseFile(boot, limit, disk0, chains0, disk, chains, block, pos, data, size);
      }
    }
  }

  lemma InsideIndex(boot: Boot, length: nat, pos: nat)
    requires boot.Wf() && pos <= length * boot.ClusterSize()
    ensures boot.ClusterIndex(pos) <= length
  {
    Distribute(length, -1, boot.ClusterSize());
    DivBelow(pos, boot.ClusterSize(), length + 1);
  }

  /** A chain that has just room for a misplaced write is shorter than the offset of its end. */
  lemma PlacedEnd(boot: Boot, length: nat, pos: nat, n: nat)
    requires boot.Wf() && 0 < n
    ensures var at := Placed(boot, length, pos);
      boot.ClusterIndex(pos) > length ==> pos + n > Grows(boot, length, at, n) * boot.ClusterSize()
  {
    hide Div, Mod;
    var size, at := boot.ClusterSize(), Placed(boot, length, pos);
    if boot.ClusterIndex(pos) > length {
      DivModSplit(pos, size);
      var i: int, l: int := boot.ClusterIndex(pos), length;
      Distribute(i, l, size);
      MulLeast(i - l, size);
      assert pos >= at + size;
      ClustersLeast(boot, at + n);
      ClustersForBound(boot, at, length + 1);
      EndsBehind(boot, length, at, n);
    }
  }

  lemma ClustersLeast(boot: Boot, x: nat)
    requires boot.Wf()
    ensures ClustersFor(boot, x) * boot.ClusterSize() < x + boot.ClusterSize()
  {
    DivModSplit(x + boot.ClusterSize() - 1, boot.ClusterSize());
  }

  lemma EndsBehind(boot: Boot, length: nat, at: nat, n: nat)
    requires boot.Wf() && at >= length * boot.ClusterSize() && 0 < n
    ensures ClustersFor(boot, at + n) > length
  {
    ClustersForMono(boot, length * boot.ClusterSize() + 1, at + n);
    DivModUnique(length * boot.ClusterSize() + 1 + boot.ClusterSize() - 1, boot.ClusterSize(), length + 1, 0) by {
      Distribute(length, -1, boot.ClusterSize());
    }
  }

  lemma SparseFile(boot: Boot, limit: nat, disk0: Disk, chains0: Chains, disk: Disk, chains: Chains,
                   block: nat, pos: nat, data: seq<byte>, size: nat)
    requires Written(boot, limit, disk0, chains0, disk, chains, block, pos, data) && data != []
    requires InVolume(limit, chains0[block]) && size <= FileSpan(boot, chains0[block]) && size < pos
    ensures pos + |data| <= FileSpan(boot, chains[block])
    ensures Sparse(FileBytes(boot, limit, disk0, chains0[block])[..size],
                   FileBytes(boot, limit, disk, chains[block])[..pos + |data|], pos, data)
  {
    hide FileBytes, Overlay, OthersSame, Partition, HasFats, Mirrored, HasCluster;
    WriteSplices(boot, limit, disk0, chains0, disk, chains, block, pos, data);
    var before, after := FileBytes(boot, limit, disk0, chains0[block]), FileBytes(boot, limit, disk, chains[block]);
    var stale := FileBytes(boot, limit, disk0, chains[block]);
    assert after[..pos] == stale[..pos];
    assert after[..pos + |data|][..size] == after[..pos][..size] == stale[..|before|][..size] == before[..size];
  }

  lemma OverwriteFile(boot: Boot, limit: nat, disk0: Disk, chains0: Chains, disk: Disk, chains: Chains,
                      block: nat, pos: nat, data: seq<byte>, size: nat)
    requires Written(boot, limit, disk0, chains0, disk, chains, block, pos, data)
    requires InVolume(limit, chains0[block]) && pos <= size <= FileSpan(boot, chains0[block])
    ensures Wf(boot, limit, disk, chains) && block in chains && InVolume(limit, chains[block])
    ensures Max(size, pos + |data|) <= FileSpan(boot, chains[block])
    ensures FileBytes(boot, limit, disk, chains[block])[..Max(size, pos + |data|)] ==
            Overwrite(FileBytes(boot, limit, disk0, chains0[block])[..size], pos, data)
  {
    hide FileBytes, Overlay, OthersSame, Partition, HasFats, Mirrored, HasCluster, Overwrite, Spliced;
    WriteSplices(boot, limit, disk0, chains0, disk, chains, block, pos, data);
    OverwriteSpliced(FileBytes(boot, limit, disk0, chains0[block]), FileBytes(boot, limit, disk, chains[block]),
                     FileBytes(boot, limit, disk0, chains[block]), pos, data, size);
  }

  lemma OverwriteSpliced(before: seq<byte>, after: seq<byte>, stale: seq<byte>, pos: nat, data: seq<byte>, size: nat)
    requires Spliced(before, after, stale, pos, data) && pos <= size <= |before|
    ensures Max(size, pos + |data|) <= |after|
    ensures after[..Max(size, pos + |data|)] == Overwrite(before[..size], pos, data)
  {
    var n := Max(size, pos + |data|);
    forall k: nat | k < n ensures after[k] == Overwrite(before[..size], pos, data)[k] {
      assert k < |before| ==> before[k] == stale[k];
    }
  }
}
