/** The 512-slot round-robin sector cache in front of a block device driver. */
module BlockCache {
  import opened Bytes

  const CACHE_MAX: nat := 512
  const ERROR_DRIVER: int := -8

  datatype Slot = Empty | Filled(lba: int, buf: Sector)

  datatype Op = Read(lba: int) | Write(lba: int, data: Sector)

  /** What the same operations answer when they go to the device directly. */
  datatype Reply = Data(sector: Sector) | Stored | Failed

  type Disk = map<int, Sector>

  /** The uncached device: addresses outside `disk` are refused by the driver. */
  function DirectDisk(disk: Disk, ops: seq<Op>): (d: Disk)
    ensures d.Keys == disk.Keys
  {
    if ops == [] then disk else
    match ops[0]
    case Read(_) => DirectDisk(disk, ops[1..])
    case Write(lba, data) => DirectDisk(if lba in disk then disk[lba := data] else disk, ops[1..])
  }

  function DirectReplies(disk: Disk, ops: seq<Op>): (r: seq<Reply>)
    ensures |r| == |ops|
  {
    if ops == [] then [] else
    match ops[0]
    case Read(lba) =>
      [if lba in disk then Data(disk[lba]) else Failed] + DirectReplies(disk, ops[1..])
    case Write(lba, data) =>
      if lba in disk
      then [Stored] + DirectReplies(disk[lba := data], ops[1..])
      else [Failed] + DirectReplies(disk, ops[1..])
  }

  /** Two replies agree, except that the cache reports success (and stale bytes) for a sector
      the driver refuses to read. */
  predicate Agrees(direct: Reply, cached: Reply) {
    if direct.Failed? then !cached.Stored? else cached == direct
  }

  predicate Caches(slot: Slot, lba: int) {
    slot.Filled? && slot.lba == lba
  }

  class BlockDevice {
    var disk: Disk            // the sectors behind the driver
    var cache: seq<Slot>
    var cacheNext: nat

    ghost predicate Valid()
      reads this
    {
      && |cache| == CACHE_MAX
      && cacheNext < CACHE_MAX
      && (forall i :: 0 <= i < |cache| && cache[i].Filled? && cache[i].lba in disk ==>
            cache[i].buf == disk[cache[i].lba])
      && (forall i, j :: 0 <= i < j < |cache| && cache[i].Filled? && cache[j].Filled? ==>
            cache[i].lba != cache[j].lba)
    }

    constructor (sectors: Disk)
      ensures Valid() && disk == sectors
    {
      disk := sectors;
      cache := seq(CACHE_MAX, _ => Empty);
      cacheNext := 0;
    }

    /** `hal_disk_read` of one sector; a refused read leaves the buffer alone. */
    method DriverRead(lba: int, page: Sector) returns (status: int, buf: Sector)
      ensures lba in disk ==> status == 0 && buf == disk[lba]
      ensures lba !in disk ==> status == ERROR_DRIVER && buf == page
    {
      if lba in disk {
        return 0, disk[lba];
      }
      return ERROR_DRIVER, page;
    }

    /** `hal_disk_write` of one sector. */
    method DriverWrite(lba: int, buf: Sector) returns (status: int)
      modifies this`disk
      ensures status == if lba in old(disk) then 0 else ERROR_DRIVER
      ensures disk == if lba in old(disk) then old(disk)[lba := buf] else old(disk)
    {
      if lba in disk {
        disk := disk[lba := buf];
        return 0;
      }
      return ERROR_DRIVER;
    }

    method FindSlot(lba: int) returns (i: nat)
      ensures i <= |cache|
      ensures i < |cache| ==> cache[i].Filled? && cache[i].lba == lba
      ensures i == |cache| ==> forall j :: 0 <= j < |cache| && cache[j].Filled? ==> cache[j].lba != lba
    {
      i := 0;
      while i < |cache|
        invariant i <= |cache|
        invariant forall j :: 0 <= j < i && cache[j].Filled? ==> cache[j].lba != lba
      {
        if cache[i].Filled? && cache[i].lba == lba {
          return;
        }
        i := i + 1;
      }
    }

    /** `hal_block_read` of one sector: always reports success, and on an address the driver
        serves the bytes are the device's. */
    method ReadSector(lba: int) returns (status: int, buf: Sector)
      requires Valid()
      modifies this`cache, this`cacheNext
      ensures Valid()
      ensures status == 0
      ensures lba in disk ==> buf == disk[lba]
      ensures forall i :: 0 <= i < CACHE_MAX && Caches(old(cache)[i], lba) ==>
        buf == old(cache)[i].buf && cache == old(cache) && cacheNext == old(cacheNext)
      ensures (forall i :: 0 <= i < CACHE_MAX ==> !Caches(old(cache)[i], lba)) ==>
        && cache == old(cache)[old(cacheNext) := Filled(lba, buf)] && cacheNext == (old(cacheNext) + 1) % CACHE_MAX
        && (lba !in disk && old(cache)[old(cacheNext)].Filled? ==> buf == old(cache)[old(cacheNext)].buf)
    {
      var i := FindSlot(lba);
      if i < |cache| {
        return 0, cache[i].buf;
      }
      var page: Sector := *;      // whatever a newly allocated page holds
      if cache[cacheNext].Filled? {
        page := cache[cacheNext].buf;
      }
      var ignored, filled := DriverRead(lba, page);
      cache := cache[cacheNext := Filled(lba, filled)];
      buf := filled;
      cacheNext := cacheNext + 1;
      if cacheNext >= CACHE_MAX {
        cacheNext := 0;
      }
      status := 0;
    }

    /** `hal_block_write` of one sector: write-through, refreshing the slot that holds it. */
    method WriteSector(lba: int, buf: Sector) returns (status: int)
      requires Valid()
      modifies this`disk, this`cache
      ensures Valid()
      ensures status == if lba in old(disk) then 0 else ERROR_DRIVER
      ensures disk == if lba in old(disk) then old(disk)[lba := buf] else old(disk)
      ensures forall i :: 0 <= i < CACHE_MAX ==>
        cache[i] == if Caches(old(cache)[i], lba) then Filled(lba, buf) else old(cache)[i]
    {
      var i := FindSlot(lba);
      if i < |cache| {
        cache := cache[i := Filled(lba, buf)];
      }
      status := DriverWrite(lba, buf);
    }

    /** Every sequence of single-sector operations leaves the device as the uncached run does
        and gets the uncached answers. */
    method Run(ops: seq<Op>) returns (replies: seq<Reply>)
      requires Valid()
      modifies this
      ensures Valid()
      ensures disk == DirectDisk(old(disk), ops)
      ensures |replies| == |ops|
      ensures forall k :: 0 <= k < |ops| ==> Agrees(DirectReplies(old(disk), ops)[k], replies[k])
    {
      replies := [];
      var n := 0;
      while n < |ops|
        invariant 0 <= n <= |ops| && |replies| == n
        invariant Valid()
        invariant DirectDisk(disk, ops[n..]) == DirectDisk(old(disk), ops)
        invariant DirectReplies(old(disk), ops)[n..] == DirectReplies(disk, ops[n..])
        invariant forall k :: 0 <= k < n ==> Agrees(DirectReplies(old(disk), ops)[k], replies[k])
      {
        assert ops[n..][1..] == ops[n + 1..];
        ghost var before := disk;
        assert DirectReplies(old(disk), ops)[n] == DirectReplies(disk, ops[n..])[0];
        match ops[n] {
          case Read(lba) =>
            var status, buf := ReadSector(lba);
            replies := replies + [Data(buf)];
          case Write(lba, data) =>
            var status := WriteSector(lba, data);
            replies := replies + [if status == 0 then Stored else Failed];
        }
        assert DirectReplies(before, ops[n..])[1..] == DirectReplies(disk, ops[n + 1..]);
        assert DirectReplies(old(disk), ops)[n + 1..] == DirectReplies(old(disk), ops)[n..][1..];
        n := n + 1;
      }
      assert ops[n..] == [];
    }
  }
}
