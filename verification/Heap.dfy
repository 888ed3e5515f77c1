/** The heap of a process: what `sbrk` maps and unmaps. */
module Heap {
  import opened PageTable
  import opened AddressSpace

  const HEAP_BOTTOM: nat := 0x2000_0000
  const HEAP_ROOM: nat := USER_PAGES * PGSIZE - HEAP_BOTTOM   // up to KERNBASE
  const INT_LIMIT: nat := 0x8000_0000
  const HEAP_PERM: nat := PTE_W + PTE_U

  /** The first page past the heap. */
  function HeapEnd(size: nat): (r: nat) {
    PagesUpTo(HEAP_BOTTOM + size)
  }

  /** Of the user pages from the bottom of the heap on, those mapped are exactly the ones below the page-rounded
      heap size, besides the pages `libs` of dynamic libraries above them. */
  ghost predicate HeapOk(mem: Memory, s: nat, size: nat, libs: set<nat>) {
    forall v: nat :: HEAP_BOTTOM / PGSIZE <= v < USER_PAGES ==>
      && (Present(PageAt(mem, s, v).entry) <==> v < HeapEnd(size) || v in libs)
      && !(v < HeapEnd(size) && v in libs)
  }

  class Process {
    const machine: Machine
    const pgdir: nat
    ghost const libs: set<nat>
    var heapSize: nat

    constructor (machine: Machine, pgdir: nat, ghost libs: set<nat>)
      ensures this.machine == machine && this.pgdir == pgdir && this.libs == libs && heapSize == 0
    {
      this.machine := machine;
      this.pgdir := pgdir;
      this.libs := libs;
      heapSize := 0;
    }

    ghost predicate Valid()
      reads this, machine
    {
      && machine.Valid() && pgdir in machine.spaces && HeapOk(machine.mem, pgdir, heapSize, libs)
      && heapSize <= HEAP_ROOM && Present(PageAt(machine.mem, pgdir, USER_PAGES).entry)
    }

    /** `growproc`; growing into the pages of a library or of the kernel is a panic. */
    method GrowProc(n: int) returns (st: Status)
      requires Valid() && 0 <= heapSize + n && n < INT_LIMIT
      modifies this, machine`mem, machine`free, machine`own
      ensures st in {Done, OutOfMemory, Remap} && machine.Valid()
      ensures old(heapSize) + n > HEAP_ROOM ==> !st.Done?
      ensures st.Done? ==> Valid() && heapSize == old(heapSize) + n
      ensures st.Done? ==> Resized(old(machine.mem), machine.mem, machine.spaces, pgdir, old(heapSize), heapSize)
      ensures st.OutOfMemory? ==> machine.free == [] && n > 0
      ensures st.Remap? ==> exists v :: HeapEnd(old(heapSize)) <= v < HeapEnd(old(heapSize) + n) && InTheWay(v)
    {
      hide SpaceOk, PageAt, Lookup, HeapOk, Resized, PagesUpTo, AllSameOutside;
      st := Done;
      ghost var before := machine.mem;
      EntryOf(before, pgdir);
      BeyondHeap(before, pgdir, heapSize, libs);
      if n > 0 {
        var size;
        st, size := machine.AllocUvm(pgdir, HEAP_BOTTOM + heapSize, HEAP_BOTTOM + heapSize + n, HEAP_PERM);
        if st.Remap? {
          ghost var v: nat :| HeapEnd(heapSize) <= v < HeapEnd(heapSize + n) && Present(Lookup(before, pgdir, v));
          assert InTheWay(v);
        }
        if !st.Done? {
          return;
        }
        GrowHeapOk(before, machine.mem, machine.spaces, pgdir, heapSize, heapSize + n, libs);
        KernelKept(before, machine.mem, machine.spaces, pgdir, heapSize, heapSize + n);
      } else if n < 0 {
        var size := machine.DeallocUvm(pgdir, HEAP_BOTTOM + heapSize, HEAP_BOTTOM + heapSize + n);
        ShrinkHeapOk(before, machine.mem, machine.free, machine.spaces, pgdir, heapSize, heapSize + n, libs);
        KernelKept(before, machine.mem, machine.spaces, pgdir, heapSize + n, heapSize);
      } else {
        SameHeapOk(before, machine.spaces, pgdir, heapSize);
      }
      heapSize := heapSize + n;
    }

    /** The page of a library or of the kernel. */
    ghost predicate InTheWay(v: nat) {
      v in libs || v >= USER_PAGES
    }

    /** `sys_sbrk`: the end of the heap before the change. */
    method Sbrk(n: int) returns (st: Status, addr: nat)
      requires Valid() && 0 <= heapSize + n && n < INT_LIMIT
      modifies this, machine`mem, machine`free, machine`own
      ensures machine.Valid() && (old(heapSize) + n > HEAP_ROOM ==> !st.Done?)
      ensures st.Done? ==> Valid() && heapSize == old(heapSize) + n && addr == HEAP_BOTTOM + old(heapSize)
      ensures st.Done? ==> Resized(old(machine.mem), machine.mem, machine.spaces, pgdir, old(heapSize), heapSize)
    {
      addr := HEAP_BOTTOM + heapSize;
      st := GrowProc(n);
    }

    /** Any sequence of `sbrk` calls that never shrinks below zero keeps the heap exactly mapped, up to a panic; there
        is one if the heap would ever pass KERNBASE. */
    method SbrkAll(ns: seq<int>) returns (st: Status)
      requires Valid() && forall k :: 0 <= k <= |ns| ==> 0 <= heapSize + Sum(ns[..k])
      requires forall k :: 0 <= k < |ns| ==> ns[k] < INT_LIMIT
      modifies this, machine`mem, machine`free, machine`own
      ensures st in {Done, OutOfMemory, Remap} && machine.Valid()
      ensures (exists k :: 0 <= k <= |ns| && old(heapSize) + Sum(ns[..k]) > HEAP_ROOM) ==> !st.Done?
      ensures st.Done? ==> Valid() && heapSize == old(heapSize) + Sum(ns)
    {
      hide HeapOk, SpaceOk, Resized;
      st := Done;
      var i := 0;
      while i < |ns|
        invariant 0 <= i <= |ns| && Valid() && st.Done? && heapSize == old(heapSize) + Sum(ns[..i])
        invariant forall k :: 0 <= k <= i ==> old(heapSize) + Sum(ns[..k]) <= HEAP_ROOM
      {
        assert ns[..i + 1][..i] == ns[..i];
        st := GrowProc(ns[i]);
        if !st.Done? {
          return;
        }
        i := i + 1;
      }
      assert ns[..i] == ns;
    }

    /** Growing by `n` and shrinking by `n` again leaves every page of every space as it was. */
    method GrowThenShrink(n: nat) returns (st: Status)
      requires Valid() && heapSize + n <= HEAP_ROOM
      modifies this, machine`mem, machine`free, machine`own
      ensures st.Done? ==> Valid() && heapSize == old(heapSize)
      ensures st.Done? ==> SameView(old(machine.mem), machine.mem, machine.spaces)
    {
      hide SpaceOk, PageAt, HeapOk, Resized, PagesUpTo;
      ghost var m0 := machine.mem;
      st := GrowProc(n);
      if st.Done? {
        ghost var m1 := machine.mem;
        st := GrowProc(0 - n);
        if st.Done? {
          ThereAndBack(m0, m1, machine.mem, machine.spaces, pgdir, heapSize, n, libs);
        }
      }
    }

    /** The heap copy of `fork`, into a child without a heap, finds every page it looks for. */
    method ForkHeap(child: nat) returns (st: Status)
      requires Valid() && child in machine.spaces && child != pgdir
      requires forall v: nat :: HEAP_BOTTOM / PGSIZE <= v < HeapEnd(heapSize) ==>
        !Present(PageAt(machine.mem, child, v).entry)
      modifies machine`mem, machine`free, machine`own
      ensures st in {Done, OutOfMemory} && machine.Valid()
      ensures st.Done? ==> Valid() && SameHeap(machine.mem, child, pgdir, heapSize)
      ensures st.Done? ==>
        AllSameOutside(old(machine.mem), machine.mem, machine.spaces, child, HEAP_BOTTOM / PGSIZE, HeapEnd(heapSize))
    {
      hide SpaceOk, HeapOk, Lookup, PageAt;
      ghost var before := machine.mem;
      HeapThere(before, pgdir, heapSize, libs);
      FramesInUse(before, machine.own, pgdir);
      st := machine.CopyUvm(child, pgdir, HEAP_BOTTOM, HEAP_BOTTOM + heapSize);
      EntryOf(before, child);
      if st.Done? {
        ForkedHeap(before, machine.mem, machine.spaces, child, pgdir, heapSize, libs);
      }
    }
  }

  function Sum(ns: seq<int>): (r: int) {
    if ns == [] then 0 else Sum(ns[..|ns| - 1]) + ns[|ns| - 1]
  }

  /** Between the two sizes pages appear as zeros or disappear; every other page of every space is as before. */
  ghost predicate Resized(before: Memory, after: Memory, spaces: set<nat>, s: nat, size: nat, size': nat) {
    var lo, hi := HeapEnd(size), HeapEnd(size');
    && AllSameOutside(before, after, spaces, s, if lo < hi then lo else hi, if lo < hi then hi else lo)
    && (forall v: nat :: lo <= v < hi ==> Zeroed(before, after, s, v, HEAP_PERM))
  }

  /** Page by page, the heap of `child` has the flags and bytes of that of `parent`, in frames of its own. */
  ghost predicate SameHeap(mem: Memory, child: nat, parent: nat, size: nat) {
    forall v: nat :: HEAP_BOTTOM / PGSIZE <= v < HeapEnd(size) ==>
      && Present(PageAt(mem, child, v).entry)
      && PageAt(mem, child, v).entry.flags == PageAt(mem, parent, v).entry.flags
      && PageAt(mem, child, v).entry.frame != PageAt(mem, parent, v).entry.frame
      && PageAt(mem, child, v).bytes == PageAt(mem, parent, v).bytes
  }

  /** Every present page of every space reads the same, and the same pages are present. */
  ghost predicate SameView(before: Memory, after: Memory, spaces: set<nat>) {
    forall x, v: nat :: x in spaces && v < PAGES ==>
      if Present(PageAt(before, x, v).entry) then PageAt(after, x, v) == PageAt(before, x, v)
      else !Present(PageAt(after, x, v).entry)
  }

  lemma EntryOf(mem: Memory, s: nat)
    ensures forall v: nat :: Lookup(mem, s, v) == PageAt(mem, s, v).entry
  {
  }

  lemma BeyondHeap(mem: Memory, s: nat, size: nat, libs: set<nat>)
    requires HeapOk(mem, s, size, libs)
    ensures forall v: nat :: HeapEnd(size) <= v < USER_PAGES && Present(Lookup(mem, s, v)) ==> v in libs
  {
    EntryOf(mem, s);
  }

  lemma KernelKept(before: Memory, after: Memory, spaces: set<nat>, s: nat, size: nat, size': nat)
    requires s in spaces && size' <= HEAP_ROOM
    requires AllSameOutside(before, after, spaces, s, HeapEnd(size), HeapEnd(size'))
    ensures PageAt(after, s, USER_PAGES) == PageAt(before, s, USER_PAGES)
  {
    hide PageAt;
  }

  lemma HeapThere(mem: Memory, s: nat, size: nat, libs: set<nat>)
    requires HeapOk(mem, s, size, libs) && size <= HEAP_ROOM
    ensures forall v: nat :: HEAP_BOTTOM / PGSIZE <= v < HeapEnd(size) ==> Present(Lookup(mem, s, v))
  {
    EntryOf(mem, s);
  }

  lemma GrowHeapOk(before: Memory, after: Memory, spaces: set<nat>, s: nat, size: nat, size': nat, libs: set<nat>)
    requires HeapOk(before, s, size, libs) && size <= size' <= HEAP_ROOM && s in spaces
    requires AllSameOutside(before, after, spaces, s, HeapEnd(size), HeapEnd(size'))
    requires forall v: nat :: HeapEnd(size) <= v < HeapEnd(size') ==> Zeroed(before, after, s, v, HEAP_PERM)
    ensures HeapOk(after, s, size', libs) && Resized(before, after, spaces, s, size, size')
  {
    hide PageAt;
    forall v: nat | HEAP_BOTTOM / PGSIZE <= v < USER_PAGES
      ensures Present(PageAt(after, s, v).entry) <==> v < HeapEnd(size') || v in libs
      ensures !(v < HeapEnd(size') && v in libs)
    {
      if v < HeapEnd(size) || v >= HeapEnd(size') {
        assert PageAt(after, s, v) == PageAt(before, s, v);
      } else {
        assert Zeroed(before, after, s, v, HEAP_PERM);
      }
    }
  }

  lemma ShrinkHeapOk(before: Memory, after: Memory, free: seq<nat>, spaces: set<nat>, s: nat, size: nat, size': nat,
                     libs: set<nat>)
    requires HeapOk(before, s, size, libs) && size' <= size <= HEAP_ROOM && s in spaces
    requires AllSameOutside(before, after, spaces, s, HeapEnd(size'), HeapEnd(size))
    requires forall v: nat :: HeapEnd(size') <= v < HeapEnd(size) ==> Freed(before, after, free, s, v)
    ensures HeapOk(after, s, size', libs) && Resized(before, after, spaces, s, size, size')
  {
    hide PageAt;
    forall v: nat | HEAP_BOTTOM / PGSIZE <= v < USER_PAGES
      ensures Present(PageAt(after, s, v).entry) <==> v < HeapEnd(size') || v in libs
      ensures !(v < HeapEnd(size') && v in libs)
    {
      if v < HeapEnd(size') || v >= HeapEnd(size) {
        assert PageAt(after, s, v) == PageAt(before, s, v);
      } else {
        assert Freed(before, after, free, s, v);
        assert !(v < HeapEnd(size) && v in libs);
      }
    }
  }

  lemma SameHeapOk(mem: Memory, spaces: set<nat>, s: nat, size: nat)
    ensures Resized(mem, mem, spaces, s, size, size)
  {
  }

  lemma ThereAndBack(m0: Memory, m1: Memory, m2: Memory, spaces: set<nat>, s: nat, size: nat, n: nat, libs: set<nat>)
    requires s in spaces && size + n <= HEAP_ROOM
    requires HeapOk(m0, s, size, libs) && HeapOk(m1, s, size + n, libs) && HeapOk(m2, s, size, libs)
    requires Resized(m0, m1, spaces, s, size, size + n) && Resized(m1, m2, spaces, s, size + n, size)
    ensures SameView(m0, m2, spaces)
  {
    hide PageAt;
    var lo, hi := HeapEnd(size), HeapEnd(size + n);
    forall x, v: nat | x in spaces && v < PAGES && !(x == s && lo <= v < hi)
      ensures PageAt(m2, x, v) == PageAt(m0, x, v)
    {
      assert PageAt(m1, x, v) == PageAt(m0, x, v);
    }
    forall v: nat | lo <= v < hi ensures !Present(PageAt(m0, s, v).entry) && !Present(PageAt(m2, s, v).entry) {
      assert !(v < HeapEnd(size + n) && v in libs);
    }
  }

  lemma ForkedHeap(before: Memory, after: Memory, spaces: set<nat>, child: nat, parent: nat, size: nat, libs: set<nat>)
    requires HeapOk(before, parent, size, libs) && size <= HEAP_ROOM
    requires child in spaces && parent in spaces && child != parent
    requires AllSameOutside(before, after, spaces, child, HEAP_BOTTOM / PGSIZE, HeapEnd(size))
    requires forall v: nat :: HEAP_BOTTOM / PGSIZE <= v < HeapEnd(size) ==>
      Copied(before, after, child, parent, v) && PageAt(before, parent, v).entry.frame in before
    ensures HeapOk(after, parent, size, libs) && SameHeap(after, child, parent, size)
  {
    hide PageAt;
    EntryOf(before, parent);
    forall v: nat | HEAP_BOTTOM / PGSIZE <= v < USER_PAGES
      ensures PageAt(after, parent, v) == PageAt(before, parent, v)
    {
    }
    assert HeapEnd(size) <= USER_PAGES;
    forall v: nat | HEAP_BOTTOM / PGSIZE <= v < HeapEnd(size)
      ensures Copied(before, after, child, parent, v) && PageAt(after, parent, v) == PageAt(before, parent, v)
      ensures Present(PageAt(after, child, v).entry)
    {
      assert Present(Lookup(before, parent, v));
    }
  }

  lemma FramesInUse(mem: Memory, own: Owners, s: nat)
    requires SpaceOk(mem, own, s)
    ensures forall v: nat :: v < USER_PAGES && Present(Lookup(mem, s, v)) ==> PageAt(mem, s, v).entry.frame in mem
  {
    forall v: nat | v < USER_PAGES && Present(Lookup(mem, s, v)) ensures PageAt(mem, s, v).entry.frame in mem {
      assert PathOk(mem, own, s, v);
    }
  }
}
