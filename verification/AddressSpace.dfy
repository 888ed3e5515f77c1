/** The virtual memory operations of the kernel on the page tables of all address spaces. */
module AddressSpace {
  import opened Bytes
  import opened PageTable

  /** How an operation ends. Everything but `Done` is a kernel panic. */
  datatype Status = Done | OutOfMemory | Remap | NotPresent(page: nat)

  /** What user code gets at a page: refused, no page table to look in, or the frame. */
  datatype Access = Refused | NoTable | Granted(frame: nat)

  const KERNBASE: nat := USER_PAGES * PGSIZE

  datatype Walked = At(table: nat) | Missing | NoMemory

  /** Frames in use stay in use, pages keep their bytes, roles are kept. */
  ghost predicate Grown(mem: Memory, own: Owners, mem': Memory, own': Owners) {
    && mem.Keys <= mem'.Keys
    && (forall f :: f in mem && mem[f].Data? ==> mem'[f] == mem[f])
    && (forall f :: f in own ==> Is(own', f, own[f]))
  }

  lemma GrownTransitive(m0: Memory, o0: Owners, m1: Memory, o1: Owners, m2: Memory, o2: Owners)
    requires Grown(m0, o0, m1, o1) && Grown(m1, o1, m2, o2)
    ensures Grown(m0, o0, m2, o2)
  {
  }

  /** The supply of free frames. */
  ghost predicate FreeOk(mem: Memory, free: seq<nat>) {
    && 0 !in mem && 0 !in free
    && (forall i :: 0 <= i < |free| ==> free[i] !in mem)
    && (forall i, j :: 0 <= i < j < |free| ==> free[i] != free[j])
  }

  class Machine {
    var mem: Memory
    var free: seq<nat>
    ghost var own: Owners
    ghost var spaces: set<nat>

    ghost predicate Valid()
      reads this
    {
      AllOk(mem, own, spaces) && FreeOk(mem, free) && own.Keys <= mem.Keys
    }

    /** `kalloc`, then `memset` or `memmove` of a whole page into the new frame. */
    method NewFrame(frame: Frame, ghost r: Role) returns (ok: bool, f: nat)
      requires Valid()
      modifies this`mem, this`free, this`own
      ensures Valid() && ok == (|old(free)| > 0)
      ensures !ok ==> mem == old(mem) && own == old(own) && free == old(free)
      ensures ok ==>
        && f == old(free)[0] && f !in old(mem) && free == old(free)[1..]
        && mem == old(mem)[f := frame] && own == old(own)[f := r]
      ensures ok ==> AllSame(old(mem), mem, spaces)
    {
      hide SpaceOk, PageAt;
      ok, f := |free| > 0, 0;
      if ok {
        f := free[0];
        AddFrame(mem, own, spaces, f, frame, r);
        free := free[1..];
        mem := mem[f := frame];
        own := own[f := r];
      }
    }

    /** `walkpgdir`: finds, or on request creates, the page table of page `v`; no page changes meaning. */
    method Walk(s: nat, v: nat, alloc: bool, perm: nat) returns (r: Walked)
      requires Valid() && s in spaces && v < PAGES
      modifies this`mem, this`free, this`own
      ensures Valid() && AllSame(old(mem), mem, spaces) && Grown(old(mem), old(own), mem, own)
      ensures r.At? ==> Present(LeafOf(mem, s, v)) && r.table == LeafOf(mem, s, v).frame
      ensures r.At? ==> LeafOf(mem, s, v) == LeafOf(old(mem), s, v) || LeafOf(mem, s, v).flags == WithPresent(perm)
      ensures r.At? ==> DirOf(mem, s, v) == DirOf(old(mem), s, v) || DirOf(mem, s, v).flags == PTE_P
      ensures !alloc ==> mem == old(mem) && own == old(own) && free == old(free)
      ensures !alloc ==> (r.Missing? <==> !Present(LeafOf(mem, s, v))) && !r.NoMemory?
      ensures alloc ==> !r.Missing?
      ensures r.NoMemory? ==> free == []
    {
      hide PageAt, Lookup;
      assert PathOk(mem, own, s, v);
      var pdpte := Get(mem, s, Pdptx(v));
      if Present(pdpte) {
        var pde := Get(mem, pdpte.frame, Pdx(v));
        if Present(pde) {
          return At(pde.frame);
        }
        if !alloc {
          return Missing;
        }
        r := LinkLeaf(s, v, perm);
      } else {
        if !alloc {
          return Missing;
        }
        if free == [] {
          return NoMemory;
        }
        var d := free[0];
        AddDir(mem, own, spaces, s, Pdptx(v), d);
        free := free[1..];
        mem := AddDirMemory(mem, s, Pdptx(v), d);
        own := own[d := Dir(s, Pdptx(v))];
        ghost var mem1, own1 := mem, own;
        r := LinkLeaf(s, v, perm);
        GrownTransitive(old(mem), old(own), mem1, own1, mem, own);
      }
    }

    /** The second half of `walkpgdir`: an empty page table under a directory that is there. */
    method LinkLeaf(s: nat, v: nat, perm: nat) returns (r: Walked)
      requires Valid() && s in spaces && v < PAGES && Present(DirOf(mem, s, v)) && !Present(LeafOf(mem, s, v))
      modifies this`mem, this`free, this`own
      ensures Valid() && AllSame(old(mem), mem, spaces) && Grown(old(mem), old(own), mem, own)
      ensures r.At? ==> LeafOf(mem, s, v) == Entry(r.table, WithPresent(perm))
      ensures r.At? ==> DirOf(mem, s, v) == DirOf(old(mem), s, v)
      ensures !r.Missing? && (r.NoMemory? ==> free == [])
    {
      hide PageAt, Lookup;
      assert PathOk(mem, own, s, v);
      if free == [] {
        return NoMemory;
      }
      var t := free[0];
      var d := DirOf(mem, s, v).frame;
      AddLeaf(mem, own, spaces, s, v, t, WithPresent(perm));
      free := free[1..];
      mem := AddLeafMemory(mem, d, Pdx(v), t, WithPresent(perm));
      own := own[t := Leaf(s, Pdptx(v), Pdx(v))];
      r := At(t);
    }

    /** One turn of the loop of `mappages`. */
    method MapPage(s: nat, v: nat, frame: nat, perm: nat) returns (st: Status)
      requires Valid() && s in spaces && v < PAGES
      requires Present(Lookup(mem, s, v)) || PageOk(mem, own, s, v, Entry(frame, WithPresent(perm)))
      modifies this`mem, this`free, this`own
      ensures Valid() && Grown(old(mem), old(own), mem, own)
      ensures st in {Done, OutOfMemory, Remap}
      ensures st.Done? ==>
        AllSameBut(old(mem), mem, spaces, s, v) && Lookup(mem, s, v) == Entry(frame, WithPresent(perm))
      ensures st.Done? ==> !Present(Lookup(old(mem), s, v))
      ensures st.Remap? ==> Present(Lookup(old(mem), s, v))
      ensures st.OutOfMemory? ==> free == []
    {
      hide PathOk, Lookup, LeafOf;
      var w := Walk(s, v, true, PTE_W + PTE_U);
      assert PageAt(mem, s, v) == PageAt(old(mem), s, v);
      if w.NoMemory? {
        return OutOfMemory;
      }
      LookupThroughLeaf(mem, s, v);
      if Present(Get(mem, w.table, Ptx(v))) {
        return Remap;
      }
      SetPte(mem, own, spaces, s, v, Entry(frame, WithPresent(perm)));
      hide PageAt;
      mem := Set(mem, w.table, Ptx(v), Entry(frame, WithPresent(perm)));
      st := Done;
    }

    /** `mappages`: maps the pages that `[va, va + size)` touches to consecutive frames from `frame` on. */
    method MapPages(s: nat, va: nat, size: nat, frame: nat, perm: nat) returns (st: Status)
      requires Valid() && s in spaces && 0 < size && va + size <= PAGES * PGSIZE
      requires forall v: nat :: Touched(va, size, v) ==> PageOk(mem, own, s, v, FrameEntry(frame, perm, va / PGSIZE, v))
      modifies this`mem, this`free, this`own
      ensures Valid() && Grown(old(mem), old(own), mem, own)
      ensures st in {Done, OutOfMemory, Remap}
      ensures st.Done? ==> AllSameOutside(old(mem), mem, spaces, s, va / PGSIZE, (va + size - 1) / PGSIZE + 1)
      ensures st.Done? ==> forall v: nat :: Touched(va, size, v) ==>
        && Lookup(mem, s, v) == Entry(frame + (v - va / PGSIZE), WithPresent(perm))
        && !Present(Lookup(old(mem), s, v))
      ensures st.Remap? ==> exists v: nat :: Touched(va, size, v) && Present(Lookup(old(mem), s, v))
      ensures st.OutOfMemory? ==> free == []
    {
      hide SpaceOk, Lookup;
      var a, last, pa := va / PGSIZE, (va + size - 1) / PGSIZE, frame;
      ghost var first := a;
      while true
        invariant first <= a <= last && pa == frame + (a - first)
        invariant Valid() && Grown(old(mem), old(own), mem, own)
        invariant AllSameOutside(old(mem), mem, spaces, s, first, a)
        invariant forall v: nat :: first <= v < a ==>
          Lookup(mem, s, v) == FrameEntry(frame, perm, first, v) && !Present(Lookup(old(mem), s, v))
        decreases last - a
      {
        ghost var mem1, own1 := mem, own;
        assert Touched(va, size, a);
        st := MapPage(s, a, pa, perm);
        assert PageAt(mem1, s, a) == PageAt(old(mem), s, a);
        GrownTransitive(old(mem), old(own), mem1, own1, mem, own);
        if !st.Done? {
          return;
        }
        OutsideThenBut(old(mem), mem1, mem, spaces, s, first, a);
        forall v: nat | first <= v < a ensures Lookup(mem, s, v) == Lookup(mem1, s, v) {
          assert PageAt(mem, s, v) == PageAt(mem1, s, v);
        }
        if a == last {
          return;
        }
        a, pa := a + 1, pa + 1;
      }
    }

    /** `unmappages`: clears the entries of the pages that `[va, va + size)` touches. */
    method UnmapPages(s: nat, va: nat, size: nat) returns (st: Status)
      requires Valid() && s in spaces && 0 < size && va + size <= PAGES * PGSIZE
      modifies this`mem, this`free, this`own
      ensures Valid() && Grown(old(mem), old(own), mem, own)
      ensures st in {Done, OutOfMemory}
      ensures st.Done? ==> AllSameOutside(old(mem), mem, spaces, s, va / PGSIZE, (va + size - 1) / PGSIZE + 1)
      ensures st.Done? ==> forall v: nat :: Touched(va, size, v) ==> Lookup(mem, s, v) == ABSENT
      ensures st.OutOfMemory? ==> free == []
    {
      hide SpaceOk, Lookup, LeafOf;
      var a, last := va / PGSIZE, (va + size - 1) / PGSIZE;
      ghost var first := a;
      while true
        invariant first <= a <= last
        invariant Valid() && Grown(old(mem), old(own), mem, own)
        invariant AllSameOutside(old(mem), mem, spaces, s, first, a)
        invariant forall v: nat :: first <= v < a ==> Lookup(mem, s, v) == ABSENT
        decreases last - a
      {
        ghost var mem1, own1 := mem, own;
        var w := Walk(s, a, true, PTE_W + PTE_U);
        GrownTransitive(old(mem), old(own), mem1, own1, mem, own);
        if w.NoMemory? {
          return OutOfMemory;
        }
        OutsideThenSame(old(mem), mem1, mem, spaces, s, first, a);
        SetPte(mem, own, spaces, s, a, ABSENT);
        ghost var mem2, own2 := mem, own;
        mem := Set(mem, w.table, Ptx(a), ABSENT);
        OutsideThenBut(old(mem), mem2, mem, spaces, s, first, a);
        forall v: nat | first <= v < a ensures Lookup(mem, s, v) == Lookup(mem1, s, v) {
          assert PageAt(mem, s, v) == PageAt(mem2, s, v) == PageAt(mem1, s, v);
        }
        if a == last {
          return Done;
        }
        a := a + 1;
      }
    }

    /** `copyuvm`: gives `child` its own copy of the pages of `parent` from `begin` up to `end`. */
    method CopyUvm(child: nat, parent: nat, begin: nat, end: nat) returns (st: Status)
      requires Valid() && child in spaces && parent in spaces && child != parent
      requires begin % PGSIZE == 0 && end <= USER_PAGES * PGSIZE
      modifies this`mem, this`free, this`own
      ensures Valid() && Grown(old(mem), old(own), mem, own)
      ensures st.Done? ==> AllSameOutside(old(mem), mem, spaces, child, begin / PGSIZE, PagesUpTo(end))
      ensures st.Done? ==>
        forall v: nat :: begin / PGSIZE <= v < PagesUpTo(end) ==> Copied(old(mem), mem, child, parent, v)
      ensures st.NotPresent? ==>
        begin / PGSIZE <= st.page < PagesUpTo(end) && !Present(Lookup(old(mem), parent, st.page))
      ensures st.Remap? ==>
        exists v: nat :: begin / PGSIZE <= v < PagesUpTo(end) && Present(Lookup(old(mem), child, v))
      ensures st.OutOfMemory? ==> free == []
    {
      hide SpaceOk, Lookup, LeafOf, PageAt;
      var i := begin;
      while i < end
        invariant i % PGSIZE == 0 && begin <= i && (i < end || i == begin || i / PGSIZE == PagesUpTo(end))
        invariant Valid() && Grown(old(mem), old(own), mem, own)
        invariant AllSameOutside(old(mem), mem, spaces, child, begin / PGSIZE, i / PGSIZE)
        invariant forall v: nat :: begin / PGSIZE <= v < i / PGSIZE ==> Copied(old(mem), mem, child, parent, v)
      {
        var v := i / PGSIZE;
        ghost var mem1, own1 := mem, own;
        assert PageAt(mem1, parent, v) == PageAt(old(mem), parent, v);
        assert PageAt(mem1, child, v) == PageAt(old(mem), child, v);
        st := CopyPage(child, parent, v);
        GrownTransitive(old(mem), old(own), mem1, own1, mem, own);
        PageEntry(mem1, old(mem), parent, v);
        PageEntry(mem1, old(mem), child, v);
        if !st.Done? {
          return;
        }
        OutsideThenBut(old(mem), mem1, mem, spaces, child, begin / PGSIZE, v);
        CopiedKept(old(mem), mem1, mem, spaces, child, parent, begin / PGSIZE, v);
        i := i + PGSIZE;
      }
      st := Done;
    }

    /** One turn of the loop of `copyuvm`. */
    method CopyPage(child: nat, parent: nat, v: nat) returns (st: Status)
      requires Valid() && child in spaces && parent in spaces && child != parent && v < USER_PAGES
      modifies this`mem, this`free, this`own
      ensures Valid() && Grown(old(mem), old(own), mem, own)
      ensures st.Done? ==> AllSameBut(old(mem), mem, spaces, child, v) && Copied(old(mem), mem, child, parent, v)
      ensures st.NotPresent? ==> st.page == v && !Present(Lookup(old(mem), parent, v))
      ensures st.Remap? ==> Present(Lookup(old(mem), child, v))
      ensures st.OutOfMemory? ==> free == []
    {
      hide LeafOf, Lookup;
      var w := Walk(parent, v, false, PTE_W + PTE_U);
      if w.Missing? {
        NoLeafNoPage(mem, parent, v);
        return NotPresent(v);
      }
      LookupThroughLeaf(mem, parent, v);
      var pte := Get(mem, w.table, Ptx(v));
      if !Present(pte) {
        return NotPresent(v);
      }
      assert PathOk(mem, own, parent, v);
      hide SpaceOk, PathOk;
      var ok, f := NewFrame(mem[pte.frame], Mapped(child, v));
      if !ok {
        return OutOfMemory;
      }
      ghost var mem1, own1 := mem, own;
      assert PageAt(mem1, child, v) == PageAt(old(mem), child, v);
      st := MapPage(child, v, f, pte.flags);
      assert mem[f] == mem1[f] == old(mem)[pte.frame];
      GrownTransitive(old(mem), old(own), mem1, own1, mem, own);
      hide PageAt;
    }

    /** `uva2ka`: the frame of a page that user code may access. Without a page table the kernel goes on to read the
        entry at the null pointer. */
    method UserFrame(s: nat, v: nat) returns (r: Access)
      requires Valid() && s in spaces && v < PAGES
      modifies this`mem, this`free, this`own
      ensures mem == old(mem) && free == old(free) && own == old(own)
      ensures r.NoTable? <==> !Present(LeafOf(mem, s, v))
      ensures r.Granted? <==> Accessible(mem, s, v)
      ensures r.Granted? ==>
        r.frame == Lookup(mem, s, v).frame && v < USER_PAGES && IsData(mem, r.frame) && Is(own, r.frame, Mapped(s, v))
    {
      hide LeafOf, Lookup;
      var w := Walk(s, v, false, PTE_W + PTE_U);
      if w.Missing? {
        NoLeafNoPage(mem, s, v);
        return NoTable;
      }
      LookupThroughLeaf(mem, s, v);
      var pte := Get(mem, w.table, Ptx(v));
      assert PathOk(mem, own, s, v);
      r := if Present(pte) && UserAccess(pte) then Granted(pte.frame) else Refused;
    }

    /** `copyout`: writes `buf` at `va` of one address space, up to the first page that user code may not access. */
    method CopyOut(s: nat, va: nat, buf: seq<byte>) returns (r: Access, ghost done: nat)
      requires Valid() && s in spaces && va + |buf| <= PAGES * PGSIZE
      modifies this`mem, this`free, this`own
      ensures Valid() && free == old(free) && own == old(own)
      ensures done <= |buf| && (r.Granted? <==> done == |buf|)
      ensures forall a :: va <= a < va + done ==> Accessible(old(mem), s, a / PGSIZE)
      ensures !r.Granted? ==> !Accessible(old(mem), s, (va + done) / PGSIZE)
      ensures !r.Granted? ==> (r.NoTable? <==> !Present(LeafOf(old(mem), s, (va + done) / PGSIZE)))
      ensures SameEntries(old(mem), mem, spaces) && Wrote(old(mem), mem, spaces, s, va, buf[..done])
    {
      hide AllOk, Lookup, LeafOf, Wrote, SameEntries;
      done := 0;
      WroteNothing(mem, spaces, s, va);
      var at, left := va, buf;
      r := Granted(0);
      while |left| > 0
        invariant done <= |buf| && at == va + done && left == buf[done..] && r.Granted?
        invariant Valid() && free == old(free) && own == old(own)
        invariant forall a :: va <= a < at ==> Accessible(old(mem), s, a / PGSIZE)
        invariant SameEntries(old(mem), mem, spaces) && Wrote(old(mem), mem, spaces, s, va, buf[..done])
        decreases |left|
      {
        var v := at / PGSIZE;
        EntriesAt(old(mem), mem, spaces, s, v);
        r := UserFrame(s, v);
        if !r.Granted? {
          return;
        }
        var f := r.frame;
        var n := PGSIZE - (at - v * PGSIZE);
        if n > |left| {
          n := |left|;
        }
        ghost var mem1 := mem;
        WriteChunk(mem, own, spaces, s, v, at - v * PGSIZE, left[..n]);
        mem := mem[f := Data(Splice(mem[f].bytes, at - v * PGSIZE, left[..n]))];
        WroteMore(old(mem), mem1, mem, spaces, s, va, buf, done, n);
        done := done + n;
        left := left[n..];
        at := at + n;
      }
    }

    /** The empty address space that `setupkvm` starts from. */
    method NewSpace() returns (ok: bool, s: nat)
      requires Valid()
      modifies this
      ensures Valid() && Grown(old(mem), old(own), mem, own) && AllSame(old(mem), mem, old(spaces))
      ensures ok ==> s !in old(mem) && spaces == old(spaces) + {s}
      ensures ok ==> forall v: nat :: v < PAGES ==> !Present(Lookup(mem, s, v))
      ensures !ok ==> spaces == old(spaces) && free == []
    {
      if free == [] {
        return false, 0;
      }
      ok, s := NewFrame(EmptyTable(), Root(free[0]));
      assert SpaceOk(mem, own, s);
      hide SpaceOk;
      spaces := spaces + {s};
    }

    /** `allocuvm`: fresh zeroed pages from the end of the `oldsz` bytes up to `newsz`. The kernel does not check that
        this is below KERNBASE; going past it ends in the remap panic at the first kernel page, if not before. */
    method AllocUvm(s: nat, oldsz: nat, newsz: nat, perm: nat) returns (st: Status, size: nat)
      requires Valid() && s in spaces && newsz <= PAGES * PGSIZE
      requires newsz > KERNBASE ==> oldsz <= KERNBASE && Present(Lookup(mem, s, USER_PAGES))
      modifies this`mem, this`free, this`own
      ensures Valid() && Grown(old(mem), old(own), mem, own)
      ensures st in {Done, OutOfMemory, Remap}
      ensures newsz > KERNBASE ==> !st.Done?
      ensures st.Done? ==> size == if newsz < oldsz then oldsz else newsz
      ensures st.Done? ==> AllSameOutside(old(mem), mem, spaces, s, PagesUpTo(oldsz), PagesUpTo(newsz))
      ensures st.Done? ==>
        forall v: nat :: PagesUpTo(oldsz) <= v < PagesUpTo(newsz) ==> Zeroed(old(mem), mem, s, v, perm)
      ensures st.Remap? ==>
        exists v: nat :: PagesUpTo(oldsz) <= v < PagesUpTo(newsz) && Present(Lookup(old(mem), s, v))
      ensures st.OutOfMemory? ==> free == []
    {
      hide SpaceOk, Lookup, LeafOf, PageAt;
      if newsz < oldsz {
        return Done, oldsz;
      }
      size := newsz;
      var a := PagesUpTo(oldsz);
      ghost var lo := a;
      while a * PGSIZE < newsz
        invariant lo <= a <= PagesUpTo(newsz) && a <= USER_PAGES
        invariant Valid() && Grown(old(mem), old(own), mem, own)
        invariant AllSameOutside(old(mem), mem, spaces, s, lo, a)
        invariant forall v: nat :: lo <= v < a ==> Zeroed(old(mem), mem, s, v, perm)
        decreases PagesUpTo(newsz) - a
      {
        ghost var mem1, own1 := mem, own;
        assert PageAt(mem1, s, a) == PageAt(old(mem), s, a);
        PageEntry(mem1, old(mem), s, a);
        st := AllocPage(s, a, perm);
        GrownTransitive(old(mem), old(own), mem1, own1, mem, own);
        if !st.Done? {
          return;
        }
        OutsideThenBut(old(mem), mem1, mem, spaces, s, lo, a);
        ZeroedKept(old(mem), mem1, mem, spaces, s, perm, lo, a);
        a := a + 1;
      }
      st := Done;
    }

    /** One turn of the loop of `allocuvm`. */
    method AllocPage(s: nat, v: nat, perm: nat) returns (st: Status)
      requires Valid() && s in spaces && v < PAGES && (v < USER_PAGES || Present(Lookup(mem, s, v)))
      modifies this`mem, this`free, this`own
      ensures Valid() && Grown(old(mem), old(own), mem, own)
      ensures st in {Done, OutOfMemory, Remap} && (Present(Lookup(old(mem), s, v)) ==> !st.Done?)
      ensures st.Done? ==> AllSameBut(old(mem), mem, spaces, s, v) && Zeroed(old(mem), mem, s, v, perm)
      ensures st.Remap? ==> Present(Lookup(old(mem), s, v))
      ensures st.OutOfMemory? ==> free == []
    {
      hide SpaceOk, Lookup, LeafOf;
      var ok, f := NewFrame(ZeroPage(), Mapped(s, v));
      if !ok {
        return OutOfMemory;
      }
      ghost var mem1, own1 := mem, own;
      assert PageAt(mem1, s, v) == PageAt(old(mem), s, v);
      PageEntry(mem1, old(mem), s, v);
      st := MapPage(s, v, f, perm);
      GrownTransitive(old(mem), old(own), mem1, own1, mem, own);
    }

    /** `deallocuvm`: unmaps and frees the pages between `newsz` and `oldsz`. */
    method DeallocUvm(s: nat, oldsz: nat, newsz: nat) returns (size: nat)
      requires Valid() && s in spaces && oldsz <= USER_PAGES * PGSIZE
      modifies this`mem, this`free, this`own
      ensures Valid() && size == if newsz < oldsz then newsz else oldsz
      ensures AllSameOutside(old(mem), mem, spaces, s, PagesUpTo(newsz), PagesUpTo(oldsz))
      ensures forall v: nat :: PagesUpTo(newsz) <= v < PagesUpTo(oldsz) ==> Freed(old(mem), mem, free, s, v)
      ensures forall f :: f in mem ==> f in old(mem)
    {
      hide SpaceOk, Lookup, LeafOf, PageAt;
      if newsz >= oldsz {
        return oldsz;
      }
      size := newsz;
      var a := PagesUpTo(newsz);
      ghost var lo := a;
      while a * PGSIZE < oldsz
        invariant lo <= a <= PagesUpTo(oldsz)
        invariant Valid() && forall f :: f in mem ==> f in old(mem)
        invariant AllSameOutside(old(mem), mem, spaces, s, lo, a)
        invariant forall v: nat :: lo <= v < a ==> Freed(old(mem), mem, free, s, v)
        decreases PagesUpTo(oldsz) - a
      {
        ghost var mem1, free1 := mem, free;
        assert PageAt(mem1, s, a) == PageAt(old(mem), s, a);
        PageEntry(mem1, old(mem), s, a);
        DeallocPage(s, a);
        OutsideThenBut(old(mem), mem1, mem, spaces, s, lo, a);
        FreedKept(old(mem), mem1, mem, free1, free, spaces, s, lo, a);
        a := a + 1;
      }
    }

    /** One turn of the loop of `deallocuvm`. */
    method DeallocPage(s: nat, v: nat)
      requires Valid() && s in spaces && v < USER_PAGES
      modifies this`mem, this`free, this`own
      ensures Valid() && AllSameBut(old(mem), mem, spaces, s, v) && Freed(old(mem), mem, free, s, v)
      ensures forall f :: f in mem ==> f in old(mem)
      ensures forall f :: f in old(free) ==> f in free
    {
      hide LeafOf, Lookup;
      var w := Walk(s, v, false, PTE_W + PTE_U);
      if w.Missing? {
        NoLeafNoPage(mem, s, v);
        return;
      }
      LookupThroughLeaf(mem, s, v);
      var pte := Get(mem, w.table, Ptx(v));
      if Present(pte) {
        assert PathOk(mem, own, s, v);
        ghost var cleared := SetPteMemory(mem, s, v, ABSENT);
        SetPte(mem, own, spaces, s, v, ABSENT);
        var f := pte.frame;
        TouchPage(cleared, own, cleared - {f}, own - {f}, spaces, s, v, f);
        ButThenBut(mem, cleared, cleared - {f}, spaces, s, v);
        hide SpaceOk, PathOk, PageAt;
        mem := mem - {f};
        free := [f] + free;
        own := own - {f};
        mem := Set(mem, w.table, Ptx(v), ABSENT);
        assert mem == cleared - {f};
      }
    }
  }

  lemma ButThenBut(m0: Memory, m1: Memory, m2: Memory, spaces: set<nat>, x: nat, w: nat)
    requires AllSameBut(m0, m1, spaces, x, w) && AllSameBut(m1, m2, spaces, x, w)
    ensures AllSameBut(m0, m2, spaces, x, w)
  {
    hide PageAt;
  }

  /** Page `v` was absent and is now a page of zeros in a frame that was not in use. */
  ghost predicate Zeroed(before: Memory, after: Memory, s: nat, v: nat, perm: nat) {
    && !Present(PageAt(before, s, v).entry)
    && PageAt(after, s, v).entry.flags == WithPresent(perm)
    && PageAt(after, s, v).entry.frame !in before
    && PageAt(after, s, v).bytes == ZeroPage().bytes
  }

  lemma ZeroedKept(m0: Memory, m1: Memory, m2: Memory, spaces: set<nat>, s: nat, perm: nat, lo: nat, hi: nat)
    requires s in spaces && lo <= hi < PAGES && m0.Keys <= m1.Keys
    requires AllSameOutside(m0, m1, spaces, s, lo, hi) && AllSameBut(m1, m2, spaces, s, hi)
    requires forall v: nat :: lo <= v < hi ==> Zeroed(m0, m1, s, v, perm)
    requires Zeroed(m1, m2, s, hi, perm)
    ensures forall v: nat :: lo <= v < hi + 1 ==> Zeroed(m0, m2, s, v, perm)
  {
    hide PageAt;
    assert PageAt(m1, s, hi) == PageAt(m0, s, hi);
    forall v: nat | lo <= v < hi ensures Zeroed(m0, m2, s, v, perm) {
      assert Zeroed(m0, m1, s, v, perm);
      assert PageAt(m2, s, v) == PageAt(m1, s, v);
    }
  }

  /** Page `v` is absent now; the frame it had, if any, is back among the free ones. */
  ghost predicate Freed(before: Memory, after: Memory, free: seq<nat>, s: nat, v: nat) {
    && !Present(PageAt(after, s, v).entry)
    && (Present(PageAt(before, s, v).entry) ==>
          PageAt(before, s, v).entry.frame !in after && PageAt(before, s, v).entry.frame in free)
  }

  lemma FreedKept(m0: Memory, m1: Memory, m2: Memory, f1: seq<nat>, f2: seq<nat>, spaces: set<nat>, s: nat, lo: nat,
                  hi: nat)
    requires s in spaces && lo <= hi < PAGES
    requires (forall f :: f in m2 ==> f in m1) && (forall f :: f in f1 ==> f in f2)
    requires AllSameOutside(m0, m1, spaces, s, lo, hi) && AllSameBut(m1, m2, spaces, s, hi)
    requires forall v: nat :: lo <= v < hi ==> Freed(m0, m1, f1, s, v)
    requires Freed(m1, m2, f2, s, hi)
    ensures forall v: nat :: lo <= v < hi + 1 ==> Freed(m0, m2, f2, s, v)
  {
    hide PageAt;
    assert PageAt(m1, s, hi) == PageAt(m0, s, hi);
    forall v: nat | lo <= v < hi ensures Freed(m0, m2, f2, s, v) {
      assert Freed(m0, m1, f1, s, v);
      assert PageAt(m2, s, v) == PageAt(m1, s, v);
    }
  }

  /** The pages of the addresses below `end`. */
  function PagesUpTo(end: nat): (n: nat)
    ensures forall v: nat :: v < n <==> v * PGSIZE < end
  {
    (end + PGSIZE - 1) / PGSIZE
  }

  /** Page `v` of `child` is a copy, in a frame that was not in use, of what `parent` had there. */
  ghost predicate Copied(before: Memory, after: Memory, child: nat, parent: nat, v: nat) {
    && Present(Lookup(before, parent, v)) && !Present(Lookup(before, child, v))
    && PageAt(after, child, v).entry.flags == PageAt(before, parent, v).entry.flags
    && PageAt(after, child, v).bytes == PageAt(before, parent, v).bytes
    && PageAt(after, child, v).entry.frame !in before
    && |PageAt(after, child, v).bytes| == PGSIZE
  }

  lemma CopiedKept(m0: Memory, m1: Memory, m2: Memory, spaces: set<nat>, child: nat, parent: nat, lo: nat, hi: nat)
    requires child in spaces && parent in spaces && child != parent && lo <= hi < PAGES && m0.Keys <= m1.Keys
    requires AllSameOutside(m0, m1, spaces, child, lo, hi) && AllSameBut(m1, m2, spaces, child, hi)
    requires forall v: nat :: lo <= v < hi ==> Copied(m0, m1, child, parent, v)
    requires Copied(m1, m2, child, parent, hi)
    ensures forall v: nat :: lo <= v < hi + 1 ==> Copied(m0, m2, child, parent, v)
  {
    hide Lookup;
    assert PageAt(m1, parent, hi) == PageAt(m0, parent, hi) && PageAt(m1, child, hi) == PageAt(m0, child, hi);
    forall v: nat | lo <= v < hi ensures Copied(m0, m2, child, parent, v) {
      assert Copied(m0, m1, child, parent, v);
      assert PageAt(m2, child, v) == PageAt(m1, child, v);
      hide PageAt;
    }
  }

  lemma PageEntry(m0: Memory, m1: Memory, s: nat, v: nat)
    requires PageAt(m0, s, v) == PageAt(m1, s, v)
    ensures Lookup(m0, s, v) == Lookup(m1, s, v)
  {
  }

  lemma NoLeafNoPage(mem: Memory, s: nat, v: nat)
    requires !Present(LeafOf(mem, s, v))
    ensures !Present(Lookup(mem, s, v))
  {
  }

  ghost predicate Accessible(mem: Memory, s: nat, v: nat) {
    Present(Lookup(mem, s, v)) && UserAccess(Lookup(mem, s, v))
  }

  /** The byte at virtual address `a` of space `s`, or -1 where no user page is mapped. */
  ghost function ByteAt(mem: Memory, s: nat, a: nat): (r: int) {
    var bytes := PageAt(mem, s, a / PGSIZE).bytes;
    if a % PGSIZE < |bytes| then bytes[a % PGSIZE] as int else -1
  }

  /** Writing within one page of one space is seen there and nowhere else. */
  lemma WriteChunk(mem: Memory, own: Owners, spaces: set<nat>, s: nat, v: nat, off: nat, chunk: seq<byte>)
    requires AllOk(mem, own, spaces) && s in spaces && v < USER_PAGES && off + |chunk| <= PGSIZE
    requires Present(Lookup(mem, s, v)) && IsData(mem, Lookup(mem, s, v).frame)
    requires Is(own, Lookup(mem, s, v).frame, Mapped(s, v))
    ensures AllOk(Chunk(mem, s, v, off, chunk), own, spaces)
    ensures SameEntries(mem, Chunk(mem, s, v, off, chunk), spaces)
    ensures Wrote(mem, Chunk(mem, s, v, off, chunk), spaces, s, v * PGSIZE + off, chunk)
  {
    hide LeafOf, Lookup;
    var f := Lookup(mem, s, v).frame;
    var mem' := Chunk(mem, s, v, off, chunk);
    TouchPage(mem, own, mem', own, spaces, s, v, f);
    forall x, w: nat | x in spaces && w < PAGES
      ensures Lookup(mem', x, w) == Lookup(mem, x, w) && Present(LeafOf(mem', x, w)) == Present(LeafOf(mem, x, w))
    {
      if x != s { OtherSpace(mem, own, mem', spaces, x, s, w, f, v); }
    }
    hide SpaceOk;
    forall x, a: nat | x in spaces && a < PAGES * PGSIZE && !(x == s && a / PGSIZE == v)
      ensures ByteAt(mem', x, a) == ByteAt(mem, x, a)
    {
      assert PageAt(mem', x, a / PGSIZE) == PageAt(mem, x, a / PGSIZE);
    }
  }

  lemma OtherSpace(mem: Memory, own: Owners, mem': Memory, spaces: set<nat>, x: nat, s: nat, w: nat, f: nat, v: nat)
    requires AllOk(mem, own, spaces) && x in spaces && x != s && w < PAGES && TouchesPage(mem, own, mem', own, s, v, f)
    ensures Lookup(mem', x, w) == Lookup(mem, x, w) && LeafOf(mem', x, w) == LeafOf(mem, x, w)
  {
    assert PathOk(mem, own, x, w);
  }

  ghost function Chunk(mem: Memory, s: nat, v: nat, off: nat, chunk: seq<byte>): (r: Memory)
    requires IsData(mem, Lookup(mem, s, v).frame) && off + |chunk| <= PGSIZE
  {
    var f := Lookup(mem, s, v).frame;
    mem[f := Data(Splice(mem[f].bytes, off, chunk))]
  }

  ghost predicate SameEntries(before: Memory, after: Memory, spaces: set<nat>) {
    forall x, v: nat :: x in spaces && v < PAGES ==>
      Lookup(after, x, v) == Lookup(before, x, v) && Present(LeafOf(after, x, v)) == Present(LeafOf(before, x, v))
  }

  /** Of all bytes of all spaces, exactly those of `s` from `va` on changed, to `data`. */
  ghost predicate Wrote(before: Memory, after: Memory, spaces: set<nat>, s: nat, va: nat, data: seq<byte>) {
    forall x, a: nat :: x in spaces && a < PAGES * PGSIZE ==>
      ByteAt(after, x, a) == if x == s && va <= a < va + |data| then data[a - va] as int else ByteAt(before, x, a)
  }

  lemma WroteNothing(mem: Memory, spaces: set<nat>, s: nat, va: nat)
    ensures SameEntries(mem, mem, spaces) && Wrote(mem, mem, spaces, s, va, [])
  {
  }

  lemma EntriesAt(m0: Memory, m1: Memory, spaces: set<nat>, s: nat, v: nat)
    requires SameEntries(m0, m1, spaces) && s in spaces && v < PAGES
    ensures Accessible(m1, s, v) == Accessible(m0, s, v) && Present(LeafOf(m1, s, v)) == Present(LeafOf(m0, s, v))
  {
  }

  lemma WroteMore(m0: Memory, m1: Memory, m2: Memory, spaces: set<nat>, s: nat, va: nat, buf: seq<byte>, done: nat,
                  n: nat)
    requires done + n <= |buf| && SameEntries(m0, m1, spaces) && SameEntries(m1, m2, spaces)
    requires Wrote(m0, m1, spaces, s, va, buf[..done]) && Wrote(m1, m2, spaces, s, va + done, buf[done..][..n])
    ensures SameEntries(m0, m2, spaces) && Wrote(m0, m2, spaces, s, va, buf[..done + n])
  {
    hide ByteAt, Lookup, LeafOf;
    assert buf[done..][..n] == buf[done..done + n];
  }

  /** The pages that the bytes `[va, va + size)` lie in. */
  ghost predicate Touched(va: nat, size: nat, v: nat)
    requires 0 < size
  {
    va / PGSIZE <= v <= (va + size - 1) / PGSIZE
  }

  /** The entry of page `v` when page `first` goes to `frame` and the rest follow. */
  function FrameEntry(frame: nat, perm: nat, first: nat, v: nat): (r: Entry) {
    Entry(frame + (if v < first then 0 else v - first), WithPresent(perm))
  }

  lemma LookupThroughLeaf(mem: Memory, s: nat, v: nat)
    requires Present(LeafOf(mem, s, v))
    ensures Lookup(mem, s, v) == Get(mem, LeafOf(mem, s, v).frame, Ptx(v))
  {
  }
}
