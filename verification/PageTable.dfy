/** Three-level page tables over physical frames, and the map from virtual pages to entries that they denote. */
module PageTable {
  import opened Bytes
  import opened DivMod

  const PAGES: nat := 0x10_0000       // virtual pages of a 32-bit address space
  const USER_PAGES: nat := 0x8_0000   // those below KERNBASE
  const PGSIZE: nat := 4096
  const ENTRIES: nat := 512

  // ---------------------------------------------------------------- entries and frames

  /** A table entry: the frame number above the low 12 bits, the flags in them. */
  datatype Entry = Entry(frame: nat, flags: nat)

  const ABSENT: Entry := Entry(0, 0)
  const PTE_P: nat := 1
  const PTE_W: nat := 2
  const PTE_U: nat := 4

  predicate Present(e: Entry) {
    e.flags % 2 == 1
  }

  predicate UserAccess(e: Entry) {
    e.flags / PTE_U % 2 == 1
  }

  /** `perm | PTE_P`. */
  function WithPresent(perm: nat): (flags: nat)
    ensures Present(Entry(0, flags)) && flags / 2 == perm / 2
  {
    if perm % 2 == 1 then perm else perm + 1
  }

  /** What a physical frame holds: a table of entries or a page of bytes. */
  datatype Frame = Table(entries: seq<Entry>) | Data(bytes: seq<byte>)

  type Memory = map<nat, Frame>

  function EmptyTable(): (r: Frame) { Table(seq(ENTRIES, _ => ABSENT)) }

  function ZeroPage(): (r: Frame) { Data(seq(PGSIZE, _ => 0)) }

  predicate IsTable(mem: Memory, f: nat) {
    f in mem && mem[f].Table? && |mem[f].entries| == ENTRIES
  }

  predicate IsData(mem: Memory, f: nat) {
    f in mem && mem[f].Data? && |mem[f].bytes| == PGSIZE
  }

  function Get(mem: Memory, f: nat, i: nat): (r: Entry) {
    if IsTable(mem, f) && i < ENTRIES then mem[f].entries[i] else ABSENT
  }

  function Set(mem: Memory, f: nat, i: nat, e: Entry): (r: Memory)
    requires IsTable(mem, f) && i < ENTRIES
  {
    mem[f := Table(mem[f].entries[i := e])]
  }

  // ---------------------------------------------------------------- indices of a virtual page number

  function Pdptx(v: nat): (r: nat) { v / 0x4_0000 % 4 }

  function Pdx(v: nat): (r: nat) { v / 0x200 % 0x200 }

  function Ptx(v: nat): (r: nat) { v % 0x200 }

  function PageNumber(i: nat, j: nat, k: nat): (v: nat) { i * 0x4_0000 + j * 0x200 + k }

  /** The three indices of a page number give it back. */
  lemma IndicesInverse(v: nat)
    requires v < PAGES
    ensures Pdptx(v) < 4 && Pdx(v) < ENTRIES && Ptx(v) < ENTRIES
    ensures PageNumber(Pdptx(v), Pdx(v), Ptx(v)) == v
  {
  }

  /** The page number of three indices has those indices. */
  lemma PageNumberInverse(i: nat, j: nat, k: nat)
    requires i < 4 && j < ENTRIES && k < ENTRIES
    ensures PageNumber(i, j, k) < PAGES
    ensures Pdptx(PageNumber(i, j, k)) == i && Pdx(PageNumber(i, j, k)) == j && Ptx(PageNumber(i, j, k)) == k
  {
    var v := PageNumber(i, j, k);
    assert v / ENTRIES == i * ENTRIES + j;
    assert v / (ENTRIES * ENTRIES) == i;
  }

  /** Where the indices are in an address: from bit 30, from bit 21 and from bit 12 on. */
  lemma AddressIndices(i: nat, j: nat, k: nat, offset: nat)
    requires i < 4 && j < ENTRIES && k < ENTRIES && offset < PGSIZE
    ensures var va := i * 0x4000_0000 + j * 0x20_0000 + k * 0x1000 + offset;
      var v := va / PGSIZE;
      va < 0x1_0000_0000 && Pdptx(v) == i && Pdx(v) == j && Ptx(v) == k && va % PGSIZE == offset
  {
    Quotient(i * 0x4000_0000 + j * 0x20_0000 + k * 0x1000 + offset, PGSIZE, PageNumber(i, j, k), offset);
    PageNumberInverse(i, j, k);
  }

  // ---- an entry as the 64-bit word it is stored in ----

  const ADDRESS_LIMIT: nat := 0x10_0000_0000_0000

  /** Flags are the low 12 bits and the high 12 bits of a word. */
  predicate FlagBits(flags: nat) {
    flags % ADDRESS_LIMIT < PGSIZE && flags / ADDRESS_LIMIT < 0x1000
  }

  /** `pa | flags`. */
  function Pack(e: Entry): (w: nat) { e.frame * PGSIZE + e.flags }

  /** `PTE_ADDR` and `PTE_FLAGS`. */
  function Unpack(w: nat): (e: Entry) {
    Entry(w % ADDRESS_LIMIT / PGSIZE, w / ADDRESS_LIMIT * ADDRESS_LIMIT + w % PGSIZE)
  }

  lemma UnpackPack(e: Entry)
    requires FlagBits(e.flags) && e.frame * PGSIZE < ADDRESS_LIMIT
    ensures Unpack(Pack(e)) == e
  {
    var high, low := e.flags / ADDRESS_LIMIT, e.flags % ADDRESS_LIMIT;
    var below := e.frame * PGSIZE + low;
    Quotient(Pack(e), ADDRESS_LIMIT, high, below);
    Quotient(below, PGSIZE, e.frame, low);
    Quotient(Pack(e), PGSIZE, high * 0x100_0000_0000 + e.frame, low);
  }

  lemma PackUnpack(w: nat)
    requires w < 0x1_0000_0000_0000_0000
    ensures Pack(Unpack(w)) == w && FlagBits(Unpack(w).flags) && Unpack(w).frame * PGSIZE < ADDRESS_LIMIT
  {
    var high, mid := w / ADDRESS_LIMIT, w % ADDRESS_LIMIT;
    Quotient(w, PGSIZE, high * 0x100_0000_0000 + mid / PGSIZE, mid % PGSIZE);
    Quotient(Unpack(w).flags, ADDRESS_LIMIT, high, w % PGSIZE);
  }

  /** In a stored word bit 0 says present and bit 2 says user. */
  lemma WordBits(w: nat)
    ensures Present(Unpack(w)) <==> w % 2 == 1
    ensures UserAccess(Unpack(w)) <==> w % 8 >= 4
  {
    var flags, low := Unpack(w).flags, w % PGSIZE;
    LowBits(flags, w / ADDRESS_LIMIT * 0x2_0000_0000_0000 + low / 8, low % 8);
    LowBits(w, w / PGSIZE * 512 + low / 8, low % 8);
  }

  lemma LowBits(x: nat, q: nat, r: nat)
    requires x == q * 8 + r && r < 8
    ensures x % 2 == r % 2 && x % 8 == r && (x / PTE_U % 2 == 1 <==> r >= 4)
  {
    var bit := if r >= 4 then 1 else 0;
    Quotient(x, 8, q, r);
    Quotient(x, 2, q * 4 + r / 2, r % 2);
    Quotient(x, PTE_U, q * 2 + bit, r - 4 * bit);
    Quotient(q * 2 + bit, 2, q, bit);
  }

  lemma SamePage(v: nat, w: nat)
    requires v < PAGES && w < PAGES && Pdptx(v) == Pdptx(w) && Pdx(v) == Pdx(w) && Ptx(v) == Ptx(w)
    ensures v == w
  {
    IndicesInverse(v);
    IndicesInverse(w);
  }

  // ---------------------------------------------------------------- the translation the tables denote

  function DirOf(mem: Memory, s: nat, v: nat): (r: Entry) { Get(mem, s, Pdptx(v)) }

  function LeafOf(mem: Memory, s: nat, v: nat): (r: Entry) {
    if Present(DirOf(mem, s, v)) then Get(mem, DirOf(mem, s, v).frame, Pdx(v)) else ABSENT
  }

  /** The entry of virtual page `v` in the space rooted at `s`, absent when a table is missing. */
  function Lookup(mem: Memory, s: nat, v: nat): (r: Entry) {
    if Present(LeafOf(mem, s, v)) then Get(mem, LeafOf(mem, s, v).frame, Ptx(v)) else ABSENT
  }

  /** A page as a program sees it: its entry and, for a user page, its bytes. */
  datatype Page = Page(entry: Entry, bytes: seq<byte>)

  function PageAt(mem: Memory, s: nat, v: nat): (r: Page) {
    var e := Lookup(mem, s, v);
    Page(e, if v < USER_PAGES && Present(e) && IsData(mem, e.frame) then mem[e.frame].bytes else [])
  }

  // ---------------------------------------------------------------- ownership of frames

  /** What a frame in use is for, in which address space. */
  datatype Role =
    | Root(space: nat)
    | Dir(space: nat, i: nat)
    | Leaf(space: nat, i: nat, j: nat)
    | Mapped(space: nat, v: nat)

  type Owners = map<nat, Role>

  ghost predicate Is(own: Owners, f: nat, r: Role) {
    f in own && own[f] == r
  }

  /** The path to virtual page `v` runs through tables of its own, and a user page has a frame of its own. */
  ghost predicate PathOk(mem: Memory, own: Owners, s: nat, v: nat) {
    && (Present(DirOf(mem, s, v)) ==>
          IsTable(mem, DirOf(mem, s, v).frame) && Is(own, DirOf(mem, s, v).frame, Dir(s, Pdptx(v))))
    && (Present(LeafOf(mem, s, v)) ==>
          IsTable(mem, LeafOf(mem, s, v).frame) && Is(own, LeafOf(mem, s, v).frame, Leaf(s, Pdptx(v), Pdx(v))))
    && (Present(Lookup(mem, s, v)) ==> PageOk(mem, own, s, v, Lookup(mem, s, v)))
  }

  /** User pages are private; kernel pages are out of reach of user accesses. */
  ghost predicate PageOk(mem: Memory, own: Owners, s: nat, v: nat, e: Entry) {
    if v < USER_PAGES then IsData(mem, e.frame) && Is(own, e.frame, Mapped(s, v)) else !UserAccess(e)
  }

  ghost predicate SpaceOk(mem: Memory, own: Owners, s: nat) {
    IsTable(mem, s) && Is(own, s, Root(s)) && forall v: nat :: v < PAGES ==> PathOk(mem, own, s, v)
  }

  /** Every frame of space `s` is as it was. */
  ghost predicate Untouched(mem: Memory, own: Owners, mem': Memory, own': Owners, s: nat) {
    forall f :: f in own && own[f].space == s && f in mem ==> f in mem' && mem'[f] == mem[f] && Is(own', f, own[f])
  }

  lemma UntouchedPath(mem: Memory, own: Owners, mem': Memory, own': Owners, s: nat, v: nat)
    requires SpaceOk(mem, own, s) && Untouched(mem, own, mem', own', s) && v < PAGES
    ensures PathOk(mem', own', s, v) && PageAt(mem', s, v) == PageAt(mem, s, v)
  {
    assert PathOk(mem, own, s, v);
  }

  // ---------------------------------------------------------------- all address spaces at once

  ghost predicate AllOk(mem: Memory, own: Owners, spaces: set<nat>) {
    forall s :: s in spaces ==> SpaceOk(mem, own, s)
  }

  ghost predicate AllSame(mem: Memory, mem': Memory, spaces: set<nat>) {
    forall s, v: nat :: s in spaces && v < PAGES ==> PageAt(mem', s, v) == PageAt(mem, s, v)
  }

  /** No page of any space differs, save page `w` of space `x`. */
  ghost predicate AllSameBut(mem: Memory, mem': Memory, spaces: set<nat>, x: nat, w: nat) {
    forall s, v: nat :: s in spaces && v < PAGES && !(s == x && v == w) ==> PageAt(mem', s, v) == PageAt(mem, s, v)
  }

  /** The paths of every space but `x` are untouched; those of `x` are looked at one by one. */
  ghost predicate OthersUntouched(mem: Memory, own: Owners, mem': Memory, own': Owners, x: nat) {
    forall f :: f in own && own[f].space != x && f in mem ==> f in mem' && mem'[f] == mem[f] && Is(own', f, own[f])
  }

  lemma OthersOk(mem: Memory, own: Owners, mem': Memory, own': Owners, spaces: set<nat>, x: nat)
    requires AllOk(mem, own, spaces) && OthersUntouched(mem, own, mem', own', x)
    ensures AllOk(mem', own', spaces - {x}) && AllSame(mem, mem', spaces - {x})
  {
    hide PathOk, PageAt;
    forall s, v: nat | s in spaces - {x} && v < PAGES
      ensures PathOk(mem', own', s, v) && PageAt(mem', s, v) == PageAt(mem, s, v)
    {
      UntouchedPath(mem, own, mem', own', s, v);
    }
  }

  // ---------------------------------------------------------------- linking an empty table

  function AddDirMemory(mem: Memory, s: nat, i: nat, t: nat): (r: Memory)
    requires IsTable(mem, s) && i < ENTRIES && t !in mem
  {
    Set(mem[t := EmptyTable()], s, i, Entry(t, PTE_P))
  }

  lemma AddDirPath(mem: Memory, own: Owners, s: nat, i: nat, t: nat, v: nat)
    requires SpaceOk(mem, own, s) && i < 4 && t !in mem && v < PAGES && !Present(Get(mem, s, i))
    ensures PathOk(AddDirMemory(mem, s, i, t), own[t := Dir(s, i)], s, v)
    ensures PageAt(AddDirMemory(mem, s, i, t), s, v) == PageAt(mem, s, v)
  {
    assert PathOk(mem, own, s, v);
  }

  /** Linking an empty directory under a root changes no page of any space. */
  lemma AddDir(mem: Memory, own: Owners, spaces: set<nat>, s: nat, i: nat, t: nat)
    requires AllOk(mem, own, spaces) && s in spaces && i < 4 && t !in mem && !Present(Get(mem, s, i))
    ensures IsTable(mem, s)
    ensures AllOk(AddDirMemory(mem, s, i, t), own[t := Dir(s, i)], spaces)
    ensures AllSame(mem, AddDirMemory(mem, s, i, t), spaces)
  {
    hide PathOk, PageAt;
    var mem', own' := AddDirMemory(mem, s, i, t), own[t := Dir(s, i)];
    OthersOk(mem, own, mem', own', spaces, s);
    forall v: nat | v < PAGES ensures PathOk(mem', own', s, v) && PageAt(mem', s, v) == PageAt(mem, s, v) {
      AddDirPath(mem, own, s, i, t, v);
    }
    assert spaces == spaces - {s} + {s};
  }

  function AddLeafMemory(mem: Memory, d: nat, j: nat, t: nat, flags: nat): (r: Memory)
    requires IsTable(mem, d) && j < ENTRIES && t !in mem
  {
    Set(mem[t := EmptyTable()], d, j, Entry(t, flags))
  }

  lemma AddLeafPath(mem: Memory, own: Owners, s: nat, i: nat, j: nat, t: nat, flags: nat, v: nat)
    requires SpaceOk(mem, own, s) && j < ENTRIES && t !in mem && v < PAGES
    requires Present(Get(mem, s, i)) && Is(own, Get(mem, s, i).frame, Dir(s, i)) && IsTable(mem, Get(mem, s, i).frame)
    requires !Present(Get(mem, Get(mem, s, i).frame, j)) && Present(Entry(t, flags))
    ensures PathOk(AddLeafMemory(mem, Get(mem, s, i).frame, j, t, flags), own[t := Leaf(s, i, j)], s, v)
    ensures PageAt(AddLeafMemory(mem, Get(mem, s, i).frame, j, t, flags), s, v) == PageAt(mem, s, v)
  {
    assert PathOk(mem, own, s, v);
  }

  /** Linking an empty page table into a directory changes no page of any space. */
  lemma AddLeaf(mem: Memory, own: Owners, spaces: set<nat>, s: nat, w: nat, t: nat, flags: nat)
    requires AllOk(mem, own, spaces) && s in spaces && w < PAGES && t !in mem
    requires Present(DirOf(mem, s, w)) && !Present(LeafOf(mem, s, w)) && Present(Entry(t, flags))
    ensures IsTable(mem, DirOf(mem, s, w).frame)
    ensures AllOk(AddLeafMemory(mem, DirOf(mem, s, w).frame, Pdx(w), t, flags), own[t := Leaf(s, Pdptx(w), Pdx(w))],
                  spaces)
    ensures AllSame(mem, AddLeafMemory(mem, DirOf(mem, s, w).frame, Pdx(w), t, flags), spaces)
  {
    assert PathOk(mem, own, s, w);
    hide PathOk, PageAt;
    var d, i, j := DirOf(mem, s, w).frame, Pdptx(w), Pdx(w);
    var mem', own' := AddLeafMemory(mem, d, j, t, flags), own[t := Leaf(s, i, j)];
    OthersOk(mem, own, mem', own', spaces, s);
    forall v: nat | v < PAGES ensures PathOk(mem', own', s, v) && PageAt(mem', s, v) == PageAt(mem, s, v) {
      AddLeafPath(mem, own, s, i, j, t, flags, v);
    }
    assert spaces == spaces - {s} + {s};
  }

  // ---------------------------------------------------------------- setting a page's entry

  function SetPteMemory(mem: Memory, s: nat, w: nat, e: Entry): (r: Memory)
    requires IsTable(mem, LeafOf(mem, s, w).frame)
  {
    Set(mem, LeafOf(mem, s, w).frame, Ptx(w), e)
  }

  lemma SetPtePath(mem: Memory, own: Owners, s: nat, w: nat, e: Entry, v: nat)
    requires SpaceOk(mem, own, s) && w < PAGES && v < PAGES && PathOk(mem, own, s, w)
    requires Present(LeafOf(mem, s, w)) && (Present(e) ==> PageOk(mem, own, s, w, e))
    ensures PathOk(SetPteMemory(mem, s, w, e), own, s, v)
    ensures v != w ==> PageAt(SetPteMemory(mem, s, w, e), s, v) == PageAt(mem, s, v)
    ensures Lookup(SetPteMemory(mem, s, w, e), s, w) == e
    ensures LeafOf(SetPteMemory(mem, s, w, e), s, w) == LeafOf(mem, s, w)
  {
    assert PathOk(mem, own, s, v);
    if Pdptx(v) == Pdptx(w) && Pdx(v) == Pdx(w) && Ptx(v) == Ptx(w) { SamePage(v, w); }
  }

  /** Writing the entry of one page changes that page of that space and nothing else. */
  lemma SetPte(mem: Memory, own: Owners, spaces: set<nat>, s: nat, w: nat, e: Entry)
    requires AllOk(mem, own, spaces) && s in spaces && w < PAGES
    requires Present(LeafOf(mem, s, w)) && (Present(e) ==> PageOk(mem, own, s, w, e))
    ensures IsTable(mem, LeafOf(mem, s, w).frame)
    ensures AllOk(SetPteMemory(mem, s, w, e), own, spaces)
    ensures AllSameBut(mem, SetPteMemory(mem, s, w, e), spaces, s, w)
    ensures Lookup(SetPteMemory(mem, s, w, e), s, w) == e
    ensures LeafOf(SetPteMemory(mem, s, w, e), s, w) == LeafOf(mem, s, w)
  {
    assert PathOk(mem, own, s, w);
    SetPtePath(mem, own, s, w, e, w);
    hide PathOk, PageAt, Lookup, LeafOf;
    var mem' := SetPteMemory(mem, s, w, e);
    OthersOk(mem, own, mem', own, spaces, s);
    forall v: nat | v < PAGES ensures PathOk(mem', own, s, v) && (v != w ==> PageAt(mem', s, v) == PageAt(mem, s, v)) {
      SetPtePath(mem, own, s, w, e, v);
    }
    assert spaces == spaces - {s} + {s};
  }

  // ---------------------------------------------------------------- touching the frame of a user page

  /** Nothing changes but frame `f`, the one of page `w` of space `s`. */
  ghost predicate TouchesPage(mem: Memory, own: Owners, mem': Memory, own': Owners, s: nat, w: nat, f: nat) {
    && Is(own, f, Mapped(s, w))
    && (forall g :: g in mem && g != f ==> g in mem' && mem'[g] == mem[g])
    && (forall g :: g in own && g != f ==> Is(own', g, own[g]))
  }

  lemma TouchesPath(mem: Memory, own: Owners, mem': Memory, own': Owners, s: nat, w: nat, f: nat, v: nat)
    requires SpaceOk(mem, own, s) && v < PAGES && TouchesPage(mem, own, mem', own', s, w, f)
    requires Present(Lookup(mem, s, w)) && w < PAGES ==> IsData(mem', f) && Is(own', f, Mapped(s, w))
    ensures PathOk(mem', own', s, v) && Lookup(mem', s, v) == Lookup(mem, s, v)
    ensures LeafOf(mem', s, v) == LeafOf(mem, s, v)
    ensures v != w ==> PageAt(mem', s, v) == PageAt(mem, s, v)
  {
    assert PathOk(mem, own, s, v);
  }

  /** Changing the frame of one user page is seen through that page of that space only. */
  lemma TouchPage(mem: Memory, own: Owners, mem': Memory, own': Owners, spaces: set<nat>, s: nat, w: nat, f: nat)
    requires AllOk(mem, own, spaces) && s in spaces && w < PAGES && TouchesPage(mem, own, mem', own', s, w, f)
    requires Present(Lookup(mem, s, w)) ==> IsData(mem', f) && Is(own', f, Mapped(s, w))
    requires f != s
    ensures AllOk(mem', own', spaces) && AllSameBut(mem, mem', spaces, s, w)
    ensures forall v: nat :: v < PAGES ==> Lookup(mem', s, v) == Lookup(mem, s, v)
    ensures forall v: nat :: v < PAGES ==> LeafOf(mem', s, v) == LeafOf(mem, s, v)
  {
    hide PathOk, PageAt, Lookup, LeafOf;
    OthersOk(mem, own, mem', own', spaces, s);
    forall v: nat | v < PAGES
      ensures PathOk(mem', own', s, v) && (v != w ==> PageAt(mem', s, v) == PageAt(mem, s, v))
      ensures Lookup(mem', s, v) == Lookup(mem, s, v) && LeafOf(mem', s, v) == LeafOf(mem, s, v)
    {
      TouchesPath(mem, own, mem', own', s, w, f, v);
    }
    assert spaces == spaces - {s} + {s};
  }

  /** A fresh frame is seen through no page. */
  lemma AddFrame(mem: Memory, own: Owners, spaces: set<nat>, f: nat, frame: Frame, r: Role)
    requires AllOk(mem, own, spaces) && f !in mem
    ensures AllOk(mem[f := frame], own[f := r], spaces) && AllSame(mem, mem[f := frame], spaces)
  {
    hide PathOk, PageAt;
    var mem', own' := mem[f := frame], own[f := r];
    forall s | s in spaces
      ensures SpaceOk(mem', own', s) && forall v: nat :: v < PAGES ==> PageAt(mem', s, v) == PageAt(mem, s, v)
    {
      assert SpaceOk(mem, own, s);
      forall v: nat | v < PAGES ensures PathOk(mem', own', s, v) && PageAt(mem', s, v) == PageAt(mem, s, v) {
        UntouchedPath(mem, own, mem', own', s, v);
      }
    }
  }

  // ---------------------------------------------------------------- ranges of pages

  /** No page of any space differs, save those of space `x` from `lo` up to `hi`. */
  ghost predicate AllSameOutside(mem: Memory, mem': Memory, spaces: set<nat>, x: nat, lo: nat, hi: nat) {
    forall s, v: nat :: s in spaces && v < PAGES && !(s == x && lo <= v < hi) ==>
      PageAt(mem', s, v) == PageAt(mem, s, v)
  }

  lemma OutsideThenSame(m0: Memory, m1: Memory, m2: Memory, spaces: set<nat>, x: nat, lo: nat, hi: nat)
    requires AllSameOutside(m0, m1, spaces, x, lo, hi) && AllSame(m1, m2, spaces)
    ensures AllSameOutside(m0, m2, spaces, x, lo, hi)
  {
    hide PageAt;
  }

  lemma OutsideThenBut(m0: Memory, m1: Memory, m2: Memory, spaces: set<nat>, x: nat, lo: nat, hi: nat)
    requires AllSameOutside(m0, m1, spaces, x, lo, hi) && AllSameBut(m1, m2, spaces, x, hi) && lo <= hi
    ensures AllSameOutside(m0, m2, spaces, x, lo, hi + 1)
  {
    hide PageAt;
  }
}
