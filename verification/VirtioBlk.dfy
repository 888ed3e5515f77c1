/** The virtio block driver, its device and its interrupt handler sharing one queue: requests of
    three descriptors, completions through the used ring, processes asleep on their buffers. A
    driver step is what runs under the device lock; the device moves at any time. */
module VirtioBlk {
  import opened VirtRing
  import opened VirtQueue

  /** What a process asks for: `count` sectors at the physical address `buf`, to be read or written, with a request
      header and a status byte elsewhere. */
  datatype Call = Call(proc: nat, header: nat, buf: nat, status: nat, count: nat, read: bool)

  /** A request in flight: its second and third descriptor, the call, and its number in the order of requests. */
  datatype Req = Req(d1: nat, d2: nat, call: Call, token: nat)

  /** Queue memory, the device's cursor and open chains, the driver's cursor, and the sleepers.
      `inflight`, `nextToken`, `completed` and `handled` record the history. */
  datatype State = State(
    desc: seq<Desc>,
    availRing: seq<nat>, availIdx: nat, devIdx: nat,
    working: set<nat>,
    usedRing: seq<nat>, usedIdx: nat, last: nat,
    asleep: map<nat, nat>,
    inflight: map<nat, Req>, nextToken: nat, completed: seq<nat>, handled: seq<nat>)

  // ---- steps ----

  /** The three descriptors of a request, filled in. */
  function FillRequest(desc: seq<Desc>, d0: nat, d1: nat, d2: nat, c: Call): (r: seq<Desc>)
    requires d0 < |desc| && d1 < |desc| && d2 < |desc|
  {
    desc[d0 := Desc(c.header, 16, F_NEXT, d1)]
        [d1 := Desc(c.buf, 512 * c.count, if c.read then F_NEXT + F_WRITE else F_NEXT, d2)]
        [d2 := Desc(c.status, 1, F_WRITE, 0)]
  }

  /** The descriptors of a request, in link order. */
  function ChainSeq(h: nat, r: Req): (chain: seq<nat>) {
    [h, r.d1, r.d2]
  }

  /** `virtio_blk_req` by a process: allocate, fill, insert in the avail ring, sleep on the buffer.
      The buffer is not the buffer of another request in flight. */
  ghost predicate Request(s: State, s': State, c: Call) {
    var a := AllocRun(s.desc, 3);
    && a.ok && |a.ids| == 3 && (forall k :: 0 <= k < 3 ==> a.ids[k] < |s.desc|)
    && c.header != 0 && c.buf != 0 && c.status != 0
    && c.proc !in s.asleep && (forall h :: h in s.inflight ==> s.inflight[h].call.buf != c.buf)
    && 0 < |s.availRing|
    && var (d0, d1, d2) := (a.ids[0], a.ids[1], a.ids[2]);
       s' == s.(desc := FillRequest(a.desc, d0, d1, d2, c),
                availRing := s.availRing[s.availIdx % |s.availRing| := d0], availIdx := Succ(s.availIdx),
                asleep := s.asleep[c.proc := c.buf],
                inflight := s.inflight[d0 := Req(d1, d2, c, s.nextToken)], nextToken := s.nextToken + 1)
  }

  /** The device fetches the next available chain. */
  ghost predicate DeviceTake(s: State, s': State) {
    && s.devIdx != s.availIdx && 0 < |s.availRing|
    && s' == s.(working := s.working + {s.availRing[s.devIdx % |s.availRing|]}, devIdx := Succ(s.devIdx))
  }

  /** The device finishes a chain it has fetched and publishes it in the used ring. */
  ghost predicate DeviceDone(s: State, s': State, h: nat) {
    && h in s.working && h in s.inflight && 0 < |s.usedRing|
    && s' == s.(working := s.working - {h}, usedRing := s.usedRing[s.usedIdx % |s.usedRing| := h],
                usedIdx := Succ(s.usedIdx),
                completed := s.completed + [s.inflight[h].token])
  }

  /** Who still sleeps after a wakeup of `addr`. */
  function Unwoken(asleep: map<nat, nat>, addr: nat): (r: map<nat, nat>) {
    map p | p in asleep && asleep[p] != addr :: asleep[p]
  }

  /** One turn of the loop of `virtio_blk_requestq_intr`: wake whoever sleeps on the buffer of the
      chain's second descriptor, free the chain, advance the cursor. */
  ghost predicate Interrupt(s: State, s': State, h: nat) {
    && s.last != s.usedIdx && 0 < |s.usedRing| && h == s.usedRing[s.last % |s.usedRing|]
    && h < |s.desc| && h in s.inflight && (HasNext(s.desc[h]) ==> s.desc[h].next < |s.desc|)
    && var chain := ChainSeq(h, s.inflight[h]);
       && IsDescChain(s.desc, h, chain)
       && var woken := if HasNext(s.desc[h]) then s.desc[s.desc[h].next].addr else 0;
          s' == s.(asleep := Unwoken(s.asleep, woken),
                   desc := Freed(s.desc, chain), last := Succ(s.last),
                   inflight := s.inflight - {h}, handled := s.handled + [s.inflight[h].token])
  }

  ghost predicate Next(s: State, s': State) {
    || (exists c :: Request(s, s', c))
    || DeviceTake(s, s')
    || (exists h :: DeviceDone(s, s', h))
    || (exists h :: Interrupt(s, s', h))
  }

  ghost predicate Init(s: State) {
    && RingSize(|s.desc|) && |s.availRing| == |s.desc| == |s.usedRing|
    && (forall i :: 0 <= i < |s.desc| ==> IsFree(s.desc[i]))
    && s.availIdx == s.devIdx == s.usedIdx == s.last == 0
    && s.working == {} && s.asleep == map[] && s.inflight == map[]
    && s.nextToken == 0 && s.completed == [] && s.handled == []
  }

  // ---- the invariant ----

  predicate Member(h: nat, r: Req, i: nat) {
    i == h || i == r.d1 || i == r.d2
  }

  /** What a descriptor offers the device: `len` bytes at `addr`, to store into or to read. */
  predicate Offers(d: Desc, addr: nat, len: nat, writable: bool) {
    d.addr == addr && d.len == len && (d.flags / F_WRITE % 2 == 1 <==> writable)
  }

  /** A request's three descriptors are distinct, linked, in use, and say what the call asked for. */
  ghost predicate ChainOk(desc: seq<Desc>, h: nat, r: Req) {
    && h < |desc| && r.d1 < |desc| && r.d2 < |desc|
    && h != r.d1 && h != r.d2 && r.d1 != r.d2
    && !IsFree(desc[h]) && !IsFree(desc[r.d1]) && !IsFree(desc[r.d2])
    && HasNext(desc[h]) && desc[h].next == r.d1
    && HasNext(desc[r.d1]) && desc[r.d1].next == r.d2
    && !HasNext(desc[r.d2])
    && Offers(desc[h], r.call.header, 16, false)
    && Offers(desc[r.d1], r.call.buf, 512 * r.call.count, r.call.read)
    && Offers(desc[r.d2], r.call.status, 1, true)
  }

  ghost predicate Owns(inflight: map<nat, Req>, h: nat, i: nat) {
    h in inflight && Member(h, inflight[h], i)
  }

  ghost predicate ChainsOk(desc: seq<Desc>, inflight: map<nat, Req>) {
    forall h :: h in inflight ==> ChainOk(desc, h, inflight[h])
  }

  ghost predicate ChainsDisjoint(inflight: map<nat, Req>) {
    forall g: nat, h: nat, i: nat :: Owns(inflight, g, i) && Owns(inflight, h, i) ==> g == h
  }

  ghost predicate Owned(inflight: map<nat, Req>, i: nat) {
    exists h: nat :: Owns(inflight, h, i)
  }

  ghost predicate Accounted(desc: seq<Desc>, inflight: map<nat, Req>) {
    forall i: nat :: i < |desc| && !IsFree(desc[i]) ==> Owned(inflight, i)
  }

  /** Chains in flight are pairwise disjoint, every descriptor is free or on one, and the count
      adds up. */
  ghost predicate DescsOk(desc: seq<Desc>, inflight: map<nat, Req>) {
    && ChainsOk(desc, inflight)
    && ChainsDisjoint(inflight)
    && Accounted(desc, inflight)
    && |FreeSet(desc)| + 3 * |inflight| == |desc|
  }

  ghost predicate NoDup(s: seq<nat>) {
    forall i, j :: 0 <= i < j < |s| ==> s[i] != s[j]
  }

  /** Every chain in flight is in exactly one place: waiting in the avail ring, open in the device,
      or finished in the used ring. */
  ghost predicate PlacesOk(avail: seq<nat>, working: set<nat>, used: seq<nat>, inflight: map<nat, Req>) {
    && NoDup(avail) && NoDup(used)
    && (forall h: nat :: h in inflight <==> h in avail || h in working || h in used)
    && (forall h: nat :: !(h in avail && h in working) && !(h in avail && h in used) && !(h in working && h in used))
    && |avail| + |working| + |used| == |inflight|
  }

  /** A process sleeps on a buffer exactly while its request is in flight. */
  ghost predicate SleepersOk(asleep: map<nat, nat>, inflight: map<nat, Req>) {
    && (forall h :: h in inflight ==>
          && inflight[h].call.proc in asleep && asleep[inflight[h].call.proc] == inflight[h].call.buf
          && inflight[h].call.buf != 0)
    && (forall p :: p in asleep ==> exists h: nat :: h in inflight && inflight[h].call.proc == p)
    && (forall g, h ::
          && g in inflight && h in inflight
          && (inflight[g].call.proc == inflight[h].call.proc || inflight[g].call.buf == inflight[h].call.buf)
          ==> g == h)
  }

  ghost function Tokens(used: seq<nat>, inflight: map<nat, Req>): (t: seq<nat>)
    requires forall i :: 0 <= i < |used| ==> used[i] in inflight
  {
    seq(|used|, i requires 0 <= i < |used| => inflight[used[i]].token)
  }

  /** The driver has handled each completion once, in order: what is completed and not handled is
      what lies in the used ring. */
  ghost predicate TokensOk(used: seq<nat>, inflight: map<nat, Req>, nextToken: nat, completed: seq<nat>,
                           handled: seq<nat>) {
    && (forall i :: 0 <= i < |used| ==> used[i] in inflight)
    && completed == handled + Tokens(used, inflight)
    && NoDup(handled) && (forall i :: 0 <= i < |handled| ==> handled[i] < nextToken)
    && (forall h :: h in inflight ==> inflight[h].token < nextToken && inflight[h].token !in handled)
    && (forall g, h :: g in inflight && h in inflight && inflight[g].token == inflight[h].token ==> g == h)
    && |handled| + |inflight| == nextToken
  }

  ghost predicate RingsOk(s: State) {
    && RingSize(|s.desc|) && |s.availRing| == |s.desc| == |s.usedRing|
    && s.availIdx < INDEX_LIMIT && s.devIdx < INDEX_LIMIT && s.usedIdx < INDEX_LIMIT && s.last < INDEX_LIMIT
  }

  ghost function Avail(s: State): (q: seq<nat>)
    requires RingsOk(s)
  {
    Window(s.availRing, s.devIdx, s.availIdx)
  }

  ghost function Used(s: State): (q: seq<nat>)
    requires RingsOk(s)
  {
    Window(s.usedRing, s.last, s.usedIdx)
  }

  ghost predicate Inv(s: State) {
    && RingsOk(s)
    && DescsOk(s.desc, s.inflight)
    && PlacesOk(Avail(s), s.working, Used(s), s.inflight)
    && SleepersOk(s.asleep, s.inflight)
    && TokensOk(Used(s), s.inflight, s.nextToken, s.completed, s.handled)
  }

  lemma InitInv(s: State)
    requires Init(s)
    ensures Inv(s)
  {
    AllFree(s.desc);
  }

  lemma {:induction false} AllFree(desc: seq<Desc>)
    requires forall i :: 0 <= i < |desc| ==> IsFree(desc[i])
    ensures |FreeSet(desc)| == |desc|
  {
    if desc == [] {
      assert FreeSet(desc) == {};
    } else {
      var n := |desc| - 1;
      AllFree(desc[..n]);
      assert FreeSet(desc) == FreeSet(desc[..n]) + {n};
    }
  }

  // ---- requests ----

  /** `desc'` differs from `desc` only on the three descriptors of a chain. */
  ghost predicate OnlyChain(desc: seq<Desc>, desc': seq<Desc>, h: nat, r: Req) {
    |desc'| == |desc| && forall i :: 0 <= i < |desc| && !Member(h, r, i) ==> desc'[i] == desc[i]
  }

  lemma AddChain(desc: seq<Desc>, desc': seq<Desc>, inflight: map<nat, Req>, h: nat, r: Req)
    requires DescsOk(desc, inflight) && OnlyChain(desc, desc', h, r) && ChainOk(desc', h, r)
    requires IsFree(desc[h]) && IsFree(desc[r.d1]) && IsFree(desc[r.d2])
    ensures h !in inflight && DescsOk(desc', inflight[h := r])
  {
    hide ChainsOk, ChainsDisjoint, Accounted;
    AddChainsOk(desc, desc', inflight, h, r);
    AddDisjoint(desc, inflight, h, r);
    AddAccounted(desc, desc', inflight, h, r);
    AddCount(desc, desc', h, r);
  }

  lemma AddChainsOk(desc: seq<Desc>, desc': seq<Desc>, inflight: map<nat, Req>, h: nat, r: Req)
    requires ChainsOk(desc, inflight) && OnlyChain(desc, desc', h, r) && ChainOk(desc', h, r)
    requires IsFree(desc[h]) && IsFree(desc[r.d1]) && IsFree(desc[r.d2])
    ensures h !in inflight && ChainsOk(desc', inflight[h := r])
  {
    assert h in inflight ==> ChainOk(desc, h, inflight[h]);
    forall g | g in inflight && g != h ensures ChainOk(desc', g, inflight[g]) {
      assert ChainOk(desc, g, inflight[g]);
    }
  }

  lemma AddDisjoint(desc: seq<Desc>, inflight: map<nat, Req>, h: nat, r: Req)
    requires ChainsOk(desc, inflight) && ChainsDisjoint(inflight)
    requires h < |desc| && r.d1 < |desc| && r.d2 < |desc| && IsFree(desc[h]) && IsFree(desc[r.d1]) && IsFree(desc[r.d2])
    ensures ChainsDisjoint(inflight[h := r])
  {
    var inflight' := inflight[h := r];
    forall f: nat, g: nat, i: nat | Owns(inflight', f, i) && Owns(inflight', g, i) ensures f == g {
      assert f != h ==> Owns(inflight, f, i) && ChainOk(desc, f, inflight[f]);
      assert g != h ==> Owns(inflight, g, i) && ChainOk(desc, g, inflight[g]);
    }
  }

  lemma AddAccounted(desc: seq<Desc>, desc': seq<Desc>, inflight: map<nat, Req>, h: nat, r: Req)
    requires Accounted(desc, inflight) && OnlyChain(desc, desc', h, r) && h !in inflight
    ensures Accounted(desc', inflight[h := r])
  {
    var inflight' := inflight[h := r];
    forall i: nat | i < |desc'| && !IsFree(desc'[i]) ensures Owned(inflight', i) {
      if Member(h, r, i) {
        assert Owns(inflight', h, i);
      } else {
        assert Owned(inflight, i);
        var g: nat :| Owns(inflight, g, i);
        assert Owns(inflight', g, i);
      }
    }
  }

  lemma AddCount(desc: seq<Desc>, desc': seq<Desc>, h: nat, r: Req)
    requires OnlyChain(desc, desc', h, r) && ChainOk(desc', h, r)
    requires IsFree(desc[h]) && IsFree(desc[r.d1]) && IsFree(desc[r.d2])
    ensures |FreeSet(desc)| == |FreeSet(desc')| + 3
  {
    assert FreeSet(desc') == FreeSet(desc) - {h, r.d1, r.d2};
    assert {h, r.d1, r.d2} <= FreeSet(desc) && |{h, r.d1, r.d2}| == 3;
  }

  lemma OnlyThree(ids: seq<nat>, i: nat)
    requires |ids| == 3
    ensures i in ids <==> i == ids[0] || i == ids[1] || i == ids[2]
  {
  }

  /** What allocation and filling do to the table. */
  lemma RequestTable(desc: seq<Desc>, a: Alloc, c: Call, token: nat)
    requires a == AllocRun(desc, 3) && a.ok && c.header != 0 && c.buf != 0 && c.status != 0
    ensures |a.ids| == 3 && |a.desc| == |desc| && forall k :: 0 <= k < 3 ==> a.ids[k] < |desc| && IsFree(desc[a.ids[k]])
    ensures var r, desc' := Req(a.ids[1], a.ids[2], c, token),
              FillRequest(a.desc, a.ids[0], a.ids[1], a.ids[2], c);
      OnlyChain(desc, desc', a.ids[0], r) && ChainOk(desc', a.ids[0], r)
  {
    hide AllocRun, FreeSet, FillRequest, ChainOk, TakesFree;
    AllocSucceeds(desc, 3);
    AllocTakes(desc, 3);
    TakesThree(desc, a);
    FillChain(a.desc, a.ids[0], a.ids[1], a.ids[2], c, token);
  }

  lemma TakesThree(desc: seq<Desc>, a: Alloc)
    requires TakesFree(desc, a) && |a.ids| == 3
    ensures a.ids[0] < a.ids[1] < a.ids[2] < |desc| == |a.desc|
    ensures IsFree(desc[a.ids[0]]) && IsFree(desc[a.ids[1]]) && IsFree(desc[a.ids[2]])
    ensures forall i :: 0 <= i < |desc| && i != a.ids[0] && i != a.ids[1] && i != a.ids[2] ==> a.desc[i] == desc[i]
  {
    forall i: nat | i < |desc| && i != a.ids[0] && i != a.ids[1] && i != a.ids[2] ensures a.desc[i] == desc[i] {
      OnlyThree(a.ids, i);
    }
  }

  lemma FillChain(desc: seq<Desc>, d0: nat, d1: nat, d2: nat, c: Call, token: nat)
    requires d0 < d1 < d2 < |desc| && c.header != 0 && c.buf != 0 && c.status != 0
    ensures var r, desc' := Req(d1, d2, c, token),
              FillRequest(desc, d0, d1, d2, c);
      OnlyChain(desc, desc', d0, r) && ChainOk(desc', d0, r)
  {
  }

  lemma RequestPlaces(avail: seq<nat>, working: set<nat>, used: seq<nat>, inflight: map<nat, Req>, h: nat, r: Req)
    requires PlacesOk(avail, working, used, inflight) && h !in inflight
    ensures PlacesOk(avail + [h], working, used, inflight[h := r])
  {
  }

  lemma RequestSleepers(asleep: map<nat, nat>, inflight: map<nat, Req>, h: nat, r: Req)
    requires SleepersOk(asleep, inflight) && h !in inflight && r.call.proc !in asleep && r.call.buf != 0
    requires forall g :: g in inflight ==> inflight[g].call.buf != r.call.buf
    ensures SleepersOk(asleep[r.call.proc := r.call.buf], inflight[h := r])
  {
    var asleep', inflight' := asleep[r.call.proc := r.call.buf], inflight[h := r];
    forall p | p in asleep' ensures exists g: nat :: g in inflight' && inflight'[g].call.proc == p {
      if p == r.call.proc {
        assert inflight'[h].call.proc == p;
      } else {
        var g: nat :| g in inflight && inflight[g].call.proc == p;
        assert inflight'[g].call.proc == p;
      }
    }
  }

  lemma RequestTokens(used: seq<nat>, inflight: map<nat, Req>, nextToken: nat, completed: seq<nat>, handled: seq<nat>,
                      h: nat, r: Req)
    requires TokensOk(used, inflight, nextToken, completed, handled) && h !in inflight && r.token == nextToken
    ensures TokensOk(used, inflight[h := r], nextToken + 1, completed, handled)
  {
    assert Tokens(used, inflight[h := r]) == Tokens(used, inflight);
  }

  /** The rings hold fewer chains than they have slots. */
  lemma RingsHaveRoom(s: State)
    requires Inv(s)
    ensures |Avail(s)| < |s.desc| && |Used(s)| < |s.desc|
  {
  }

  lemma RequestInv(s: State, s': State, c: Call)
    requires Inv(s) && Request(s, s', c)
    ensures Inv(s')
  {
    hide DescsOk, PlacesOk, SleepersOk, TokensOk, AllocRun, FillRequest;
    var a := AllocRun(s.desc, 3);
    RequestTable(s.desc, a, c, s.nextToken);
    var h, r := a.ids[0], Req(a.ids[1], a.ids[2], c, s.nextToken);
    AddChain(s.desc, s'.desc, s.inflight, h, r);
    RingsHaveRoom(s);
    WindowPush(s.availRing, s.devIdx, s.availIdx, h);
    RequestPlaces(Avail(s), s.working, Used(s), s.inflight, h, r);
    RequestSleepers(s.asleep, s.inflight, h, r);
    RequestTokens(Used(s), s.inflight, s.nextToken, s.completed, s.handled, h, r);
  }

  // ---- the device ----

  lemma TakePlaces(avail: seq<nat>, working: set<nat>, used: seq<nat>, inflight: map<nat, Req>)
    requires PlacesOk(avail, working, used, inflight) && avail != []
    ensures PlacesOk(avail[1..], working + {avail[0]}, used, inflight)
  {
    var h := avail[0];
    assert h in avail;
    assert avail == [h] + avail[1..];
    assert h !in avail[1..];
  }

  lemma DeviceTakeInv(s: State, s': State)
    requires Inv(s) && DeviceTake(s, s')
    ensures Inv(s')
  {
    hide DescsOk, PlacesOk, SleepersOk, TokensOk;
    WindowPop(s.availRing, s.devIdx, s.availIdx);
    TakePlaces(Avail(s), s.working, Used(s), s.inflight);
    assert Avail(s)[1..] == Avail(s');
  }

  lemma DonePlaces(avail: seq<nat>, working: set<nat>, used: seq<nat>, inflight: map<nat, Req>, h: nat)
    requires PlacesOk(avail, working, used, inflight) && h in working
    ensures PlacesOk(avail, working - {h}, used + [h], inflight)
  {
  }

  lemma DoneTokens(used: seq<nat>, inflight: map<nat, Req>, nextToken: nat, completed: seq<nat>, handled: seq<nat>,
                   h: nat)
    requires TokensOk(used, inflight, nextToken, completed, handled) && h in inflight
    ensures TokensOk(used + [h], inflight, nextToken, completed + [inflight[h].token], handled)
  {
    assert Tokens(used + [h], inflight) == Tokens(used, inflight) + [inflight[h].token];
  }

  lemma DeviceDoneInv(s: State, s': State, h: nat)
    requires Inv(s) && DeviceDone(s, s', h)
    ensures Inv(s')
  {
    hide DescsOk, PlacesOk, SleepersOk, TokensOk;
    RingsHaveRoom(s);
    WindowPush(s.usedRing, s.last, s.usedIdx, h);
    DonePlaces(Avail(s), s.working, Used(s), s.inflight, h);
    DoneTokens(Used(s), s.inflight, s.nextToken, s.completed, s.handled, h);
  }

  // ---- the interrupt handler ----

  lemma ChainLinks(desc: seq<Desc>, h: nat, r: Req)
    requires ChainOk(desc, h, r)
    ensures IsDescChain(desc, h, ChainSeq(h, r))
  {
    var chain := ChainSeq(h, r);
    assert HasLink(desc, chain, 0) && HasLink(desc, chain, 1) && HasLink(desc, chain, 2);
  }

  lemma RemoveChain(desc: seq<Desc>, inflight: map<nat, Req>, h: nat)
    requires DescsOk(desc, inflight) && h in inflight
    ensures DescsOk(Freed(desc, ChainSeq(h, inflight[h])), inflight - {h})
  {
    hide ChainsOk, ChainsDisjoint, Accounted, Freed, FreeSet, ChainSeq, ChainOk;
    var r := inflight[h];
    var desc' := Freed(desc, ChainSeq(h, r));
    assert ChainOk(desc, h, r) by { ChainsOkAt(desc, inflight, h); }
    FreedThree(desc, h, r);
    RemoveChainsOk(desc, desc', inflight, h);
    RemoveOthers(desc, desc', inflight, h);
    RemoveCount(desc, desc', h, r);
  }

  lemma ChainsOkAt(desc: seq<Desc>, inflight: map<nat, Req>, h: nat)
    requires ChainsOk(desc, inflight) && h in inflight
    ensures ChainOk(desc, h, inflight[h])
  {
  }

  lemma RemoveCount(desc: seq<Desc>, desc': seq<Desc>, h: nat, r: Req)
    requires ChainOk(desc, h, r) && |desc'| == |desc|
    requires forall i: nat :: i < |desc| ==> desc'[i] == if Member(h, r, i) then desc[i].(addr := 0) else desc[i]
    ensures |FreeSet(desc')| == |FreeSet(desc)| + 3
  {
    assert FreeSet(desc') == FreeSet(desc) + {h, r.d1, r.d2};
    assert FreeSet(desc) !! {h, r.d1, r.d2} && |{h, r.d1, r.d2}| == 3;
  }

  lemma InChainSeq(h: nat, r: Req, i: nat)
    ensures i in ChainSeq(h, r) <==> Member(h, r, i)
  {
    var chain := ChainSeq(h, r);
    assert chain[0] == h && chain[1] == r.d1 && chain[2] == r.d2;
  }

  lemma FreedThree(desc: seq<Desc>, h: nat, r: Req)
    ensures |Freed(desc, ChainSeq(h, r))| == |desc|
    ensures forall i: nat :: i < |desc| ==>
      Freed(desc, ChainSeq(h, r))[i] == if Member(h, r, i) then desc[i].(addr := 0) else desc[i]
  {
    hide ChainSeq, Freed;
    forall i: nat | i < |desc| ensures i in ChainSeq(h, r) <==> Member(h, r, i) {
      InChainSeq(h, r, i);
    }
  }

  lemma RemoveChainsOk(desc: seq<Desc>, desc': seq<Desc>, inflight: map<nat, Req>, h: nat)
    requires ChainsOk(desc, inflight) && ChainsDisjoint(inflight) && h in inflight
    requires OnlyChain(desc, desc', h, inflight[h])
    ensures ChainsOk(desc', inflight - {h})
  {
    forall g | g in inflight && g != h ensures ChainOk(desc', g, inflight[g]) {
      var q := inflight[g];
      assert ChainOk(desc, g, q);
      assert Owns(inflight, g, g) && Owns(inflight, g, q.d1) && Owns(inflight, g, q.d2);
      assert !Owns(inflight, h, g) && !Owns(inflight, h, q.d1) && !Owns(inflight, h, q.d2);
    }
  }

  lemma RemoveOthers(desc: seq<Desc>, desc': seq<Desc>, inflight: map<nat, Req>, h: nat)
    requires ChainsDisjoint(inflight) && Accounted(desc, inflight) && h in inflight && |desc'| == |desc|
    requires forall i: nat :: i < |desc| ==>
      desc'[i] == if Member(h, inflight[h], i) then desc[i].(addr := 0) else desc[i]
    ensures ChainsDisjoint(inflight - {h}) && Accounted(desc', inflight - {h})
  {
    var inflight' := inflight - {h};
    forall f: nat, g: nat, i: nat | Owns(inflight', f, i) && Owns(inflight', g, i) ensures f == g {
      assert Owns(inflight, f, i) && Owns(inflight, g, i);
    }
    forall i: nat | i < |desc'| && !IsFree(desc'[i]) ensures Owned(inflight', i) {
      assert Owned(inflight, i);
      var g: nat :| Owns(inflight, g, i);
      assert Owns(inflight', g, i);
    }
  }

  lemma IntrPlaces(avail: seq<nat>, working: set<nat>, used: seq<nat>, inflight: map<nat, Req>)
    requires PlacesOk(avail, working, used, inflight) && used != []
    ensures used[0] in inflight
    ensures PlacesOk(avail, working, used[1..], inflight - {used[0]})
  {
    var h := used[0];
    assert h in used;
    assert used == [h] + used[1..];
    assert h !in used[1..];
  }

  /** Waking the buffer's sleeper wakes exactly the process whose request is done. */
  lemma IntrSleepers(asleep: map<nat, nat>, inflight: map<nat, Req>, h: nat)
    requires SleepersOk(asleep, inflight) && h in inflight
    ensures SleepersOk(Unwoken(asleep, inflight[h].call.buf), inflight - {h})
    ensures Unwoken(asleep, inflight[h].call.buf).Keys == asleep.Keys - {inflight[h].call.proc}
  {
    var asleep' := Unwoken(asleep, inflight[h].call.buf);
    forall p | p in asleep ensures p in asleep' <==> p != inflight[h].call.proc {
      var g := SleeperOf(asleep, inflight, h, p);
    }
    StillAsleep(asleep, asleep', inflight, h);
  }

  lemma StillAsleep(asleep: map<nat, nat>, asleep': map<nat, nat>, inflight: map<nat, Req>, h: nat)
    requires SleepersOk(asleep, inflight) && h in inflight
    requires forall p :: p in asleep' <==> p in asleep && p != inflight[h].call.proc
    requires forall p :: p in asleep' ==> asleep'[p] == asleep[p]
    ensures SleepersOk(asleep', inflight - {h})
  {
    var inflight' := inflight - {h};
    forall p | p in asleep' ensures exists g: nat :: g in inflight' && inflight'[g].call.proc == p {
      var g := SleeperOf(asleep, inflight, h, p);
      assert g in inflight';
    }
  }

  lemma SleeperOf(asleep: map<nat, nat>, inflight: map<nat, Req>, h: nat, p: nat) returns (g: nat)
    requires SleepersOk(asleep, inflight) && h in inflight && p in asleep
    ensures g in inflight && inflight[g].call.proc == p && asleep[p] == inflight[g].call.buf
    ensures g == h <==> p == inflight[h].call.proc
    ensures g == h <==> asleep[p] == inflight[h].call.buf
  {
    g :| g in inflight && inflight[g].call.proc == p;
  }

  lemma IntrTokens(used: seq<nat>, inflight: map<nat, Req>, nextToken: nat, completed: seq<nat>, handled: seq<nat>)
    requires TokensOk(used, inflight, nextToken, completed, handled) && used != [] && NoDup(used)
    ensures TokensOk(used[1..], inflight - {used[0]}, nextToken, completed, handled + [inflight[used[0]].token])
  {
    var h := used[0];
    var inflight' := inflight - {h};
    assert Tokens(used, inflight) == [inflight[h].token] + Tokens(used[1..], inflight');
    assert handled + ([inflight[h].token] + Tokens(used[1..], inflight')) ==
           (handled + [inflight[h].token]) + Tokens(used[1..], inflight');
  }

  lemma InflightChain(s: State, h: nat)
    requires Inv(s) && h in s.inflight
    ensures ChainOk(s.desc, h, s.inflight[h]) && NoDup(Used(s)) && s.inflight[h].call.buf != 0
  {
    hide Accounted, ChainsDisjoint, TokensOk;
  }

  lemma InterruptInv(s: State, s': State, h: nat)
    requires Inv(s) && Interrupt(s, s', h)
    ensures Inv(s')
  {
    hide DescsOk, PlacesOk, SleepersOk, TokensOk, Freed, IsDescChain, NoDup, ChainSeq;
    InflightChain(s, h);
    WindowPop(s.usedRing, s.last, s.usedIdx);
    assert Used(s)[0] == h && Used(s)[1..] == Used(s');
    RemoveChain(s.desc, s.inflight, h);
    IntrPlaces(Avail(s), s.working, Used(s), s.inflight);
    IntrSleepers(s.asleep, s.inflight, h);
    IntrTokens(Used(s), s.inflight, s.nextToken, s.completed, s.handled);
  }

  lemma NextInv(s: State, s': State)
    requires Inv(s) && Next(s, s')
    ensures Inv(s')
  {
    hide Inv, Request, DeviceTake, DeviceDone, Interrupt;
    if c :| Request(s, s', c) {
      RequestInv(s, s', c);
    } else if DeviceTake(s, s') {
      DeviceTakeInv(s, s');
    } else if h :| DeviceDone(s, s', h) {
      DeviceDoneInv(s, s', h);
    } else {
      var h :| Interrupt(s, s', h);
      InterruptInv(s, s', h);
    }
  }

  ghost predicate IsRun(run: seq<State>) {
    run != [] && Init(run[0]) && forall i :: 0 <= i < |run| - 1 ==> Next(run[i], run[i + 1])
  }

  /** The state after the first request on a fresh queue. */
  ghost predicate Asked(s: State, d0: nat, r: Req) {
    && Inv(s) && 0 < |s.availRing| && 0 < |s.usedRing|
    && s.devIdx == s.usedIdx == s.last == 0 && s.availIdx == 1 && s.availRing[0] == d0 && s.working == {}
    && s.inflight == map[d0 := r] && r.token == 0 && s.asleep == map[r.call.proc := r.call.buf]
    && s.completed == [] && s.handled == []
  }

  lemma FirstRequest(s: State, c: Call) returns (s1: State, d0: nat, r: Req)
    requires Init(s) && |s.desc| >= 3 && c.header != 0 && c.buf != 0 && c.status != 0
    ensures Next(s, s1) && Asked(s1, d0, r) && r.call.proc == c.proc && r.call.buf == c.buf
  {
    hide RingSize, AllocRun, Inv, DeviceTake, DeviceDone, Interrupt;
    InitInv(s);
    AllFree(s.desc);
    AllocSucceeds(s.desc, 3);
    AllocTakes(s.desc, 3);
    var a := AllocRun(s.desc, 3);
    d0 := a.ids[0];
    r := Req(a.ids[1], a.ids[2], c, 0);
    s1 := s.(desc := FillRequest(a.desc, d0, r.d1, r.d2, c),
             availRing := s.availRing[0 := d0], availIdx := 1, asleep := map[c.proc := c.buf],
             inflight := map[d0 := r], nextToken := 1);
    assert Request(s, s1, c);
    RequestInv(s, s1, c);
  }

  lemma Served(s1: State, d0: nat, r: Req) returns (s2: State, s3: State)
    requires Asked(s1, d0, r)
    ensures Next(s1, s2) && Next(s2, s3) && Inv(s3)
    ensures s3 == s1.(devIdx := 1, usedRing := s1.usedRing[0 := d0], usedIdx := 1, completed := [0])
  {
    hide Inv, Request, Interrupt;
    s2 := s1.(working := {d0}, devIdx := 1);
    assert DeviceTake(s1, s2);
    DeviceTakeInv(s1, s2);
    s3 := s2.(working := {}, usedRing := s1.usedRing[0 := d0], usedIdx := 1, completed := [0]);
    assert DeviceDone(s2, s3, d0);
    DeviceDoneInv(s2, s3, d0);
  }

  lemma Handled(s3: State, d0: nat, r: Req) returns (s4: State)
    requires Inv(s3) && s3.last == 0 && s3.usedIdx == 1 && 0 < |s3.usedRing| && s3.usedRing[0] == d0
    requires s3.inflight == map[d0 := r] && r.token == 0 && s3.asleep == map[r.call.proc := r.call.buf]
    requires s3.handled == []
    ensures Next(s3, s4) && s4.asleep == map[] && s4.handled == [0]
  {
    hide Inv, Request, DeviceTake, DeviceDone;
    InflightChain(s3, d0);
    ChainLinks(s3.desc, d0, r);
    assert d0 < |s3.desc| && HasNext(s3.desc[d0]) && s3.desc[d0].next == r.d1 < |s3.desc|;
    assert s3.desc[r.d1].addr == r.call.buf;
    hide ChainOk, IsDescChain, Freed, ChainSeq;
    s4 := s3.(asleep := Unwoken(s3.asleep, r.call.buf),
              desc := Freed(s3.desc, ChainSeq(d0, r)), last := Succ(s3.last),
              inflight := s3.inflight - {d0}, handled := s3.handled + [r.token]);
    assert Interrupt(s3, s4, d0);
    NobodyElse(s3.asleep, r.call.proc, r.call.buf);
  }

  lemma NobodyElse(asleep: map<nat, nat>, p: nat, b: nat)
    requires asleep == map[p := b]
    ensures Unwoken(asleep, b) == map[]
  {
    forall q | q in asleep ensures asleep[q] == b {
    }
  }

  /** There is a run on a queue of four descriptors in which a process reads a sector and is woken. */
  lemma RunsExist() returns (run: seq<State>)
    ensures IsRun(run) && |run| == 5 && run[1].asleep == map[7 := 2] && run[4].asleep == map[] && run[4].handled == [0]
  {
    hide Next, Inv;
    var desc := seq(4, _ => Desc(0, 0, 0, 0));
    var ring := seq(4, _ => 0);
    var s := State(desc, ring, 0, 0, {}, ring, 0, 0, map[], map[], 0, [], []);
    assert 0x4000 * 4 == INDEX_LIMIT && RingSize(4);
    assert Init(s);
    var s1, d0, r := FirstRequest(s, Call(7, 1, 2, 3, 1, true));
    var s2, s3 := Served(s1, d0, r);
    var s4 := Handled(s3, d0, r);
    run := [s, s1, s2, s3, s4];
  }

  lemma {:induction false} RunInv(run: seq<State>, k: nat)
    requires IsRun(run) && k < |run|
    ensures Inv(run[k])
  {
    hide Inv, Init, Next;
    if k == 0 {
      InitInv(run[0]);
    } else {
      RunInv(run, k - 1);
      assert Next(run[k - 1], run[k - 1 + 1]);
      NextInv(run[k - 1], run[k]);
    }
  }

  // ---- what every run guarantees ----

  /** In-flight chains are disjoint, and free plus three per request is the queue size, however
      often the indices have wrapped. */
  lemma DescriptorsConserved(run: seq<State>, k: nat)
    requires IsRun(run) && k < |run|
    ensures ChainsDisjoint(run[k].inflight)
    ensures |FreeSet(run[k].desc)| + 3 * |run[k].inflight| == |run[k].desc|
  {
    RunInv(run, k);
  }

  /** For every request in flight the device finds, along the links, 16 bytes of header to read, the sectors to store
      into exactly if the call is a read, and a status byte to store into. */
  lemma RequestDescribed(run: seq<State>, k: nat, h: nat)
    requires IsRun(run) && k < |run| && h in run[k].inflight
    ensures var desc, c := run[k].desc, run[k].inflight[h].call;
      && h < |desc| && HasNext(desc[h]) && desc[h].next < |desc|
      && var data := desc[desc[h].next];
         && HasNext(data) && data.next < |desc| && !HasNext(desc[data.next])
         && desc[h].addr == c.header && desc[h].len == 16 && desc[h].flags / F_WRITE % 2 == 0
         && data.addr == c.buf && data.len == 512 * c.count && (data.flags / F_WRITE % 2 == 1 <==> c.read)
         && desc[data.next].addr == c.status && desc[data.next].len == 1 && desc[data.next].flags / F_WRITE % 2 == 1
  {
    RunInv(run, k);
    hide IsRun, RingSize;
    ChainsOkAt(run[k].desc, run[k].inflight, h);
  }

  /** The driver runs out of descriptors exactly when fewer than three are free. */
  lemma OutOfDescriptors(run: seq<State>, k: nat)
    requires IsRun(run) && k < |run|
    ensures AllocRun(run[k].desc, 3).ok <==> 3 * |run[k].inflight| + 3 <= |run[k].desc|
  {
    RunInv(run, k);
    hide AllocRun, FreeSet;
    AllocSucceeds(run[k].desc, 3);
  }

  /** Each request is handled once and in completion order: the handled ones are distinct, are a
      prefix of the completed ones, and with those in flight make up all requests. */
  lemma CompletionsHandledOnce(run: seq<State>, k: nat)
    requires IsRun(run) && k < |run|
    ensures NoDup(run[k].handled) && run[k].handled <= run[k].completed
    ensures forall i :: 0 <= i < |run[k].handled| ==> run[k].handled[i] < run[k].nextToken
    ensures |run[k].handled| + |run[k].inflight| == run[k].nextToken
  {
    RunInv(run, k);
  }

  /** A process sleeps on its buffer only while its own chain is in flight. */
  lemma SleepsOnlyInFlight(run: seq<State>, k: nat, p: nat)
    requires IsRun(run) && k < |run| && p in run[k].asleep
    ensures exists h: nat ::
      h in run[k].inflight && run[k].inflight[h].call.proc == p && run[k].inflight[h].call.buf == run[k].asleep[p]
  {
    RunInv(run, k);
    hide Init;
    var s := run[k];
    assert SleepersOk(s.asleep, s.inflight);
    var h: nat :| h in s.inflight && s.inflight[h].call.proc == p;
    assert s.inflight[h].call.buf == s.asleep[p];
  }

  /** The handler can always act on what the used ring shows: the entry is a chain in flight, and
      acting wakes its process and no other. */
  lemma InterruptReady(run: seq<State>, k: nat, s': State)
    requires IsRun(run) && k < |run| && run[k].last != run[k].usedIdx && |run[k].usedRing| > 0
    ensures var s := run[k];
      var h := s.usedRing[s.last % |s.usedRing|];
      && h in s.inflight && ChainOk(s.desc, h, s.inflight[h])
      && IsDescChain(s.desc, h, ChainSeq(h, s.inflight[h]))
      && (Interrupt(s, s', h) ==> s'.asleep.Keys == s.asleep.Keys - {s.inflight[h].call.proc})
  {
    hide Init, Next, DescsOk, SleepersOk, TokensOk, PlacesOk, ChainSeq, Freed, IsDescChain, ChainOk;
    RunInv(run, k);
    var s := run[k];
    WindowPop(s.usedRing, s.last, s.usedIdx);
    var h := s.usedRing[s.last % |s.usedRing|];
    assert Used(s)[0] == h;
    IntrPlaces(Avail(s), s.working, Used(s), s.inflight);
    InflightChain(s, h);
    ChainLinks(s.desc, h, s.inflight[h]);
    if Interrupt(s, s', h) {
      InterruptWakes(s, s', h);
    }
  }

  lemma InterruptWakes(s: State, s': State, h: nat)
    requires Inv(s) && Interrupt(s, s', h)
    ensures s'.asleep.Keys == s.asleep.Keys - {s.inflight[h].call.proc}
  {
    hide DescsOk, PlacesOk, SleepersOk, TokensOk, Freed, IsDescChain, NoDup, ChainSeq;
    InflightChain(s, h);
    IntrSleepers(s.asleep, s.inflight, h);
  }
}
