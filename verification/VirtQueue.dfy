/** The descriptor table of a virtqueue: allocating, chaining and freeing descriptors in place. */
module VirtQueue {
  datatype Desc = Desc(addr: nat, len: nat, flags: nat, next: nat)

  const F_NEXT: nat := 1
  const F_WRITE: nat := 2
  const TAKEN: nat := 0xffff_ffff

  predicate HasNext(d: Desc) {
    d.flags % 2 == 1
  }

  /** A descriptor with address 0 is free. */
  predicate IsFree(d: Desc) {
    d.addr == 0
  }

  ghost function FreeSet(desc: seq<Desc>): (s: set<nat>) {
    set i: nat | i < |desc| && IsFree(desc[i])
  }

  /** Index of the first free descriptor, or the table size. */
  function FirstFree(desc: seq<Desc>): (i: nat)
    ensures i <= |desc|
    ensures i < |desc| ==> IsFree(desc[i])
    ensures forall j :: 0 <= j < i ==> !IsFree(desc[j])
  {
    if desc == [] || IsFree(desc[0]) then 0 else 1 + FirstFree(desc[1..])
  }

  datatype Alloc = Alloc(ids: seq<nat>, desc: seq<Desc>, ok: bool)

  function Mark(desc: seq<Desc>, i: nat): (r: seq<Desc>)
    requires i < |desc|
  {
    desc[i := desc[i].(addr := TAKEN)]
  }

  /** What `virtio_alloc_desc` leaves behind: the lowest free descriptors, taken one by one; when it
      runs out, those already taken stay taken. */
  function AllocRun(desc: seq<Desc>, num: nat): (r: Alloc)
    ensures |r.desc| == |desc|
    decreases num
  {
    if num == 0 then Alloc([], desc, true)
    else
      var i := FirstFree(desc);
      if i == |desc| then Alloc([], desc, false)
      else
        var rest := AllocRun(Mark(desc, i), num - 1);
        Alloc([i] + rest.ids, rest.desc, rest.ok)
  }

  /** `virtio_alloc_desc`. */
  method AllocDesc(desc: array<Desc>, num: nat) returns (ids: seq<nat>, ok: bool)
    modifies desc
    ensures Alloc(ids, desc[..], ok) == AllocRun(old(desc[..]), num)
  {
    ids := [];
    var i := 0;
    while i < num
      invariant 0 <= i <= num && |ids| == i
      invariant var rest := AllocRun(desc[..], num - i);
        AllocRun(old(desc[..]), num) == Alloc(ids + rest.ids, rest.desc, rest.ok)
    {
      var j := 0;
      while j < desc.Length && desc[j].addr != 0
        invariant 0 <= j <= desc.Length
        invariant forall k :: 0 <= k < j ==> !IsFree(desc[k])
      {
        j := j + 1;
      }
      FirstFreeIs(desc[..], j);
      if j == desc.Length {
        assert ids + [] == ids;
        return ids, false;
      }
      ghost var before := desc[..];
      desc[j] := desc[j].(addr := TAKEN);
      assert desc[..] == Mark(before, j);
      ghost var rest := AllocRun(desc[..], num - i - 1);
      assert ids + ([j] + rest.ids) == (ids + [j]) + rest.ids;
      ids := ids + [j];
      i := i + 1;
    }
    assert ids + [] == ids;
    ok := true;
  }

  lemma {:induction false} FirstFreeIs(desc: seq<Desc>, j: nat)
    requires j <= |desc| && (forall k :: 0 <= k < j ==> !IsFree(desc[k])) && (j < |desc| ==> IsFree(desc[j]))
    ensures FirstFree(desc) == j
  {
  }

  /** Allocation succeeds exactly if enough descriptors are free. */
  lemma {:induction false} AllocSucceeds(desc: seq<Desc>, num: nat)
    ensures AllocRun(desc, num).ok <==> |FreeSet(desc)| >= num
    ensures AllocRun(desc, num).ok ==> |AllocRun(desc, num).ids| == num
    decreases num
  {
    if num > 0 {
      var i := FirstFree(desc);
      if i == |desc| {
        assert FreeSet(desc) == {};
      } else {
        AllocSucceeds(Mark(desc, i), num - 1);
        assert FreeSet(Mark(desc, i)) == FreeSet(desc) - {i};
      }
    }
  }

  /** It takes distinct free descriptors in increasing order and touches only their addresses. */
  ghost predicate TakesFree(desc: seq<Desc>, r: Alloc) {
    && |r.desc| == |desc|
    && (forall k :: 0 <= k < |r.ids| ==> r.ids[k] < |desc| && IsFree(desc[r.ids[k]]))
    && (forall j, k :: 0 <= j < k < |r.ids| ==> r.ids[j] < r.ids[k])
    && (forall i :: 0 <= i < |desc| ==> r.desc[i] == if i in r.ids then desc[i].(addr := TAKEN) else desc[i])
  }

  lemma {:induction false} AllocTakes(desc: seq<Desc>, num: nat)
    ensures TakesFree(desc, AllocRun(desc, num))
    decreases num
  {
    if num > 0 && FirstFree(desc) < |desc| {
      var i := FirstFree(desc);
      AllocTakes(Mark(desc, i), num - 1);
      TakeOneMore(desc, i, AllocRun(Mark(desc, i), num - 1));
    }
  }

  lemma TakeOneMore(desc: seq<Desc>, i: nat, rest: Alloc)
    requires i < |desc| && IsFree(desc[i]) && (forall j :: 0 <= j < i ==> !IsFree(desc[j]))
    requires TakesFree(Mark(desc, i), rest)
    ensures TakesFree(desc, Alloc([i] + rest.ids, rest.desc, rest.ok))
  {
    forall k | 0 <= k < |rest.ids| ensures i < rest.ids[k] && IsFree(desc[rest.ids[k]]) {
      assert IsFree(Mark(desc, i)[rest.ids[k]]);
    }
  }

  /** `chain` follows the `next` links from `head` to a descriptor without one. */
  ghost predicate IsDescChain(desc: seq<Desc>, head: nat, chain: seq<nat>) {
    && chain != [] && chain[0] == head
    && (forall k :: 0 <= k < |chain| ==> chain[k] < |desc|)
    && (forall k: nat :: k < |chain| ==> HasLink(desc, chain, k))
  }

  ghost predicate HasLink(desc: seq<Desc>, chain: seq<nat>, k: nat)
    requires k < |chain|
  {
    && chain[k] < |desc|
    && if k == |chain| - 1 then !HasNext(desc[chain[k]])
       else HasNext(desc[chain[k]]) && desc[chain[k]].next == chain[k + 1]
  }

  function Freed(desc: seq<Desc>, chain: seq<nat>): (r: seq<Desc>)
    ensures |r| == |desc|
    ensures forall i :: 0 <= i < |desc| ==> r[i] == if i in chain then desc[i].(addr := 0) else desc[i]
  {
    seq(|desc|, i requires 0 <= i < |desc| => if i in chain then desc[i].(addr := 0) else desc[i])
  }

  lemma FreedStep(desc: seq<Desc>, chain: seq<nat>, k: nat)
    requires k < |chain| && chain[k] < |desc|
    ensures var before := Freed(desc, chain[..k]);
      Freed(desc, chain[..k + 1]) == before[chain[k] := before[chain[k]].(addr := 0)]
      && before[chain[k]].flags == desc[chain[k]].flags && before[chain[k]].next == desc[chain[k]].next
  {
    assert chain[..k + 1] == chain[..k] + [chain[k]];
  }

  /** `virtio_free_desc`: every descriptor of the chain becomes free. */
  method FreeDesc(desc: array<Desc>, head: nat, ghost chain: seq<nat>)
    requires IsDescChain(desc[..], head, chain)
    modifies desc
    ensures desc[..] == Freed(old(desc[..]), chain)
  {
    hide Freed;
    var d: int := head;
    ghost var k: nat := 0;
    ghost var desc0 := desc[..];
    assert desc[..] == Freed(desc0, chain[..0]);
    while d != -1
      invariant k <= |chain|
      invariant if k < |chain| then d == chain[k] else d == -1
      invariant desc[..] == Freed(desc0, chain[..k])
      decreases |chain| - k
    {
      assert HasLink(desc0, chain, k);
      FreedStep(desc0, chain, k);
      ghost var before := desc[..];
      desc[d] := desc[d].(addr := 0);
      assert desc[..] == before[d := before[d].(addr := 0)];
      if desc[d].flags % 2 == 1 {
        d := desc[d].next;
      } else {
        d := -1;
      }
      k := k + 1;
    }
    assert chain[..k] == chain;
  }
}
