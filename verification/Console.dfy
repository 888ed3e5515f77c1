/** The console's line discipline: one ring of input with three 32-bit indices that wrap. */
module Console {
  import opened Bytes

  const SIZE: nat := 128
  const WRAP: nat := 0x1_0000_0000

  const NEWLINE: byte := 10
  const RETURN: byte := 13
  const END_OF_FILE: byte := 4      // ^D
  const KILL: byte := 21            // ^U
  const ERASE: byte := 8            // ^H
  const DELETE: byte := 127

  // ---------------------------------------------------------------- the line discipline on values

  /** What the ring stands for: bytes ready to be read, then the line still being edited. */
  datatype Line = Line(ready: seq<byte>, edit: seq<byte>)

  predicate Commits(c: byte) {
    c == NEWLINE || c == END_OF_FILE
  }

  /** An edit line holds no byte that would have committed it, and a full ring is always committed. */
  ghost predicate LineOk(l: Line) {
    && |l.ready| + |l.edit| <= SIZE
    && (forall k :: 0 <= k < |l.edit| ==> !Commits(l.edit[k]))
    && (|l.ready| + |l.edit| == SIZE ==> l.edit == [])
  }

  function Key(l: Line, c: byte): (r: Line) {
    if c == KILL then l.(edit := [])
    else if c == ERASE || c == DELETE then l.(edit := if l.edit == [] then [] else l.edit[..|l.edit| - 1])
    else if c == 0 || |l.ready| + |l.edit| >= SIZE then l
    else Typed(l, if c == RETURN then NEWLINE else c)
  }

  function Typed(l: Line, c: byte): (r: Line) {
    var edit := l.edit + [c];
    if Commits(c) || |l.ready| + |edit| == SIZE then Line(l.ready + edit, []) else Line(l.ready, edit)
  }

  function Keys(l: Line, cs: seq<byte>): (r: Line) {
    if cs == [] then l else Key(Keys(l, cs[..|cs| - 1]), cs[|cs| - 1])
  }

  /** No keystroke touches a committed byte; a keystroke keeps the line in order. */
  lemma KeyKeeps(l: Line, c: byte)
    requires LineOk(l)
    ensures LineOk(Key(l, c)) && l.ready <= Key(l, c).ready
  {
  }

  lemma {:induction false} KeysKeep(l: Line, cs: seq<byte>)
    requires LineOk(l)
    ensures LineOk(Keys(l, cs)) && l.ready <= Keys(l, cs).ready
  {
    if cs != [] {
      KeysKeep(l, cs[..|cs| - 1]);
      KeyKeeps(Keys(l, cs[..|cs| - 1]), cs[|cs| - 1]);
    }
  }

  // ---------------------------------------------------------------- what keystrokes do together

  /** A byte that only joins the line being edited. */
  predicate Ordinary(c: byte) {
    c != 0 && !Commits(c) && c != RETURN && c != KILL && c != ERASE && c != DELETE
  }

  lemma KeysSnoc(l: Line, cs: seq<byte>, c: byte)
    ensures Keys(l, cs + [c]) == Key(Keys(l, cs), c)
  {
    assert (cs + [c])[..|cs|] == cs;
  }

  /** After any keys, ^U leaves an empty edit line and the committed bytes as they were. */
  lemma KillClears(l: Line, cs: seq<byte>)
    ensures Keys(l, cs + [KILL]) == Line(Keys(l, cs).ready, [])
  {
    KeysSnoc(l, cs, KILL);
  }

  /** Erase and delete undo the last ordinary key that found room and did not fill the ring. */
  lemma EraseUndoes(l: Line, cs: seq<byte>, c: byte, erase: byte)
    requires Ordinary(c) && (erase == ERASE || erase == DELETE)
    requires |Keys(l, cs).ready| + |Keys(l, cs).edit| + 1 < SIZE
    ensures Keys(l, cs + [c] + [erase]) == Keys(l, cs)
  {
    KeysSnoc(l, cs, c);
    KeysSnoc(l, cs + [c], erase);
    var edit := Keys(l, cs).edit;
    assert (edit + [c])[..|edit|] == edit;
  }

  /** On an empty edit line they do nothing. */
  lemma EraseStops(l: Line, cs: seq<byte>, erase: byte)
    requires Keys(l, cs).edit == [] && (erase == ERASE || erase == DELETE)
    ensures Keys(l, cs + [erase]) == Keys(l, cs)
  {
    KeysSnoc(l, cs, erase);
  }

  /** Ordinary bytes on an empty edit line collect there. */
  lemma {:induction false} OrdinaryCollects(l: Line, cs: seq<byte>)
    requires l.edit == [] && |l.ready| + |cs| < SIZE && forall k :: 0 <= k < |cs| ==> Ordinary(cs[k])
    ensures Keys(l, cs) == Line(l.ready, cs)
  {
    if cs != [] {
      var n := |cs| - 1;
      OrdinaryCollects(l, cs[..n]);
      KeysSnoc(l, cs[..n], cs[n]);
      assert cs == cs[..n] + [cs[n]];
    }
  }

  /** Ordinary bytes and then return, newline or ^D commit exactly those bytes and a newline or the ^D. */
  lemma LineCommitted(l: Line, cs: seq<byte>, c: byte)
    requires l.edit == [] && |l.ready| + |cs| < SIZE && forall k :: 0 <= k < |cs| ==> Ordinary(cs[k])
    requires c == RETURN || Commits(c)
    ensures Keys(l, cs + [c]) == Line(l.ready + cs + [if c == END_OF_FILE then END_OF_FILE else NEWLINE], [])
  {
    OrdinaryCollects(l, cs);
    KeysSnoc(l, cs, c);
    var last: byte := if c == RETURN then NEWLINE else c;
    assert l.ready + (cs + [last]) == l.ready + cs + [last];
  }

  /** The byte that fills the ring commits the line. */
  lemma FillingCommits(l: Line, cs: seq<byte>, c: byte)
    requires l.edit == [] && |l.ready| + |cs| + 1 == SIZE && forall k :: 0 <= k < |cs| ==> Ordinary(cs[k])
    requires Ordinary(c)
    ensures Keys(l, cs + [c]) == Line(l.ready + cs + [c], [])
  {
    OrdinaryCollects(l, cs);
    KeysSnoc(l, cs, c);
    assert l.ready + (cs + [c]) == l.ready + cs + [c];
  }

  /** A full ring takes nothing. */
  lemma {:induction false} FullTakesNothing(l: Line, cs: seq<byte>)
    requires l.edit == [] && |l.ready| == SIZE
    ensures Keys(l, cs) == l
  {
    if cs != [] {
      FullTakesNothing(l, cs[..|cs| - 1]);
    }
  }

  // ---------------------------------------------------------------- the ring

  function Plus(i: nat, n: nat): (r: nat) { (i + n) % WRAP }

  function Minus(i: nat, n: nat): (r: nat)
    requires n <= WRAP
  {
    (i + WRAP - n) % WRAP
  }

  /** How a read ends: with a count, not yet, or with -1. */
  datatype End = Counted | Asleep | Killed

  class Input {
    const buf: array<byte>
    var r: nat
    var w: nat
    var e: nat
    ghost var line: Line
    ghost var taken: seq<byte>    // every byte read so far
    ghost var given: seq<byte>    // every byte committed so far

    ghost predicate Valid()
      reads this, buf
    {
      && buf.Length == SIZE && r < WRAP && LineOk(line)
      && w == Plus(r, |line.ready|) && e == Plus(r, |line.ready| + |line.edit|)
      && Holds(line.ready + line.edit)
      && given == taken + line.ready
    }

    /** The ring holds `s` from the read index on. */
    ghost predicate Holds(s: seq<byte>)
      requires buf.Length == SIZE
      reads this, buf
    {
      forall k: nat :: k < |s| ==> buf[Slot(r, k)] == s[k]
    }

    constructor ()
      ensures Valid() && line == Line([], []) && taken == [] && fresh(buf)
    {
      buf := new byte[SIZE];
      r, w, e := 0, 0, 0;
      line, taken, given := Line([], []), [], [];
    }

    /** The step back that erasing takes. */
    method Erase()
      requires Valid() && e != w
      modifies this`e, this`line
      ensures Valid() && old(line.edit) != [] && line == old(line).(edit := old(line.edit)[..|old(line.edit)| - 1])
    {
      hide Plus, Minus, Slot;
      ghost var n := |line.ready| + |line.edit| - 1;
      SameIndex(r, |line.ready|, n + 1);
      StepBack(r, n);
      e := Minus(e, 1);
      line := line.(edit := line.edit[..|line.edit| - 1]);
    }

    /** The default case of `consoleintr`: a byte enters the ring if there is room. */
    method Type(c: byte)
      requires Valid() && c != 0
      modifies this`w, this`e, this`line, this`given, buf
      ensures Valid() && line == if |old(line.ready)| + |old(line.edit)| >= SIZE then old(line) else Typed(old(line), c)
    {
      hide Plus, Minus, Slot;
      ghost var l := line;
      ghost var n := |l.ready| + |l.edit|;
      StepForth(r, n);
      SameIndex(r, n + 1, SIZE);
      if Minus(e, r) < SIZE {
        ghost var s := l.ready + l.edit;
        forall k: nat | k < n ensures Slot(r, k) != Slot(r, n) {
          SlotsDiffer(r, k, n);
        }
        buf[e % SIZE] := c;
        e := Plus(e, 1);
        if c == NEWLINE || c == END_OF_FILE || e == Plus(r, SIZE) {
          w := e;
        }
        line := Typed(l, c);
        given := taken + line.ready;
        assert line.ready + line.edit == s + [c];
      }
    }

    /** One keystroke in `consoleintr`. */
    method KeyPress(c: byte)
      requires Valid()
      modifies this`w, this`e, this`line, this`given, buf
      ensures Valid() && line == Key(old(line), c)
    {
      if c == KILL {
        while e != w && buf[Minus(e, 1) % SIZE] != NEWLINE
          invariant Valid() && line.ready == old(line.ready) && line.edit <= old(line.edit)
          decreases |line.edit|
        {
          Erase();
        }
        LastOfEdit();
      } else if c == ERASE || c == DELETE {
        SameIndex(r, |line.ready|, |line.ready| + |line.edit|);
        if e != w {
          Erase();
        }
      } else if c != 0 {
        Type(if c == RETURN then NEWLINE else c);
      }
    }

    /** The byte before the edit index is never a newline while there is an edit line. */
    lemma LastOfEdit()
      requires Valid()
      ensures e == w <==> line.edit == []
      ensures e != w ==> buf[Minus(e, 1) % SIZE] != NEWLINE
    {
      hide Plus, Minus, Slot;
      ghost var n := |line.ready| + |line.edit|;
      SameIndex(r, |line.ready|, n);
      if line.edit != [] {
        StepBack(r, n - 1);
        assert (line.ready + line.edit)[n - 1] == line.edit[|line.edit| - 1];
      }
    }

    /** `consoleintr`: every keystroke that is waiting. */
    method ConsoleIntr(cs: seq<byte>)
      requires Valid()
      modifies this`w, this`e, this`line, this`given, buf
      ensures Valid() && line == Keys(old(line), cs) && old(given) <= given
    {
      hide Holds, Key;
      var i := 0;
      while i < |cs|
        invariant 0 <= i <= |cs| && Valid() && line == Keys(old(line), cs[..i])
      {
        assert cs[..i + 1][..i] == cs[..i];
        KeyPress(cs[i]);
        i := i + 1;
      }
      assert cs[..i] == cs;
      KeysKeep(old(line), cs);
    }

    /** `consoleread`, with the keystrokes that arrive while it sleeps; the process is killed after `killed` of those
        sleeps. `Asleep` is a call still waiting; `Killed` returns -1, and the bytes it had copied are gone. */
    method ConsoleRead(n: int, arrivals: seq<seq<byte>>, killed: nat) returns (bytes: seq<byte>, end: End)
      requires Valid()
      modifies this, buf
      ensures Valid() && old(given) <= given
      ensures taken == old(taken) + bytes || (taken == old(taken) + [END_OF_FILE] && bytes == [] && end.Counted?)
      ensures |bytes| <= if n < 0 then 0 else n
      ensures forall k :: 0 <= k < |bytes| ==> bytes[k] != END_OF_FILE
      ensures forall k :: 0 <= k < |bytes| - 1 ==> bytes[k] != NEWLINE
      ensures !end.Counted? ==> line.ready == [] && |bytes| < n && NEWLINE !in bytes
      ensures end.Killed? ==> killed <= |arrivals|
      ensures end.Asleep? ==> killed > |arrivals|
      ensures end.Counted? && |bytes| < n ==>
        EndsLine(bytes) || AtEndOfFile(bytes, line.ready) || taken == old(taken) + [END_OF_FILE]
    {
      hide Valid, Keys;
      bytes, end := [], Counted;
      var left, used := n, 0;
      while left > 0
        invariant Valid() && old(given) <= given && taken == old(taken) + bytes && end.Counted?
        invariant left == n - |bytes| && (left >= 0 || bytes == [])
        invariant used <= |arrivals| && used <= killed
        invariant forall k :: 0 <= k < |bytes| ==> bytes[k] != END_OF_FILE && bytes[k] != NEWLINE
      {
        while r == w
          invariant Valid() && old(given) <= given && taken == old(taken) + bytes
          invariant used <= |arrivals| && used <= killed
          decreases |arrivals| - used
        {
          ReadyOrNot();
          if used == killed {
            end := Killed;
            return;
          }
          if used == |arrivals| {
            end := Asleep;
            return;
          }
          ConsoleIntr(arrivals[used]);
          used := used + 1;
        }
        ReadyOrNot();
        var c := Next(left < n);
        if c == END_OF_FILE {
          break;
        }
        bytes := bytes + [c];
        left := left - 1;
        if c == NEWLINE {
          break;
        }
      }
    }

    lemma ReadyOrNot()
      requires Valid()
      ensures r == w <==> line.ready == []
    {
      hide Plus;
      SameIndex(r, 0, |line.ready|);
      StepForth(r, 0);
    }

    /** The next committed byte; a ^D is put back if `keep` says so. */
    method Next(keep: bool) returns (c: byte)
      requires Valid() && line.ready != []
      modifies this`r, this`line, this`taken
      ensures Valid() && given == old(given) && c == old(line.ready)[0]
      ensures keep && c == END_OF_FILE ==> line == old(line) && taken == old(taken)
      ensures !(keep && c == END_OF_FILE) ==>
        line == Line(old(line.ready)[1..], old(line.edit)) && taken == old(taken) + [c]
    {
      hide Plus, Slot, Minus;
      StepForth(r, 0);
      StepBack(r, 0);
      assert (line.ready + line.edit)[0] == line.ready[0];
      c := buf[r % SIZE];
      r := Plus(r, 1);
      if c == END_OF_FILE && keep {
        r := Minus(r, 1);
        return;
      }
      ghost var l := line;
      line := Line(l.ready[1..], l.edit);
      taken := taken + [c];
      ShiftIndices(old(r), |line.ready|);
      ShiftIndices(old(r), |line.ready| + |line.edit|);
      forall k: nat | k < |line.ready + line.edit| ensures buf[Slot(r, k)] == (line.ready + line.edit)[k] {
        ShiftIndices(old(r), k);
        assert (l.ready + l.edit)[k + 1] == (line.ready + line.edit)[k];
      }
    }
  }

  /** The text ends in a newline. */
  predicate EndsLine(bytes: seq<byte>) {
    bytes != [] && bytes[|bytes| - 1] == NEWLINE
  }

  /** A ^D that ends a non-empty read stays to be read on its own. */
  predicate AtEndOfFile(bytes: seq<byte>, ready: seq<byte>) {
    bytes != [] && ready != [] && ready[0] == END_OF_FILE
  }

  // ---------------------------------------------------------------- index arithmetic

  function Slot(i: nat, k: nat): (s: nat)
    ensures s < SIZE
  {
    (i + k) % SIZE
  }

  lemma SameIndex(i: nat, m: nat, n: nat)
    requires i < WRAP && m < WRAP && n < WRAP
    ensures Plus(i, m) == Plus(i, n) <==> m == n
  {
  }

  lemma StepForth(i: nat, n: nat)
    requires i < WRAP && n < WRAP
    ensures Plus(Plus(i, n), 1) == Plus(i, n + 1) && Minus(Plus(i, n), i) == n
    ensures Plus(i, n) % SIZE == Slot(i, n) && Plus(i, 0) == i
  {
  }

  lemma StepBack(i: nat, n: nat)
    requires i < WRAP && n < WRAP
    ensures Minus(Plus(i, n + 1), 1) == Plus(i, n) && Plus(i, n) % SIZE == Slot(i, n)
  {
  }

  lemma SlotsDiffer(i: nat, j: nat, k: nat)
    requires j < k < SIZE
    ensures Slot(i, j) != Slot(i, k)
  {
  }

  lemma ShiftIndices(i: nat, k: nat)
    requires i < WRAP
    ensures Plus(Plus(i, 1), k) == Plus(i, k + 1) && Slot(Plus(i, 1), k) == Slot(i, k + 1) && Plus(i, 1) < WRAP
  {
    if i + 1 == WRAP {
      assert Plus(i, 1) == 0;
    } else {
      assert Plus(i, 1) == i + 1;
    }
  }
}
