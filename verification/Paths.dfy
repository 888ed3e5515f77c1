/** Path strings and the buffers of path components they are split into. */
module Paths {
  const SLOT: nat := 128
  const PGSIZE: nat := 4096
  const NUL: char := '\0'

  type Text = s: string | NUL !in s

  // ---------------------------------------------------------------- what a path denotes

  function SegLen(p: string): (n: nat)
    ensures n <= |p| && (forall k :: 0 <= k < n ==> p[k] != '/') && (n < |p| ==> p[n] == '/')
  {
    if p == "" || p[0] == '/' then 0 else 1 + SegLen(p[1..])
  }

  /** The components of a path: the non-empty stretches between slashes. */
  function Parts(p: string): (r: seq<string>)
    decreases |p|
  {
    if p == "" then []
    else if p[0] == '/' then Parts(p[1..])
    else [p[..SegLen(p)]] + Parts(p[SegLen(p)..])
  }

  function Joined(parts: seq<string>): (r: string) {
    if parts == [] then "" else parts[0] + "/" + Joined(parts[1..])
  }

  function Print(parts: seq<string>): (r: string) {
    "/" + Joined(parts)
  }

  predicate IsPart(s: string) {
    s != "" && '/' !in s && NUL !in s
  }

  predicate AreParts(parts: seq<string>) {
    forall i :: 0 <= i < |parts| ==> IsPart(parts[i])
  }

  lemma {:induction false} PartsAreParts(p: Text)
    ensures AreParts(Parts(p))
    decreases |p|
  {
    if p != "" {
      if p[0] == '/' {
        PartsAreParts(p[1..]);
      } else {
        PartsAreParts(p[SegLen(p)..]);
        assert IsPart(p[..SegLen(p)]);
      }
    }
  }

  lemma {:induction false} SegLenOf(part: string, rest: string)
    requires '/' !in part && (rest == "" || rest[0] == '/')
    ensures SegLen(part + rest) == |part|
  {
    if part != "" {
      assert (part + rest)[1..] == part[1..] + rest;
      SegLenOf(part[1..], rest);
    }
  }

  /** A component, a slash and the rest: the component comes first. */
  lemma PartsCons(part: string, rest: string)
    requires IsPart(part)
    ensures Parts(part + "/" + rest) == [part] + Parts(rest)
  {
    var p := part + "/" + rest;
    assert p == part + ("/" + rest);
    SegLenOf(part, "/" + rest);
    assert p[..|part|] == part && p[|part|..] == "/" + rest && ("/" + rest)[1..] == rest;
  }

  /** Printing components in front of a path puts those components in front of its own. */
  lemma {:induction false} PartsJoined(parts: seq<string>, rest: string)
    requires AreParts(parts)
    ensures Parts(Joined(parts) + rest) == parts + Parts(rest)
  {
    if parts == [] {
      assert Joined(parts) + rest == rest;
    } else {
      assert Joined(parts) + rest == parts[0] + "/" + (Joined(parts[1..]) + rest);
      PartsCons(parts[0], Joined(parts[1..]) + rest);
      PartsJoined(parts[1..], rest);
      assert parts == [parts[0]] + parts[1..];
    }
  }

  /** A relative path printed after the working directory denotes the directory's parts, then its own. */
  lemma AbsoluteDenotes(cwd: seq<string>, rel: string)
    requires AreParts(cwd)
    ensures Parts(Print(cwd) + rel) == cwd + Parts(rel)
  {
    var p := Print(cwd) + rel;
    assert p[0] == '/' && p[1..] == Joined(cwd) + rel;
    PartsJoined(cwd, rel);
  }

  /** Splitting a printed list gives the list back. */
  lemma SplitOfPrint(parts: seq<string>)
    requires AreParts(parts)
    ensures Parts(Print(parts)) == parts
  {
    AbsoluteDenotes(parts, "");
    assert Print(parts) + "" == Print(parts);
  }

  /** Print after split is a normal form: same components, and normalising twice changes nothing. */
  lemma NormalForm(p: Text)
    ensures Parts(Print(Parts(p))) == Parts(p)
    ensures Print(Parts(Print(Parts(p)))) == Print(Parts(p))
  {
    PartsAreParts(p);
    SplitOfPrint(Parts(p));
  }

  // ---------------------------------------------------------------- component buffers

  /** A C string with room to spare in the slot at `at`. */
  ghost predicate HoldsAt(s: seq<char>, at: nat, part: string) {
    && |part| < SLOT && at + SLOT <= |s| && NUL !in part
    && s[at..at + |part|] == part && s[at + |part|] == NUL
  }

  ghost predicate Holds(s: seq<char>, parts: seq<string>) {
    forall i: nat :: i < |parts| ==> HoldsAt(s, i * SLOT, parts[i])
  }

  ghost predicate Fits(parts: seq<string>, size: nat) {
    |parts| * SLOT <= size && forall i :: 0 <= i < |parts| ==> |parts[i]| < SLOT
  }

  function At(p: string, x: nat): (r: char) {
    if x < |p| then p[x] else NUL
  }

  /** `vfs_path_split`, into a buffer with room for all components. */
  method Split(path: Text, buf: array<char>) returns (count: nat)
    requires Fits(Parts(path), buf.Length)
    modifies buf
    ensures count == |Parts(path)| && Holds(buf[..], Parts(path))
    ensures forall k :: count * SLOT <= k < buf.Length ==> buf[k] == old(buf[k])
  {
    hide Parts, Holds, HoldsAt;
    HoldsNothing(buf[..]);
    count := 0;
    var x := 0;
    ghost var done: seq<string> := [];
    assert path[0..] == path;
    while At(path, x) != NUL
      invariant x <= |path| && Parts(path) == done + Parts(path[x..])
      invariant count == |done| && Holds(buf[..], done)
      invariant forall k :: count * SLOT <= k < buf.Length ==> buf[k] == old(buf[k])
      decreases |path| - x
    {
      ghost var rest := path[x..];
      var y := x;
      while At(path, y) != '/' && At(path, y) != NUL
        invariant x <= y <= |path| && forall k :: x <= k < y ==> path[k] != '/'
        decreases |path| - y
      {
        y := y + 1;
      }
      PartsStep(rest, y - x);
      NoParts();
      if y == x {
        x := y + 1;
        continue;
      }
      assert Parts(path)[|done|] == rest[..y - x] == path[x..y];
      ghost var before := buf[..];
      Store(buf, count, path[x..y]);
      HoldsMore(before, buf[..], done, rest[..y - x]);
      done := done + [rest[..y - x]];
      count := count + 1;
      if At(path, y) == NUL {
        x := y;
        break;
      }
      x := y + 1;
    }
    assert path[x..] == "";
    NoParts();
    assert Parts(path) == done;
  }

  lemma HoldsMore(s: seq<char>, s': seq<char>, done: seq<string>, part: string)
    requires Holds(s, done) && |s'| == |s| && HoldsAt(s', |done| * SLOT, part)
    requires forall k :: 0 <= k < |done| * SLOT ==> s'[k] == s[k]
    ensures Holds(s', done + [part])
  {
    forall i: nat | i < |done| ensures HoldsAt(s', i * SLOT, done[i]) {
      assert HoldsAt(s, i * SLOT, done[i]);
      assert (i + 1) * SLOT <= |done| * SLOT;
      assert s'[i * SLOT..i * SLOT + |done[i]|] == s[i * SLOT..i * SLOT + |done[i]|];
    }
  }

  lemma HoldsNothing(s: seq<char>)
    ensures Holds(s, [])
  {
  }

  lemma NoParts()
    ensures Parts("") == []
  {
  }

  lemma PartsStep(p: string, n: nat)
    requires n <= |p| && p != "" && (forall k :: 0 <= k < n ==> p[k] != '/') && (n < |p| ==> p[n] == '/')
    ensures n == 0 ==> Parts(p) == Parts(p[1..])
    ensures n > 0 ==> Parts(p) == [p[..n]] + Parts(if n < |p| then p[n + 1..] else "")
  {
    assert SegLen(p) == n;
    assert n < |p| ==> p[n..][1..] == p[n + 1..];
  }

  /** `strncpy` of one component into its slot, and its NUL. */
  method Store(buf: array<char>, count: nat, part: string)
    requires |part| < SLOT && (count + 1) * SLOT <= buf.Length && NUL !in part
    modifies buf
    ensures HoldsAt(buf[..], count * SLOT, part)
    ensures forall k :: 0 <= k < buf.Length && (k < count * SLOT || (count + 1) * SLOT <= k) ==> buf[k] == old(buf[k])
  {
    for k := 0 to |part|
      invariant forall j :: 0 <= j < k ==> buf[count * SLOT + j] == part[j]
      invariant forall j :: 0 <= j < buf.Length && (j < count * SLOT || (count + 1) * SLOT <= j) ==>
        buf[j] == old(buf[j])
    {
      buf[count * SLOT + k] := part[k];
    }
    buf[count * SLOT + |part|] := NUL;
    assert buf[count * SLOT..count * SLOT + |part|] == part;
    assert buf[..][count * SLOT..count * SLOT + |part|] == part;
  }

  /** `safestrcpy(out + at, src + from, 128)` of a component, `strlen` of it as the result. */
  method CopyString(out: array<char>, at: nat, src: array<char>, from: nat, ghost part: string) returns (n: nat)
    requires out != src && HoldsAt(src[..], from, part) && at + |part| + 2 <= out.Length
    modifies out
    ensures n == |part| && out[at..at + n] == part && out[at + n] == NUL
    ensures forall k :: 0 <= k < at ==> out[k] == old(out[k])
  {
    assert src[from..from + |part|] == part;
    assert forall k: nat :: k < |part| ==> part[k] in part && part[k] == src[from..from + |part|][k];
    n := 0;
    var left := SLOT - 1;
    while left > 0 && src[from + n] != NUL
      invariant 0 <= n <= |part| && left == SLOT - 1 - n && (src[from + n] == NUL <==> n == |part|)
      invariant forall k: nat :: k < n ==> out[at + k] == part[k]
      invariant forall k :: 0 <= k < at ==> out[k] == old(out[k])
      decreases left
    {
      out[at + n] := src[from + n];
      n, left := n + 1, left - 1;
      assert n < |part| ==> part[n] == src[from + n];
    }
    if left > 0 {
      out[at + n] := NUL;
      out[at + n + 1] := NUL;
    } else {
      out[at + n] := NUL;
    }
    assert out[at..at + n] == part;
  }

  /** `vfs_path_tostring`. */
  method ToString(parts: nat, pathbuf: array<char>, out: array<char>, ghost ps: seq<string>)
    requires out != pathbuf && |ps| == parts && Holds(pathbuf[..], ps) && |Print(ps)| < out.Length
    modifies out
    ensures out[..|Print(ps)|] == Print(ps) && out[|Print(ps)|] == NUL
  {
    var next := 1;
    out[0] := '/';
    assert ps[..0] == [] && ps[..parts] == ps;
    for i := 0 to parts
      invariant next == |Print(ps[..i])| && next < out.Length && out[..next] == Print(ps[..i])
    {
      PrintSnoc(ps, i);
      PrintGrows(ps, i + 1);
      assert HoldsAt(pathbuf[..], i * SLOT, ps[i]);
      hide Print, Holds, HoldsAt;
      ghost var before := out[..next];
      var n := CopyString(out, next, pathbuf, i * SLOT, ps[i]);
      next := next + n;
      out[next] := '/';
      next := next + 1;
      assert out[..next] == before + ps[i] + "/";
    }
    out[next] := NUL;
  }

  lemma {:induction false} JoinedSnoc(parts: seq<string>, part: string)
    ensures Joined(parts + [part]) == Joined(parts) + part + "/"
  {
    if parts == [] {
      assert Joined([part]) == part + "/" + Joined([]);
    } else {
      JoinedSnoc(parts[1..], part);
      assert (parts + [part])[1..] == parts[1..] + [part];
    }
  }

  lemma PrintSnoc(ps: seq<string>, i: nat)
    requires i < |ps|
    ensures Print(ps[..i + 1]) == Print(ps[..i]) + ps[i] + "/"
  {
    JoinedSnoc(ps[..i], ps[i]);
    assert ps[..i + 1] == ps[..i] + [ps[i]];
  }

  lemma {:induction false} PrintGrows(ps: seq<string>, i: nat)
    requires i <= |ps|
    ensures |Print(ps[..i])| <= |Print(ps)|
    decreases |ps| - i
  {
    if i < |ps| {
      PrintSnoc(ps, i);
      PrintGrows(ps, i + 1);
    } else {
      assert ps[..i] == ps;
    }
  }

  /** `strncmp(a + at, b + at, 128) == 0` of two component slots. */
  method SameString(a: array<char>, b: array<char>, at: nat, ghost p: string, ghost q: string) returns (same: bool)
    requires HoldsAt(a[..], at, p) && HoldsAt(b[..], at, q)
    ensures same <==> p == q
  {
    assert forall k: nat :: k < |p| ==> a[at + k] == a[..][at..at + |p|][k] && p[k] in p;
    assert forall k: nat :: k < |q| ==> b[at + k] == b[..][at..at + |q|][k] && q[k] in q;
    var n := 0;
    while n < SLOT && a[at + n] != NUL && a[at + n] == b[at + n]
      invariant 0 <= n <= |p| && n <= |q| && p[..n] == q[..n]
      decreases SLOT - n
    {
      n := n + 1;
    }
    same := n == SLOT || a[at + n] == b[at + n];
    assert same ==> n == |p| == |q| && p[..n] == p && q[..n] == q;
  }

  /** `vfs_path_compare`: equal exactly when the component lists are. */
  method Compare(n: nat, a: array<char>, m: nat, b: array<char>, ghost ps: seq<string>, ghost qs: seq<string>)
    returns (same: bool)
    requires |ps| == n && Holds(a[..], ps) && |qs| == m && Holds(b[..], qs)
    ensures same <==> ps == qs
  {
    if n != m {
      return false;
    }
    for i := 0 to n
      invariant ps[..i] == qs[..i]
    {
      var eq := SameString(a, b, i * SLOT, ps[i], qs[i]);
      if !eq {
        return false;
      }
    }
    assert ps[..n] == ps && qs[..n] == qs;
    same := true;
  }

  /** `vfs_get_absolute_path`: a fresh page holding the working directory's components, then the path's own. */
  method GetAbsolute(cwd: nat, cwdbuf: array<char>, parts: nat, pathbuf: array<char>,
                     ghost cs: seq<string>, ghost ps: seq<string>)
    returns (count: nat, newpath: array<char>)
    requires |cs| == cwd && Holds(cwdbuf[..], cs) && |ps| == parts && Holds(pathbuf[..], ps)
    requires (cwd + parts) * SLOT <= PGSIZE
    ensures fresh(newpath) && newpath.Length == PGSIZE
    ensures count == cwd + parts && Holds(newpath[..], cs + ps)
  {
    newpath := new char[PGSIZE];
    MoveSlots(newpath, 0, cwdbuf, cwd, cs);
    ghost var first := newpath[..];
    MoveSlots(newpath, cwd, pathbuf, parts, ps);
    count := parts + cwd;
    forall i: nat | i < count ensures HoldsAt(newpath[..], i * SLOT, (cs + ps)[i]) {
      if i < cwd {
        assert HoldsAt(first, (0 + i) * SLOT, cs[i]) && (i + 1) * SLOT <= cwd * SLOT;
        assert newpath[..][i * SLOT..i * SLOT + SLOT] == first[i * SLOT..i * SLOT + SLOT];
        SlotMoved(first, newpath[..], i * SLOT, i * SLOT, cs[i]);
      } else {
        assert HoldsAt(newpath[..], (cwd + (i - cwd)) * SLOT, ps[i - cwd]);
      }
    }
  }

  /** `memmove` of whole components to slot `at` on. */
  method MoveSlots(dst: array<char>, at: nat, src: array<char>, n: nat, ghost parts: seq<string>)
    requires dst != src && |parts| == n && Holds(src[..], parts) && (at + n) * SLOT <= dst.Length
    modifies dst
    ensures forall i: nat :: i < n ==> HoldsAt(dst[..], (at + i) * SLOT, parts[i])
    ensures forall k :: 0 <= k < at * SLOT ==> dst[k] == old(dst[k])
  {
    HoldsRoom(src[..], parts);
    forall k | 0 <= k < n * SLOT {
      dst[at * SLOT + k] := src[k];
    }
    forall i: nat | i < n ensures HoldsAt(dst[..], (at + i) * SLOT, parts[i]) {
      assert HoldsAt(src[..], i * SLOT, parts[i]) && (i + 1) * SLOT <= n * SLOT;
      assert dst[..][(at + i) * SLOT..(at + i) * SLOT + SLOT] == src[..][i * SLOT..i * SLOT + SLOT];
      SlotMoved(src[..], dst[..], i * SLOT, (at + i) * SLOT, parts[i]);
    }
  }

  lemma HoldsRoom(s: seq<char>, parts: seq<string>)
    requires Holds(s, parts)
    ensures |parts| * SLOT <= |s|
  {
    assert parts != [] ==> HoldsAt(s, (|parts| - 1) * SLOT, parts[|parts| - 1]);
  }

  lemma SlotMoved(s: seq<char>, s': seq<char>, at: nat, at': nat, part: string)
    requires HoldsAt(s, at, part) && at' + SLOT <= |s'| && s'[at'..at' + SLOT] == s[at..at + SLOT]
    ensures HoldsAt(s', at', part)
  {
    var slot := s[at..at + SLOT];
    assert s'[at'..at' + |part|] == slot[..|part|] == s[at..at + |part|];
    assert s'[at' + |part|] == slot[|part|] == s[at + |part|];
  }
}
