/** 8.3 names: the 11 space-padded upper-case bytes of a directory entry against the lower-case
    `name.ext` string the rest of the kernel uses. */
module Fat32Names {
  import opened Bytes

  const SPACE: byte := 32
  const DOT: byte := 46
  const DELETED: byte := 0xe5

  type Raw = s: seq<byte> | |s| == 11 witness seq(11, _ => 0)

  /** A string as C code sees it, without its terminator. */
  type CString = s: seq<byte> | 0 !in s

  /** What `strncmp` sees of a buffer: the bytes up to the first zero. */
  function Cut(s: seq<byte>): (r: CString)
    ensures |r| <= |s| && r == s[..|r|] && (|r| < |s| ==> s[|r|] == 0)
  {
    if s == [] || s[0] == 0 then [] else [s[0]] + Cut(s[1..])
  }

  lemma {:induction false} CutWhole(s: seq<byte>)
    requires 0 !in s
    ensures Cut(s) == s
  {
    if s != [] {
      assert s[0] in s && 0 !in s[1..];
      CutWhole(s[1..]);
    }
  }

  function Upper(c: byte): (r: byte) {
    if 97 <= c <= 122 then c - 32 else c
  }

  function Lower(c: byte): (r: byte) {
    if 65 <= c <= 90 then c + 32 else c
  }

  function UpperAll(s: seq<byte>): (r: seq<byte>)
    ensures |r| == |s| && forall i :: 0 <= i < |s| ==> r[i] == Upper(s[i])
  {
    seq(|s|, i requires 0 <= i < |s| => Upper(s[i]))
  }

  function LowerAll(s: seq<byte>): (r: seq<byte>)
    ensures |r| == |s| && forall i :: 0 <= i < |s| ==> r[i] == Lower(s[i])
  {
    seq(|s|, i requires 0 <= i < |s| => Lower(s[i]))
  }

  function Pad(s: seq<byte>, n: nat): (r: seq<byte>)
    requires |s| <= n
    ensures |r| == n && forall i :: 0 <= i < n ==> r[i] == if i < |s| then s[i] else SPACE
  {
    s + seq(n - |s|, _ => SPACE)
  }

  /** Without the blanks at the end. */
  function TrimEnd(s: seq<byte>): (r: seq<byte>)
    ensures |r| <= |s| && r == s[..|r|]
    ensures r != [] ==> r[|r| - 1] != SPACE
    ensures forall i :: |r| <= i < |s| ==> s[i] == SPACE
  {
    if s == [] || s[|s| - 1] != SPACE then s else TrimEnd(s[..|s| - 1])
  }

  /** Up to the first blank. */
  function Word(s: seq<byte>): (r: seq<byte>)
    ensures |r| <= |s| && r == s[..|r|]
    ensures forall i :: 0 <= i < |r| ==> r[i] != SPACE
    ensures |r| < |s| ==> s[|r|] == SPACE
  {
    if s == [] || s[0] == SPACE then [] else [s[0]] + Word(s[1..])
  }

  /** The string a directory entry's name denotes. */
  function FullName(raw: Raw): (r: seq<byte>) {
    var base, ext := TrimEnd(raw[..8]), Word(raw[8..]);
    LowerAll(Joined(base, ext))
  }

  predicate HasBase(raw: Raw) {
    exists i :: 0 <= i < 8 && raw[i] != SPACE
  }

  /** What the driver makes of an entry name, unless it runs off the front of the buffer. */
  datatype Full = RunsOff | Full(name: seq<byte>)

  /** `fat32_get_full_name`, on the caller's buffer. The driver scans down from the eighth byte and
      runs off the front of the buffer exactly if all eight are blank. */
  method GetFullName(raw: Raw, buffer: seq<byte>) returns (r: Full)
    requires |buffer| == 256
    ensures r.RunsOff? <==> !HasBase(raw)
    ensures r.Full? ==> |r.name| < 256 && r.name == FullName(raw)
  {
    hide TrimEnd, Word;
    var buf := LowerAndShift(raw, buffer);
    ghost var base, ext := TrimEnd(raw[..8]), Word(raw[8..]);
    var off := EndOfBase(raw, buf);
    if off < 0 {
      return RunsOff;
    }
    if buf[9] == SPACE {
      assert raw[8..][0] == SPACE;
      return Full(buf[..off + 1]);
    }
    buf := buf[off + 1 := DOT];
    assert raw[8..][0] != SPACE;
    var end;
    buf, end := CopyExtension(raw, buf, off);
    assert buf[..end] == LowerAll(Joined(base, ext));
    r := Full(buf[..end]);
  }

  method LowerCopy(raw: Raw, buffer: seq<byte>) returns (buf: seq<byte>)
    requires |buffer| == 256
    ensures |buf| == 256
    ensures forall j :: 0 <= j < 11 ==> buf[j] == Lower(raw[j])
  {
    buf := Splice(buffer, 0, raw);
    hide Splice;
    var i := 0;
    while i < 11
      invariant 0 <= i <= 11 && |buf| == 256
      invariant forall j :: 0 <= j < i ==> buf[j] == Lower(raw[j])
      invariant forall j :: i <= j < 11 ==> buf[j] == raw[j]
    {
      if buf[i] >= 65 && buf[i] <= 90 {
        buf := buf[i := buf[i] + 32];
      }
      i := i + 1;
    }
  }

  /** The name in lower case, with a gap for the dot before its extension. */
  method LowerAndShift(raw: Raw, buffer: seq<byte>) returns (buf: seq<byte>)
    requires |buffer| == 256
    ensures |buf| == 256
    ensures forall j :: 0 <= j < 8 ==> buf[j] == Lower(raw[j])
    ensures forall j :: 9 <= j < 12 ==> buf[j] == Lower(raw[j - 1])
  {
    buf := LowerCopy(raw, buffer);
    buf := buf[11 := buf[10]];
    buf := buf[10 := buf[9]];
    buf := buf[9 := buf[8]];
  }

  method EndOfBase(raw: Raw, buf: seq<byte>) returns (off: int)
    requires |buf| == 256
    requires forall j :: 0 <= j < 8 ==> buf[j] == Lower(raw[j])
    ensures -1 <= off < 8 && (off < 0 <==> !HasBase(raw))
    ensures off >= 0 ==> off + 1 == |TrimEnd(raw[..8])|
  {
    hide TrimEnd;
    off := 7;
    while off >= 0 && buf[off] == SPACE
      invariant -1 <= off <= 7
      invariant forall j :: off < j < 8 ==> raw[..8][j] == SPACE
      decreases off
    {
      assert raw[..8][off] == SPACE;
      off := off - 1;
    }
    assert forall j :: 0 <= j < 8 ==> raw[..8][j] == raw[j];
    assert off >= 0 ==> raw[..8][off] != SPACE;
  }

  method CopyExtension(raw: Raw, buffer: seq<byte>, off: nat) returns (buf: seq<byte>, end: nat)
    requires |buffer| == 256 && off < 8 && raw[8] != SPACE
    requires forall j :: 9 <= j < 12 && j != off + 1 ==> buffer[j] == Lower(raw[j - 1])
    ensures |buf| == 256 && forall j :: 0 <= j <= off + 1 ==> buf[j] == buffer[j]
    ensures end == off + 2 + |Word(raw[8..])| < 256
    ensures forall j :: 0 <= j < |Word(raw[8..])| ==> buf[off + 2 + j] == Lower(Word(raw[8..])[j])
  {
    hide Word;
    ghost var ext := Word(raw[8..]);
    buf := buffer;
    var i := 2;
    while i < 5
      invariant 2 <= i <= 5 && |buf| == 256 && i - 2 <= |ext|
      invariant forall j :: 0 <= j <= off + 1 ==> buf[j] == buffer[j]
      invariant forall j :: 0 <= j < i - 2 ==> buf[off + 2 + j] == Lower(ext[j])
      invariant forall j :: i + 7 <= j < 12 ==> buf[j] == buffer[j]
    {
      assert buf[i + 7] == Lower(raw[8..][i - 2]);
      if buf[i + 7] == SPACE {
        return buf, off + i;
      }
      buf := buf[off + i := buf[i + 7]];
      i := i + 1;
    }
    end := off + 5;
  }

  /** The part of a string before its first dot. */
  function Base(s: seq<byte>): (r: seq<byte>)
    ensures |r| <= |s| && r == s[..|r|]
    ensures DOT !in r && (|r| < |s| ==> s[|r|] == DOT)
  {
    if s == [] || s[0] == DOT then [] else [s[0]] + Base(s[1..])
  }

  function Ext(s: seq<byte>): (r: seq<byte>) {
    if |Base(s)| == |s| then [] else s[|Base(s)| + 1..]
  }

  predicate NameByte(c: byte) {
    c != 0 && c != SPACE && c != DOT
  }

  predicate LowerWord(s: seq<byte>) {
    forall i :: 0 <= i < |s| ==> NameByte(s[i]) && Lower(s[i]) == s[i]
  }

  predicate UpperWord(s: seq<byte>) {
    forall i :: 0 <= i < |s| ==> NameByte(s[i]) && Upper(s[i]) == s[i]
  }

  /** A lower-case 8.3 name. */
  predicate ValidName(s: seq<byte>) {
    && 1 <= |Base(s)| <= 8
    && |Ext(s)| <= 3
    && (|Base(s)| < |s| ==> Ext(s) != [])
    && LowerWord(Base(s)) && LowerWord(Ext(s))
    && s[0] != DELETED
  }

  /** The entry name for a string, when the string is an 8.3 name. */
  function RawName(s: seq<byte>): (r: Raw)
    requires |Base(s)| <= 8 && |Ext(s)| <= 3
  {
    Pad(UpperAll(Base(s)), 8) + Pad(UpperAll(Ext(s)), 3)
  }

  /** An entry name that stands for an 8.3 name. */
  predicate ValidRaw(raw: Raw) {
    var base, ext := TrimEnd(raw[..8]), Word(raw[8..]);
    && base != []
    && raw[8..] == Pad(ext, 3)
    && UpperWord(base) && UpperWord(ext)
    && raw[0] != DELETED
  }

  /** Position by position, what the entry name of an 8.3 name holds. */
  lemma RawNameBytes(s: seq<byte>)
    requires ValidName(s)
    ensures |Base(s)| <= 8 && |Ext(s)| <= 3
    ensures |s| == if Ext(s) == [] then |Base(s)| else |Base(s)| + 1 + |Ext(s)|
    ensures forall i :: 0 <= i < |Base(s)| ==> s[i] == Base(s)[i] != DOT
    ensures forall i :: 0 <= i < |Ext(s)| ==> s[|Base(s)| + 1 + i] == Ext(s)[i] != DOT
    ensures Ext(s) != [] ==> s[|Base(s)|] == DOT
    ensures forall j: nat :: j < 11 ==> RawName(s)[j] == ExpectedByte(Base(s), Ext(s), j)
  {
    hide Base;
  }

  function ExpectedByte(base: seq<byte>, ext: seq<byte>, j: nat): (b: byte) {
    if j < |base| then Upper(base[j]) else if 0 <= j - 8 < |ext| then Upper(ext[j - 8]) else SPACE
  }

  const BLANK: Raw := [SPACE, SPACE, SPACE, SPACE, SPACE, SPACE, SPACE, SPACE, SPACE, SPACE, SPACE]

  /** What a string becomes in a directory entry, unless the driver steps over its terminator. */
  datatype Short = Overrun | Short(raw: Raw)

  /** The entry name with the rest of a string laid down from position `p` on: a dot moves to the extension, and a
      full extension ends the copy. */
  function Lay(rest: seq<byte>, p: nat, raw: Raw): (r: Short)
    requires p < 11
    decreases |rest|
  {
    if rest == [] then Short(raw)
    else if rest == [DOT] then Overrun
    else
      var (q, s) := if rest[0] == DOT then (8, rest[1..]) else (p, rest);
      var next := raw[q := Upper(s[0])];
      if q == 10 then Short(next) else Lay(s[1..], q + 1, next)
  }

  function ShortName(name: seq<byte>): (r: Short) {
    Lay(name, 0, BLANK)
  }

  /** `fat32_file_get_short_name`. */
  method GetShortName(longname: CString) returns (r: Short)
    ensures r == ShortName(longname)
  {
    var buf := BLANK;
    var s, p := 0, 0;
    while s < |longname|
      invariant 0 <= s <= |longname| && 0 <= p < 11 && |buf| == 11
      invariant Lay(longname[s..], p, buf) == ShortName(longname)
    {
      assert longname[s..][0] == longname[s] && longname[s..][1..] == longname[s + 1..];
      if longname[s] == DOT {
        s := s + 1;
        p := 8;
        if s == |longname| {
          return Overrun;
        }
        assert longname[s..][0] == longname[s] && longname[s..][1..] == longname[s + 1..];
      }
      buf := buf[p := Upper(longname[s])];
      p := p + 1;
      s := s + 1;
      if p == 11 {
        break;
      }
    }
    r := Short(buf);
  }

  // ---- where the driver steps over the end ----

  /** The byte at `j` is a dot that moves to the extension; the byte after such a dot is copied, whatever it is. */
  predicate Acts(s: seq<byte>, j: nat) {
    j < |s| && s[j] == DOT && (j == 0 || !Acts(s, j - 1))
  }

  /** The extension is full three bytes after the dot at `j`. */
  predicate FillsAfter(s: seq<byte>, j: nat) {
    Acts(s, j) && j + 3 < |s| && s[j + 2] != DOT && s[j + 3] != DOT
  }

  /** The copy, begun at position `p`, stops before the end of the string. */
  ghost predicate Fills(s: seq<byte>, p: nat)
    requires p < 11
  {
    || (|s| >= 11 - p && DOT !in s[..11 - p])
    || exists j: nat :: FillsAfter(s, j)
  }

  lemma {:induction false} ActsShift(s: seq<byte>, m: nat, j: nat)
    requires 0 < m <= |s| && !Acts(s, m - 1)
    ensures Acts(s[m..], j) <==> Acts(s, j + m)
    decreases j
  {
    if j > 0 {
      ActsShift(s, m, j - 1);
    }
  }

  lemma FillsShift(s: seq<byte>, m: nat, j: nat)
    requires 0 < m <= |s| && !Acts(s, m - 1)
    ensures FillsAfter(s[m..], j) <==> FillsAfter(s, j + m)
  {
    hide Acts;
    ActsShift(s, m, j);
  }

  lemma WindowsShift(s: seq<byte>, m: nat)
    requires 0 < m <= |s| && !Acts(s, m - 1)
    ensures (exists j: nat :: FillsAfter(s[m..], j)) <==> (exists j: nat :: j >= m && FillsAfter(s, j))
  {
    hide FillsAfter, Acts;
    if exists j: nat :: FillsAfter(s[m..], j) {
      var j: nat :| FillsAfter(s[m..], j);
      FillsShift(s, m, j);
    }
    if exists j: nat :: j >= m && FillsAfter(s, j) {
      var j: nat :| j >= m && FillsAfter(s, j);
      FillsShift(s, m, j - m);
    }
  }

  lemma LayBase(s: seq<byte>, p: nat)
    requires p < 10 && s != [] && s[0] != DOT
    ensures Fills(s, p) <==> Fills(s[1..], p + 1)
    ensures |s| > 1 ==> (Acts(s, |s| - 1) <==> Acts(s[1..], |s| - 2))
  {
    assert !FillsAfter(s, 0);
    assert !Acts(s, 0);
    hide FillsAfter, Acts;
    assert |s| >= 11 - p ==> s[..11 - p] == [s[0]] + s[1..][..10 - p];
    WindowsShift(s, 1);
    if |s| > 1 {
      ActsShift(s, 1, |s| - 2);
    }
  }

  lemma LayExt(s: seq<byte>, p: nat)
    requires p < 11 && |s| > 1 && s[0] == DOT
    ensures Fills(s, p) <==> Fills(s[2..], 9)
    ensures |s| > 2 ==> (Acts(s, |s| - 1) <==> Acts(s[2..], |s| - 3))
    ensures |s| == 2 ==> !Acts(s, 1)
  {
    assert Acts(s, 0) && !Acts(s, 1);
    assert |s| >= 4 ==> s[2..][..2] == [s[2], s[3]];
    assert FillsAfter(s, 0) <==> |s| >= 4 && DOT !in s[2..][..2];
    assert !FillsAfter(s, 1);
    hide FillsAfter, Acts;
    assert |s| >= 11 - p ==> s[..11 - p][0] == DOT;
    WindowsShift(s, 2);
    assert forall j: nat :: FillsAfter(s, j) ==> j == 0 || j >= 2;
    if |s| > 2 {
      ActsShift(s, 2, |s| - 3);
    }
  }

  /** The driver steps over the terminator exactly on the strings whose last byte is a dot that moves to the extension,
      unless the copy has stopped before. */
  lemma {:induction false} OverrunExact(s: seq<byte>, p: nat, raw: Raw)
    requires p < 11
    ensures Lay(s, p, raw).Overrun? <==> s != [] && Acts(s, |s| - 1) && !Fills(s, p)
    decreases |s|
  {
    hide Fills;
    if s == [DOT] {
      LastDot(s, p);
    } else if s != [] && s[0] == DOT {
      LayExt(s, p);
      assert s[1..][0] == s[1] && s[1..][1..] == s[2..];
      OverrunExact(s[2..], 9, raw[8 := Upper(s[1])]);
    } else if s != [] && p < 10 {
      LayBase(s, p);
      OverrunExact(s[1..], p + 1, raw[p := Upper(s[0])]);
    } else if s != [] {
      StopsHere(s);
    }
  }

  lemma LastDot(s: seq<byte>, p: nat)
    requires p < 11 && s == [DOT]
    ensures !Fills(s, p)
  {
    assert |s| >= 11 - p ==> s[..11 - p][0] == DOT;
  }

  lemma StopsHere(s: seq<byte>)
    requires s != [] && s[0] != DOT
    ensures Fills(s, 10)
  {
    assert s[..1] == [s[0]];
  }

  // ---- which names survive ----

  /** The string can be read back from the entry made for it. */
  predicate ReadsBack(name: seq<byte>) {
    ShortName(name).Short? && HasBase(ShortName(name).raw) && FullName(ShortName(name).raw) == name
  }

  /** At most eight bytes and perhaps a dot and at most three more, in lower case; a base may have blanks inside and an
      extension may begin with a dot. */
  predicate Fits(name: seq<byte>) {
    && 1 <= |Base(name)| <= 8 && Base(name)[|Base(name)| - 1] != SPACE
    && (|Base(name)| < |name| ==> 1 <= |Ext(name)| <= 3 && SPACE !in Ext(name) && DOT !in Ext(name)[1..])
    && LowerAll(name) == name
  }

  lemma {:induction false} LayWord(w: seq<byte>, rest: seq<byte>, p: nat, raw: Raw)
    requires DOT !in w && p + |w| < 11
    ensures Lay(w + rest, p, raw) == Lay(rest, p + |w|, Splice(raw, p, UpperAll(w)))
    decreases |w|
  {
    if w == [] {
      assert w + rest == rest && Splice(raw, p, UpperAll(w)) == raw;
    } else {
      assert (w + rest)[0] == w[0] && (w + rest)[1..] == w[1..] + rest;
      LayWord(w[1..], rest, p + 1, raw[p := Upper(w[0])]);
      assert Splice(raw[p := Upper(w[0])], p + 1, UpperAll(w[1..])) == Splice(raw, p, UpperAll(w));
    }
  }

  /** The same where the string ends, up to a full extension. */
  lemma LayLast(w: seq<byte>, p: nat, raw: Raw)
    requires DOT !in w && p < 11 && p + |w| <= 11
    ensures Lay(w, p, raw) == Short(Splice(raw, p, UpperAll(w)))
  {
    if p + |w| < 11 {
      LayWord(w, [], p, raw);
      assert w + [] == w;
    } else {
      var n := |w| - 1;
      assert w == w[..n] + [w[n]];
      LayWord(w[..n], [w[n]], p, raw);
      assert Splice(raw, p, UpperAll(w[..n]))[10 := Upper(w[n])] == Splice(raw, p, UpperAll(w));
    }
  }

  lemma {:induction false} LayKeepsBase(rest: seq<byte>, p: nat, raw: Raw)
    requires 8 <= p < 11 && Lay(rest, p, raw).Short?
    ensures Lay(rest, p, raw).raw[..8] == raw[..8]
    decreases |rest|
  {
    if rest != [] {
      var (q, s) := if rest[0] == DOT then (8, rest[1..]) else (p, rest);
      var next := raw[q := Upper(s[0])];
      assert next[..8] == raw[..8];
      if q != 10 {
        LayKeepsBase(s[1..], q + 1, next);
      }
    }
  }

  /** The part of a name that the entry keeps as its base. */
  function Head(name: seq<byte>): (h: seq<byte>)
    ensures |h| <= 8 && |h| <= |name| && DOT !in h && h == name[..|h|]
  {
    if |Base(name)| <= 8 then Base(name) else Base(name)[..8]
  }

  lemma ShortHead(name: seq<byte>)
    requires ShortName(name).Short?
    ensures ShortName(name).raw[..8] == Pad(UpperAll(Head(name)), 8)
  {
    hide Base;
    var h := Head(name);
    var rest, raw := name[|h|..], Splice(BLANK, 0, UpperAll(h));
    assert name == h + rest;
    LayWord(h, rest, 0, BLANK);
    assert raw[..8] == Pad(UpperAll(h), 8);
    if |h| == 8 {
      LayKeepsBase(rest, 8, raw);
    } else if rest != [] {
      assert rest[0] == DOT;
      var next := raw[8 := Upper(rest[1])];
      assert rest[1..][0] == rest[1] && next[..8] == raw[..8];
      LayKeepsBase(rest[1..][1..], 9, next);
    }
  }

  lemma LayDot(ext: seq<byte>, p: nat, raw: Raw)
    requires ext != [] && p < 11
    ensures Lay([DOT] + ext, p, raw) == Lay(ext[1..], 9, raw[8 := Upper(ext[0])])
  {
    var rest := [DOT] + ext;
    assert rest[0] == DOT && rest[1..] == ext;
  }

  /** The entry made for a string has a blank base exactly if only blanks stand before its first dot, among its first
      eight bytes. */
  lemma BlankExact(name: seq<byte>)
    requires ShortName(name).Short?
    ensures HasBase(ShortName(name).raw) <==> exists i :: 0 <= i < |Head(name)| && name[i] != SPACE
  {
    hide Base, Lay;
    ShortHead(name);
    var h, raw := Head(name), ShortName(name).raw;
    assert forall i :: 0 <= i < 8 ==> raw[i] == raw[..8][i];
    assert forall i :: 0 <= i < |h| ==> name[i] == h[i];
  }

  /** Such as the name ".x". */
  lemma DotFile(x: byte)
    requires x != DOT
    ensures ShortName([DOT, x]).Short? && !HasBase(ShortName([DOT, x]).raw)
  {
    LayDot([x], 0, BLANK);
    assert [DOT, x] == [DOT] + [x] && [x][1..] == [];
    assert ShortName([DOT, x]) == Short(BLANK[8 := Upper(x)]);
  }

  /** No zero byte comes into an entry name from a C string. */
  lemma {:induction false} LayNoZero(rest: seq<byte>, p: nat, raw: Raw)
    requires p < 11 && 0 !in rest && 0 !in raw && Lay(rest, p, raw).Short?
    ensures 0 !in Lay(rest, p, raw).raw
    decreases |rest|
  {
    if rest != [] {
      var (q, s) := if rest[0] == DOT then (8, rest[1..]) else (p, rest);
      assert s[0] in rest && 0 !in s[1..];
      var next := raw[q := Upper(s[0])];
      assert 0 !in next;
      if q != 10 {
        LayNoZero(s[1..], q + 1, next);
      }
    }
  }

  lemma FullNoZero(raw: Raw)
    requires 0 !in raw
    ensures 0 !in FullName(raw) && Cut(FullName(raw)) == FullName(raw)
  {
    hide TrimEnd, Word, Cut;
    var base, ext := TrimEnd(raw[..8]), Word(raw[8..]);
    assert 0 !in base && 0 !in ext;
    assert 0 !in Joined(base, ext);
    CutWhole(FullName(raw));
  }

  /** Base, dot and extension laid down one after the other. */
  lemma LayParts(name: seq<byte>)
    requires 1 <= |Base(name)| <= 8 && |Base(name)| < |name| && 1 <= |Ext(name)| <= 3
    ensures ShortName(name) ==
      Lay(Ext(name)[1..], 9, Splice(BLANK, 0, UpperAll(Base(name)))[8 := Upper(Ext(name)[0])])
  {
    hide Base, Lay, UpperAll, Splice;
    var base, ext := Base(name), Ext(name);
    assert name == base + ([DOT] + ext);
    LayWord(base, [DOT] + ext, 0, BLANK);
    LayDot(ext, |base|, Splice(BLANK, 0, UpperAll(base)));
  }

  lemma BaseSpliced(base: seq<byte>)
    requires |base| <= 8
    ensures Splice(BLANK, 0, UpperAll(base)) == Pad(UpperAll(base), 8) + Pad(UpperAll([]), 3)
  {
  }

  lemma ExtSpliced(base: seq<byte>, ext: seq<byte>)
    requires |base| <= 8 && 1 <= |ext| <= 3
    ensures Splice(Splice(BLANK, 0, UpperAll(base))[8 := Upper(ext[0])], 9, UpperAll(ext[1..])) ==
      Pad(UpperAll(base), 8) + Pad(UpperAll(ext), 3)
  {
  }

  lemma FitsReadsBack(name: seq<byte>)
    requires Fits(name)
    ensures |Ext(name)| <= 3 && ShortName(name) == Short(RawName(name))
    ensures FullName(RawName(name)) == name && HasBase(RawName(name))
  {
    hide Base, Lay, FullName, HasBase, UpperAll, Splice, Pad;
    var base, ext := Base(name), Ext(name);
    if |base| == |name| {
      LayLast(name, 0, BLANK);
      BaseSpliced(base);
    } else {
      LayParts(name);
      LayLast(ext[1..], 9, Splice(BLANK, 0, UpperAll(base))[8 := Upper(ext[0])]);
      ExtSpliced(base, ext);
    }
    RawReadsBack(name);
  }

  lemma RawReadsBack(name: seq<byte>)
    requires Fits(name)
    ensures |Ext(name)| <= 3 && FullName(RawName(name)) == name && HasBase(RawName(name))
  {
    hide TrimEnd, Word, Base, Pad;
    var base, ext, raw := Base(name), Ext(name), RawName(name);
    assert raw[..8] == Pad(UpperAll(base), 8) && raw[8..] == Pad(UpperAll(ext), 3);
    assert LowerAll(UpperAll(base)) == base && LowerAll(UpperAll(ext)) == ext;
    TrimEndPad(UpperAll(base), 8);
    WordPad(UpperAll(ext), 3);
    assert raw[|base| - 1] == raw[..8][|base| - 1] == Upper(base[|base| - 1]);
    SplitAtDot(name);
    LowerJoined(UpperAll(base), UpperAll(ext));
  }

  lemma ShortWord(s: seq<byte>)
    requires |s| == 3 && s[1] == SPACE
    ensures |Word(s)| <= 1
  {
    hide Word;
    assert |Word(s)| > 1 ==> Word(s)[1] == s[1];
  }

  /** A later dot takes the extension back to its beginning, and what is read back is shorter. */
  lemma LaterDot(ext: seq<byte>, raw: Raw)
    requires 1 <= |ext| <= 3 && raw[9] == raw[10] == SPACE
    requires var r := Lay(ext[1..], 9, raw[8 := Upper(ext[0])]); r.Short? && |Word(r.raw[8..])| == |ext|
    ensures DOT !in ext[1..]
  {
    hide Word;
    if |ext| == 2 {
      assert ext[1..] == [ext[1]];
    } else if |ext| == 3 {
      var next := raw[8 := Upper(ext[0])];
      var again := next[8 := Upper(ext[2])];
      assert [DOT, ext[2]][1..] == [ext[2]] && [ext[2]][1..] == [];
      assert Lay([DOT, ext[2]], 9, next) == Short(again);
      ShortWord(again[8..]);
      assert ext[1..] == [ext[1], ext[2]] && [ext[1], ext[2]][1..] == [ext[2]];
    }
  }

  lemma NameOfParts(base: seq<byte>, ext: seq<byte>)
    requires DOT !in LowerAll(base)
    ensures var name := LowerAll(Joined(base, ext));
      && Base(name) == LowerAll(base) && Ext(name) == LowerAll(ext) && (|Base(name)| == |name| <==> ext == [])
      && LowerAll(name) == name
  {
    hide Base;
    LowerJoined(base, ext);
    var tail := if ext == [] then [] else [DOT] + LowerAll(ext);
    var name := LowerAll(base) + tail;
    assert name == LowerAll(Joined(base, ext));
    BaseOf(LowerAll(base), tail);
    assert ext != [] ==> name[|base| + 1..] == LowerAll(ext);
  }

  lemma ReadsBackFits(name: seq<byte>)
    requires ReadsBack(name)
    ensures Fits(name)
  {
    hide Base, Ext, TrimEnd, Word, Pad, Lay;
    var raw := ShortName(name).raw;
    var base, ext := TrimEnd(raw[..8]), Word(raw[8..]);
    ShortHead(name);
    BaseRead(raw, Head(name));
    NameOfParts(base, ext);
    if ext != [] {
      LayParts(name);
      LaterDot(Ext(name), Splice(BLANK, 0, UpperAll(Base(name))));
    }
  }

  lemma BaseRead(raw: Raw, head: seq<byte>)
    requires |head| <= 8 && DOT !in head && raw[..8] == Pad(UpperAll(head), 8) && HasBase(raw)
    ensures var base := TrimEnd(raw[..8]); base != [] && |base| <= 8 && DOT !in LowerAll(base)
  {
    hide TrimEnd;
    var base := TrimEnd(raw[..8]);
    var i :| 0 <= i < 8 && raw[i] != SPACE;
    assert raw[..8][i] == raw[i];
    forall j | 0 <= j < |base| ensures LowerAll(base)[j] != DOT {
      assert base[j] == raw[..8][j];
    }
  }

  /** A name can be read back from the entry the driver makes for it exactly if it fits. */
  lemma NameExact(name: seq<byte>)
    ensures ReadsBack(name) <==> Fits(name)
  {
    hide Fits, Lay;
    if Fits(name) {
      FitsReadsBack(name);
    }
    if ReadsBack(name) {
      ReadsBackFits(name);
    }
  }

  lemma ValidFits(name: seq<byte>)
    requires ValidName(name)
    ensures Fits(name)
  {
    hide Base;
    var base, ext := Base(name), Ext(name);
    forall i | 0 <= i < |name| ensures LowerAll(name)[i] == name[i] {
      if i < |base| {
        assert name[i] == base[i];
      } else if i > |base| {
        assert name[i] == ext[i - |base| - 1];
      }
    }
  }

  lemma {:induction false} TrimEndPad(s: seq<byte>, n: nat)
    requires |s| <= n && (s != [] ==> s[|s| - 1] != SPACE)
    ensures TrimEnd(Pad(s, n)) == s
  {
    if n > |s| {
      assert Pad(s, n)[..n - 1] == Pad(s, n - 1);
      TrimEndPad(s, n - 1);
    } else {
      assert Pad(s, n) == s;
    }
  }

  lemma {:induction false} WordPad(s: seq<byte>, n: nat)
    requires |s| <= n && forall i :: 0 <= i < |s| ==> s[i] != SPACE
    ensures Word(Pad(s, n)) == s
  {
    if s != [] {
      assert Pad(s, n)[1..] == Pad(s[1..], n - 1);
      WordPad(s[1..], n - 1);
    }
  }

  lemma {:induction false} BaseOf(b: seq<byte>, rest: seq<byte>)
    requires DOT !in b && (rest != [] ==> rest[0] == DOT)
    ensures Base(b + rest) == b
  {
    if b == [] {
      assert b + rest == rest;
    } else {
      assert (b + rest)[1..] == b[1..] + rest;
      BaseOf(b[1..], rest);
    }
  }

  lemma LowerUpper(s: seq<byte>)
    requires LowerWord(s)
    ensures LowerAll(UpperAll(s)) == s && UpperWord(UpperAll(s))
  {
  }

  lemma UpperLower(s: seq<byte>)
    requires UpperWord(s)
    ensures UpperAll(LowerAll(s)) == s && LowerWord(LowerAll(s))
  {
  }

  lemma LowerAllConcat(a: seq<byte>, b: seq<byte>)
    ensures LowerAll(a + b) == LowerAll(a) + LowerAll(b)
  {
  }

  lemma SplitAtDot(s: seq<byte>)
    requires |Base(s)| < |s| ==> Ext(s) != []
    ensures s == Joined(Base(s), Ext(s))
  {
    hide Base;
    var b := Base(s);
    if |b| < |s| {
      assert s == s[..|b|] + ([s[|b|]] + s[|b| + 1..]);
    }
  }

  function Joined(base: seq<byte>, ext: seq<byte>): (s: seq<byte>) {
    if ext == [] then base else base + ([DOT] + ext)
  }

  lemma LowerJoined(base: seq<byte>, ext: seq<byte>)
    ensures LowerAll(Joined(base, ext)) == Joined(LowerAll(base), LowerAll(ext))
  {
    LowerAllConcat(base, [DOT] + ext);
    LowerAllConcat([DOT], ext);
    assert LowerAll([DOT]) == [DOT];
  }

  /** A lower-case 8.3 name survives the trip through a directory entry. */
  lemma FullNameOfRawName(s: seq<byte>)
    requires ValidName(s)
    ensures ShortName(s) == Short(RawName(s))
    ensures FullName(RawName(s)) == s && HasBase(RawName(s)) && ValidRaw(RawName(s))
  {
    hide TrimEnd, Word, Base, LowerAll, UpperAll, Pad, Lay;
    var base, ext, raw := Base(s), Ext(s), RawName(s);
    ValidFits(s);
    FitsReadsBack(s);
    assert raw[..8] == Pad(UpperAll(base), 8) && raw[8..] == Pad(UpperAll(ext), 3);
    LowerUpper(base);
    LowerUpper(ext);
    TrimEndPad(UpperAll(base), 8);
    WordPad(UpperAll(ext), 3);
    assert raw[0] == UpperAll(base)[0] == Upper(base[0]);
  }

  /** An upper-case entry name survives the trip through its string. */
  lemma RawNameOfFullName(raw: Raw)
    requires ValidRaw(raw)
    ensures ValidName(FullName(raw)) && RawName(FullName(raw)) == raw
  {
    hide TrimEnd, Word, Base, LowerAll, UpperAll, Pad;
    var base, ext, s := TrimEnd(raw[..8]), Word(raw[8..]), FullName(raw);
    UpperLower(base);
    UpperLower(ext);
    LowerJoined(base, ext);
    var tail := if ext == [] then [] else [DOT] + LowerAll(ext);
    assert s == LowerAll(base) + tail;
    BaseOf(LowerAll(base), tail);
    assert Ext(s) == LowerAll(ext);
    assert raw[..8] == Pad(base, 8);
    assert raw == raw[..8] + raw[8..];
    assert s[0] == Lower(raw[0]);
  }
}
