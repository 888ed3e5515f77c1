/** Parsing a line of text: words cut out in place, and trees that survive being written and read. */
module ShellText {
  import opened ShellGrammar
  import opened ShellComplete
  import opened ShellLexer
  import opened ShellParser

  // ---------------------------------------------------------------- the words of a tree

  ghost function Places<W(!new)>(c: Cmd<W>): (r: set<W>) {
    match c
    case Exec(argv) => set w | w in argv
    case Redir(d, to) => Places(d) + {to.file}
    case Pipe(l, r) => Places(l) + Places(r)
    case List(l, r) => Places(l) + Places(r)
    case Back(d) => Places(d)
  }

  ghost function WordsIn<W(!new)>(ts: seq<Token<W>>): (r: set<W>) {
    set t | t in ts && t.Word? :: t.w
  }

  ghost function Files<W(!new)>(rs: seq<Redirection<W>>): (r: set<W>) {
    set r | r in rs :: r.file
  }

  lemma {:induction false} WrapPlaces<W(!new)>(c: Cmd<W>, rs: seq<Redirection<W>>)
    ensures Places(Wrap(c, rs)) == Places(c) + Files(rs)
    decreases |rs|
  {
    if rs != [] {
      WrapPlaces(Redir(c, rs[0]), rs[1..]);
      FilesCons(rs);
    } else {
      assert Files(rs) == {};
    }
  }

  lemma PartOf<W(!new)>(ts: seq<Token<W>>, i: nat, j: nat)
    requires i <= j <= |ts|
    ensures WordsIn(ts[i..j]) <= WordsIn(ts) && WordsIn(ts[i..]) <= WordsIn(ts) && WordsIn(ts[..j]) <= WordsIn(ts)
  {
  }

  lemma FilesCons<W(!new)>(rs: seq<Redirection<W>>)
    requires rs != []
    ensures Files(rs) == {rs[0].file} + Files(rs[1..])
  {
    assert rs == [rs[0]] + rs[1..];
  }

  lemma {:induction false} RedirsPlaces<W(!new)>(rs: seq<Redirection<W>>, ts: seq<Token<W>>)
    requires IsRedirs(rs, ts)
    ensures Files(rs) <= WordsIn(ts)
    decreases |ts|
  {
    if rs != [] {
      RedirsPlaces(rs[1..], ts[2..]);
      PartOf(ts, 2, |ts|);
      FilesCons(rs);
      assert ts[1] in ts;
    }
  }

  lemma {:induction false} SimplePlaces<W(!new)>(argv: seq<W>, rs: seq<Redirection<W>>, ts: seq<Token<W>>)
    requires IsSimple(argv, rs, ts)
    ensures (forall w :: w in argv ==> w in WordsIn(ts)) && Files(rs) <= WordsIn(ts)
    decreases |ts|
  {
    if ts != [] {
      assert ts[0] in ts;
      if ts[0].Word? {
        SimplePlaces(argv[1..], rs, ts[1..]);
        PartOf(ts, 1, |ts|);
        assert argv == [argv[0]] + argv[1..];
      } else {
        SimplePlaces(argv, rs[1..], ts[2..]);
        PartOf(ts, 2, |ts|);
        FilesCons(rs);
        assert ts[1] in ts;
      }
    }
  }

  lemma {:induction false} ExecPlaces<W(!new)>(c: Cmd<W>, ts: seq<Token<W>>)
    requires IsExec(c, ts)
    ensures Places(c) <= WordsIn(ts)
    decreases |ts|, 1
  {
    hide IsSimple, Wrap, WordsIn, Files;
    if argv, rs :| |argv| < MAXARGS && IsSimple(argv, rs, ts) && c == Wrap(Exec(argv), rs) {
      SimplePlaces(argv, rs, ts);
      WrapPlaces(Exec(argv), rs);
    } else {
      var d, rs, k: nat :| IsBlock(c, d, rs, ts, k);
      LinePlaces(d, ts[1..k]);
      PartOf(ts, 1, k);
      RedirsPlaces(rs, ts[k + 1..]);
      PartOf(ts, k + 1, |ts|);
      WrapPlaces(d, rs);
    }
  }

  lemma {:induction false} PipePlaces<W(!new)>(c: Cmd<W>, ts: seq<Token<W>>)
    requires IsPipe(c, ts)
    ensures Places(c) <= WordsIn(ts)
    decreases |ts|, 2
  {
    hide IsExec, WordsIn;
    if IsExec(c, ts) {
      ExecPlaces(c, ts);
    } else {
      var k: nat :| IsPipeAt(c.left, c.right, ts, k);
      ExecPlaces(c.left, ts[..k]);
      PartOf(ts, 0, k);
      PipePlaces(c.right, ts[k + 1..]);
      PartOf(ts, k + 1, |ts|);
    }
  }

  lemma {:induction false} JobPlaces<W(!new)>(c: Cmd<W>, ts: seq<Token<W>>)
    requires IsJob(c, ts)
    ensures Places(c) <= WordsIn(ts)
    decreases |ts|, 3
  {
    hide IsPipe, WordsIn;
    if IsPipe(c, ts) {
      PipePlaces(c, ts);
    } else {
      JobPlaces(c.cmd, ts[..|ts| - 1]);
      PartOf(ts, 0, |ts| - 1);
    }
  }

  /** Every word of a tree is one of the tokens it was parsed from. */
  lemma {:induction false} LinePlaces<W(!new)>(c: Cmd<W>, ts: seq<Token<W>>)
    requires IsLine(c, ts)
    ensures Places(c) <= WordsIn(ts)
    decreases |ts|, 4
  {
    hide IsJob, WordsIn;
    if IsJob(c, ts) {
      JobPlaces(c, ts);
    } else {
      var k: nat :| IsListAt(c.left, c.right, ts, k);
      JobPlaces(c.left, ts[..k]);
      PartOf(ts, 0, k);
      LinePlaces(c.right, ts[k + 1..]);
      PartOf(ts, k + 1, |ts|);
    }
  }

  lemma ParsedPlaces(text: Text, c: Cmd<Span>)
    requires Parse(TokensAt(text, 0)) == Ok(c, [])
    ensures forall w :: w in Places(c) ==> SpanOk(text, w)
  {
    var ts := TokensAt(text, 0);
    hide Parse, IsLine, Places, TokensAt, SpanOk;
    ParseExact(ts, c);
    LinePlaces(c, ts);
    forall w | w in Places(c) ensures SpanOk(text, w) {
      var t :| t in ts && t.Word? && t.w == w;
      assert t == Word(w);
      TokenSpansOk(text, 0, w);
    }
  }

  // ---------------------------------------------------------------- NUL termination

  /** The places `nulterminate` writes to. */
  ghost function Ends(c: Cmd<Span>): (r: set<nat>) {
    set w | w in Places(c) :: w.end
  }

  ghost predicate InBounds(c: Cmd<Span>, n: nat) {
    forall w :: w in Places(c) ==> w.end < n
  }

  /** `nulterminate`: a NUL after every word of the tree, nothing else. */
  method NulTerminate(c: Cmd<Span>, buf: array<char>)
    requires InBounds(c, buf.Length)
    modifies buf
    ensures forall k :: 0 <= k < buf.Length ==> buf[k] == if k in Ends(c) then NUL else old(buf[k])
    decreases c
  {
    match c {
      case Exec(argv) =>
        for i := 0 to |argv|
          invariant forall k :: 0 <= k < buf.Length ==>
            buf[k] == if exists j :: 0 <= j < i && argv[j].end == k then NUL else old(buf[k])
        {
          assert argv[i] in Places(c);
          buf[argv[i].end] := NUL;
        }
        forall k | 0 <= k < buf.Length ensures k in Ends(c) <==> exists j :: 0 <= j < |argv| && argv[j].end == k {
          if j :| 0 <= j < |argv| && argv[j].end == k { assert argv[j] in Places(c); }
        }
      case Redir(d, to) =>
        NulTerminate(d, buf);
        assert to.file in Places(c);
        buf[to.file.end] := NUL;
        assert Ends(c) == Ends(d) + {to.file.end};
      case Pipe(l, r) =>
        NulTerminate(l, buf);
        NulTerminate(r, buf);
        assert Ends(c) == Ends(l) + Ends(r);
      case List(l, r) =>
        NulTerminate(l, buf);
        NulTerminate(r, buf);
        assert Ends(c) == Ends(l) + Ends(r);
      case Back(d) =>
        NulTerminate(d, buf);
        assert Ends(c) == Ends(d);
    }
  }

  /** The C string at `p`. */
  ghost predicate ReadsAs(s: seq<char>, p: nat, w: string) {
    p + |w| < |s| && s[p..p + |w|] == w && NUL !in w && s[p + |w|] == NUL
  }

  /** `parsecmd` on a line buffer: afterwards every word of the tree reads as its token. */
  method ParseCmd(buf: array<char>, es: nat) returns (o: Outcome)
    requires es < buf.Length && buf[es] == NUL && NUL !in buf[..es]
    modifies buf
    ensures o == Answer(Parse(TokensAt(old(buf[..es]), 0)))
    ensures o.Panics? ==> buf[..] == old(buf[..])
    ensures o.Parsed? ==> forall k :: 0 <= k < buf.Length ==> buf[k] == if k in Ends(o.cmd) then NUL else old(buf[k])
    ensures o.Parsed? ==> forall k :: k in Ends(o.cmd) ==> k <= es && !IsWordChar(old(buf[..])[k])
    ensures o.Parsed? ==> forall w :: w in Places(o.cmd) ==>
      w.start < w.end <= es && ReadsAs(buf[..], w.start, old(buf[..es])[w.start..w.end])
  {
    hide Parse, TokensAt, Places;
    var text := buf[..es];
    var parser := new Parser(text);
    o := parser.ParseAll();
    if o.Panics? {
      return;
    }
    ParsedPlaces(text, o.cmd);
    NulTerminate(o.cmd, buf);
    WordsCutOut(text, old(buf[..]), buf[..], o.cmd);
  }

  function Answer(r: Result<Span>): (res: Outcome) {
    match r
    case Ok(c, _) => Parsed(c)
    case Fail(why) => Panics(why)
  }

  lemma WordsCutOut(text: Text, s: seq<char>, s': seq<char>, c: Cmd<Span>)
    requires |text| < |s| == |s'| && s[..|text|] == text && s[|text|] == NUL
    requires forall w :: w in Places(c) ==> SpanOk(text, w)
    requires forall k :: 0 <= k < |s| ==> s'[k] == if k in Ends(c) then NUL else s[k]
    ensures forall k :: k in Ends(c) ==> k <= |text| && !IsWordChar(s[k])
    ensures forall w :: w in Places(c) ==> w.start < w.end <= |text| && ReadsAs(s', w.start, text[w.start..w.end])
  {
    hide Places;
    forall k | k in Ends(c) ensures k <= |text| && !IsWordChar(s[k]) {
      var w :| w in Places(c) && w.end == k;
      assert SpanOk(text, w);
      assert k < |text| ==> text[k] == s[k];
    }
    forall w | w in Places(c) ensures w.start < w.end <= |text| && ReadsAs(s', w.start, text[w.start..w.end]) {
      assert SpanOk(text, w) && w.end in Ends(c);
      forall k | w.start <= k < w.end ensures s'[k] == text[k] {
        assert text[k] == s[k] && IsWordChar(text[k]);
      }
      assert s'[w.start..w.end] == text[w.start..w.end];
    }
  }
}
