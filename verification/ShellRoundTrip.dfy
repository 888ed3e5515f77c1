/** A command tree written out as text and parsed again is the same tree. */
module ShellRoundTrip {
  import opened ShellGrammar
  import opened ShellComplete
  import opened ShellLexer

  function MapRedirection<V, W>(f: V -> W, r: Redirection<V>): (res: Redirection<W>) {
    Redirection(f(r.file), r.out)
  }

  function MapSeq<V, W>(f: V -> W, s: seq<V>): (r: seq<W>)
    ensures |r| == |s| && forall i :: 0 <= i < |s| ==> r[i] == f(s[i])
  {
    seq(|s|, i requires 0 <= i < |s| => f(s[i]))
  }

  function MapRedirections<V, W>(f: V -> W, s: seq<Redirection<V>>): (r: seq<Redirection<W>>)
    ensures |r| == |s| && forall i :: 0 <= i < |s| ==> r[i] == MapRedirection(f, s[i])
  {
    seq(|s|, i requires 0 <= i < |s| => MapRedirection(f, s[i]))
  }

  function MapCmd<V, W>(f: V -> W, c: Cmd<V>): (r: Cmd<W>) {
    match c
    case Exec(argv) => Exec(MapSeq(f, argv))
    case Redir(d, to) => Redir(MapCmd(f, d), MapRedirection(f, to))
    case Pipe(l, r) => Pipe(MapCmd(f, l), MapCmd(f, r))
    case List(l, r) => List(MapCmd(f, l), MapCmd(f, r))
    case Back(d) => Back(MapCmd(f, d))
  }

  function MapResult<V, W>(f: V -> W, r: Result<V>): (res: Result<W>) {
    match r
    case Fail(why) => Fail(why)
    case Ok(c, rest) => Ok(MapCmd(f, c), MapTokens(f, rest))
  }

  function MapGot<V, W>(f: V -> W, r: Redirs<V>): (res: Redirs<W>) {
    match r
    case NoFile => NoFile
    case Got(rs, rest) => Got(MapRedirections(f, rs), MapTokens(f, rest))
  }

  // ---------------------------------------------------------------- parsing does not look at words

  lemma MapDrop<V, W>(f: V -> W, ts: seq<Token<V>>, n: nat)
    requires n <= |ts|
    ensures MapTokens(f, ts[n..]) == MapTokens(f, ts)[n..]
  {
  }

  lemma {:induction false} MapWrap<V, W>(f: V -> W, c: Cmd<V>, rs: seq<Redirection<V>>)
    ensures MapCmd(f, Wrap(c, rs)) == Wrap(MapCmd(f, c), MapRedirections(f, rs))
    decreases |rs|
  {
    if rs != [] {
      MapWrap(f, Redir(c, rs[0]), rs[1..]);
      assert MapRedirections(f, rs)[1..] == MapRedirections(f, rs[1..]);
    } else {
      assert MapRedirections(f, rs) == [];
    }
  }

  lemma {:induction false} MapTakeRedirs<V, W>(f: V -> W, ts: seq<Token<V>>)
    ensures TakeRedirs(MapTokens(f, ts)) == MapGot(f, TakeRedirs(ts))
    decreases |ts|
  {
    var us := MapTokens(f, ts);
    if StartsRedir(ts) && |ts| >= 2 && ts[1].Word? {
      MapTakeRedirs(f, ts[2..]);
      MapDrop(f, ts, 2);
      if TakeRedirs(ts[2..]).Got? {
        var rs := TakeRedirs(ts[2..]).rs;
        var r := Redirection(ts[1].w, ts[0].c != '<');
        assert MapRedirections(f, [r] + rs) == [MapRedirection(f, r)] + MapRedirections(f, rs);
      }
    } else if !StartsRedir(ts) {
      assert MapRedirections<V, W>(f, []) == [];
    }
  }

  lemma {:induction false} MapParseWords<V, W>(f: V -> W, argv: seq<V>, rs: seq<Redirection<V>>, ts: seq<Token<V>>)
    ensures ParseWords(MapSeq(f, argv), MapRedirections(f, rs), MapTokens(f, ts)) ==
      MapResult(f, ParseWords(argv, rs, ts))
    decreases |ts|
  {
    hide TakeRedirs, Wrap;
    if EndsWords(ts) {
      MapWrap(f, Exec(argv), rs);
    } else if ts[0].Word? && |argv| + 1 < MAXARGS {
      MapDrop(f, ts, 1);
      MapTakeRedirs(f, ts[1..]);
      var got := TakeRedirs(ts[1..]);
      if got.Got? {
        MapParseWords(f, argv + [ts[0].w], rs + got.rs, got.rest);
        assert MapSeq(f, argv + [ts[0].w]) == MapSeq(f, argv) + [f(ts[0].w)];
        assert MapRedirections(f, rs + got.rs) == MapRedirections(f, rs) + MapRedirections(f, got.rs);
      }
    }
  }

  lemma {:induction false} MapTakeBacks<V, W>(f: V -> W, c: Cmd<V>, ts: seq<Token<V>>)
    ensures TakeBacks(MapCmd(f, c), MapTokens(f, ts)) ==
      (MapCmd(f, TakeBacks(c, ts).0), MapTokens(f, TakeBacks(c, ts).1))
    decreases |ts|
  {
    if StartsWith(ts, '&') {
      MapTakeBacks(f, Back(c), ts[1..]);
      MapDrop(f, ts, 1);
    }
  }

  lemma {:induction false} MapParseExec<V, W>(f: V -> W, ts: seq<Token<V>>)
    ensures ParseExec(MapTokens(f, ts)) == MapResult(f, ParseExec(ts))
    decreases |ts|, 1
  {
    hide TakeRedirs, ParseWords, ParseLine, Wrap;
    if StartsWith(ts, '(') {
      MapDrop(f, ts, 1);
      MapParseLine(f, ts[1..]);
      var line := ParseLine(ts[1..]);
      if line.Ok? && StartsWith(line.rest, ')') {
        MapDrop(f, line.rest, 1);
        MapTakeRedirs(f, line.rest[1..]);
        var got := TakeRedirs(line.rest[1..]);
        if got.Got? { MapWrap(f, line.cmd, got.rs); }
      }
    } else {
      MapTakeRedirs(f, ts);
      var got := TakeRedirs(ts);
      if got.Got? {
        MapParseWords(f, [], got.rs, got.rest);
        assert MapSeq<V, W>(f, []) == [];
      }
    }
  }

  lemma {:induction false} MapParsePipe<V, W>(f: V -> W, ts: seq<Token<V>>)
    ensures ParsePipe(MapTokens(f, ts)) == MapResult(f, ParsePipe(ts))
    decreases |ts|, 2
  {
    hide ParseExec;
    MapParseExec(f, ts);
    var left := ParseExec(ts);
    if left.Ok? && StartsWith(left.rest, '|') {
      MapDrop(f, left.rest, 1);
      MapParsePipe(f, left.rest[1..]);
    }
  }

  lemma {:induction false} MapParseLine<V, W>(f: V -> W, ts: seq<Token<V>>)
    ensures ParseLine(MapTokens(f, ts)) == MapResult(f, ParseLine(ts))
    decreases |ts|, 3
  {
    hide ParsePipe, TakeBacks;
    MapParsePipe(f, ts);
    var p := ParsePipe(ts);
    if p.Ok? {
      MapTakeBacks(f, p.cmd, p.rest);
      var (c, rest) := TakeBacks(p.cmd, p.rest);
      if StartsWith(rest, ';') {
        MapDrop(f, rest, 1);
        MapParseLine(f, rest[1..]);
      }
    }
  }

  /** Parsing with places and parsing with texts give the same tree. */
  lemma ParseSpelt(text: Text)
    ensures Parse(Lex(text)) == MapResult(Spelt(text), Parse(TokensAt(text, 0)))
  {
    hide ParseLine, Lex, TokensAt;
    LexSpans(text, 0);
    assert text[0..] == text;
    MapParseLine(Spelt(text), TokensAt(text, 0));
  }

  // ---------------------------------------------------------------- the round trip

  /** Every word of the tree could stand in a line. */
  predicate WellSpelt(c: Cmd<string>) {
    match c
    case Exec(argv) => forall i :: 0 <= i < |argv| ==> IsWord(argv[i])
    case Redir(d, to) => WellSpelt(d) && IsWord(to.file)
    case Pipe(l, r) => WellSpelt(l) && WellSpelt(r)
    case List(l, r) => WellSpelt(l) && WellSpelt(r)
    case Back(d) => WellSpelt(d)
  }

  predicate AreTokens(ts: seq<Token<string>>) {
    forall i :: 0 <= i < |ts| ==> IsToken(ts[i])
  }

  lemma {:induction false} WordsAreTokens(argv: seq<string>)
    requires forall i :: 0 <= i < |argv| ==> IsWord(argv[i])
    ensures AreTokens(Words(argv))
  {
    if argv != [] {
      WordsAreTokens(argv[1..]);
    }
  }

  lemma {:induction false} PrintTokens(c: Cmd<string>)
    requires WellSpelt(c)
    ensures AreTokens(Print(c)) && AreTokens(Block(c))
  {
    assert AreTokens([Sym('(')]) && AreTokens([Sym(')')]) && AreTokens([Sym('|')]);
    match c {
      case Exec(argv) => WordsAreTokens(argv);
      case Redir(d, to) =>
        PrintTokens(d);
        assert AreTokens([Sym(if to.out then '>' else '<'), Word(to.file)]);
      case Pipe(l, r) => PrintTokens(l); PrintTokens(r);
      case List(l, r) => PrintTokens(l); PrintTokens(r);
      case Back(d) => PrintTokens(d);
    }
  }

  /** Writing a tree out, fully parenthesised, and parsing the text gives the tree back. */
  lemma TextRoundTrip(c: Cmd<string>)
    requires Buildable(c) && WellSpelt(c)
    ensures NUL !in Render(Print(c))
    ensures var text := Render(Print(c));
      Parse(TokensAt(text, 0)).Ok? && MapCmd(Spelt(text), Parse(TokensAt(text, 0)).cmd) == c
  {
    hide Parse, Print, Render, Lex, TokensAt, Buildable;
    PrintTokens(c);
    LexOfRender(Print(c));
    ParseOfPrint(c);
    ParseSpelt(Render(Print(c)));
  }
}
