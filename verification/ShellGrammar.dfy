/** The shell's command language over tokens: the grammar, the parser as a function, and that they agree. */
module ShellGrammar {
  const MAXARGS: nat := 10

  /** A token as `gettoken` classifies it; `Sym('+')` is `>>`. */
  datatype Token<W> = Word(w: W) | Sym(c: char)

  /** `out` redirections open for writing on descriptor 1, the others for reading on 0. */
  datatype Redirection<W> = Redirection(file: W, out: bool)

  datatype Cmd<W> =
    | Exec(argv: seq<W>)
    | Redir(cmd: Cmd<W>, to: Redirection<W>)
    | Pipe(left: Cmd<W>, right: Cmd<W>)
    | List(left: Cmd<W>, right: Cmd<W>)
    | Back(cmd: Cmd<W>)

  datatype Panic = Syntax | MissingFile | MissingParen | TooManyArgs

  datatype Result<W> = Ok(cmd: Cmd<W>, rest: seq<Token<W>>) | Fail(why: Panic)

  datatype Redirs<W> = Got(rs: seq<Redirection<W>>, rest: seq<Token<W>>) | NoFile

  predicate StartsWith<W>(ts: seq<Token<W>>, c: char) {
    ts != [] && ts[0].Sym? && ts[0].c == c
  }

  predicate StartsRedir<W>(ts: seq<Token<W>>) {
    ts != [] && ts[0].Sym? && (ts[0].c == '<' || ts[0].c == '>' || ts[0].c == '+')
  }

  /** No simple command goes on here. */
  predicate EndsWords<W>(ts: seq<Token<W>>) {
    ts == [] || (ts[0].Sym? && (ts[0].c == '|' || ts[0].c == ')' || ts[0].c == '&' || ts[0].c == ';'))
  }

  /** `parseredirs`: redirections wrap around a command, the first innermost. */
  function Wrap<W>(c: Cmd<W>, rs: seq<Redirection<W>>): (r: Cmd<W>)
    decreases |rs|
  {
    if rs == [] then c else Wrap(Redir(c, rs[0]), rs[1..])
  }

  // ---------------------------------------------------------------- the parser

  function TakeRedirs<W>(ts: seq<Token<W>>): (r: Redirs<W>)
    ensures r.Got? ==> |r.rest| <= |ts| && !StartsRedir(r.rest)
    decreases |ts|
  {
    if !StartsRedir(ts) then Got([], ts)
    else if |ts| < 2 || !ts[1].Word? then NoFile
    else
      match TakeRedirs(ts[2..])
      case NoFile => NoFile
      case Got(rs, rest) => Got([Redirection(ts[1].w, ts[0].c != '<')] + rs, rest)
  }

  /** The loop of `parseexec`, with the words and redirections so far. */
  function ParseWords<W>(argv: seq<W>, rs: seq<Redirection<W>>, ts: seq<Token<W>>): (r: Result<W>)
    ensures r.Ok? ==> |r.rest| <= |ts|
    decreases |ts|
  {
    if EndsWords(ts) then Ok(Wrap(Exec(argv), rs), ts)
    else if !ts[0].Word? then Fail(Syntax)
    else if |argv| + 1 >= MAXARGS then Fail(TooManyArgs)
    else
      match TakeRedirs(ts[1..])
      case NoFile => Fail(MissingFile)
      case Got(more, rest) => ParseWords(argv + [ts[0].w], rs + more, rest)
  }

  function TakeBacks<W>(c: Cmd<W>, ts: seq<Token<W>>): (r: (Cmd<W>, seq<Token<W>>))
    ensures |r.1| <= |ts| && !StartsWith(r.1, '&')
    decreases |ts|
  {
    if StartsWith(ts, '&') then TakeBacks(Back(c), ts[1..]) else (c, ts)
  }

  function ParseBlock<W>(ts: seq<Token<W>>): (r: Result<W>)
    requires StartsWith(ts, '(')
    ensures r.Ok? ==> |r.rest| < |ts|
    decreases |ts|, 0
  {
    match ParseLine(ts[1..])
    case Fail(why) => Fail(why)
    case Ok(c, rest) =>
      if !StartsWith(rest, ')') then Fail(MissingParen)
      else
        match TakeRedirs(rest[1..])
        case NoFile => Fail(MissingFile)
        case Got(rs, rest') => Ok(Wrap(c, rs), rest')
  }

  function ParseExec<W>(ts: seq<Token<W>>): (r: Result<W>)
    ensures r.Ok? ==> |r.rest| <= |ts|
    decreases |ts|, 1
  {
    if StartsWith(ts, '(') then ParseBlock(ts)
    else
      match TakeRedirs(ts)
      case NoFile => Fail(MissingFile)
      case Got(rs, rest) => ParseWords([], rs, rest)
  }

  function ParsePipe<W>(ts: seq<Token<W>>): (r: Result<W>)
    ensures r.Ok? ==> |r.rest| <= |ts|
    decreases |ts|, 2
  {
    match ParseExec(ts)
    case Fail(why) => Fail(why)
    case Ok(c, rest) =>
      if !StartsWith(rest, '|') then Ok(c, rest)
      else
        match ParsePipe(rest[1..])
        case Fail(why) => Fail(why)
        case Ok(right, rest') => Ok(Pipe(c, right), rest')
  }

  function ParseLine<W>(ts: seq<Token<W>>): (r: Result<W>)
    ensures r.Ok? ==> |r.rest| <= |ts|
    decreases |ts|, 3
  {
    match ParsePipe(ts)
    case Fail(why) => Fail(why)
    case Ok(p, rest0) =>
      var (c, rest) := TakeBacks(p, rest0);
      if !StartsWith(rest, ';') then Ok(c, rest)
      else
        match ParseLine(rest[1..])
        case Fail(why) => Fail(why)
        case Ok(right, rest') => Ok(List(c, right), rest')
  }

  /** `parsecmd`: a line, and nothing left over. */
  function Parse<W>(ts: seq<Token<W>>): (r: Result<W>)
    ensures r.Ok? ==> r.rest == []
  {
    match ParseLine(ts)
    case Fail(why) => Fail(why)
    case Ok(c, rest) => if rest == [] then Ok(c, []) else Fail(Syntax)
  }

  // ---------------------------------------------------------------- the grammar

  ghost predicate IsRedirs<W(!new)>(rs: seq<Redirection<W>>, ts: seq<Token<W>>)
    decreases |ts|
  {
    if rs == [] then ts == []
    else
      && |ts| >= 2 && StartsRedir(ts) && ts[1] == Word(rs[0].file) && rs[0].out == (ts[0].c != '<')
      && IsRedirs(rs[1..], ts[2..])
  }

  /** Words and redirections in any order. */
  ghost predicate IsSimple<W(!new)>(argv: seq<W>, rs: seq<Redirection<W>>, ts: seq<Token<W>>)
    decreases |ts|
  {
    if ts == [] then argv == [] && rs == []
    else if ts[0].Word? then argv != [] && argv[0] == ts[0].w && IsSimple(argv[1..], rs, ts[1..])
    else
      && rs != [] && |ts| >= 2 && StartsRedir(ts) && ts[1] == Word(rs[0].file) && rs[0].out == (ts[0].c != '<')
      && IsSimple(argv, rs[1..], ts[2..])
  }

  ghost predicate IsBlock<W(!new)>(c: Cmd<W>, d: Cmd<W>, rs: seq<Redirection<W>>, ts: seq<Token<W>>, k: nat)
    decreases |ts|, 0
  {
    && StartsWith(ts, '(') && 1 <= k < |ts| && ts[k] == Sym(')')
    && IsLine(d, ts[1..k]) && IsRedirs(rs, ts[k + 1..]) && c == Wrap(d, rs)
  }

  ghost predicate IsExec<W(!new)>(c: Cmd<W>, ts: seq<Token<W>>)
    decreases |ts|, 1
  {
    || (exists argv, rs :: |argv| < MAXARGS && IsSimple(argv, rs, ts) && c == Wrap(Exec(argv), rs))
    || (exists d, rs, k: nat :: IsBlock(c, d, rs, ts, k))
  }

  ghost predicate IsPipe<W(!new)>(c: Cmd<W>, ts: seq<Token<W>>)
    decreases |ts|, 2
  {
    IsExec(c, ts) || (c.Pipe? && exists k: nat :: IsPipeAt(c.left, c.right, ts, k))
  }

  ghost predicate IsPipeAt<W(!new)>(l: Cmd<W>, r: Cmd<W>, ts: seq<Token<W>>, k: nat)
    decreases |ts|, 1, 1
  {
    k < |ts| && ts[k] == Sym('|') && IsExec(l, ts[..k]) && IsPipe(r, ts[k + 1..])
  }

  ghost predicate IsJob<W(!new)>(c: Cmd<W>, ts: seq<Token<W>>)
    decreases |ts|, 3
  {
    IsPipe(c, ts) || (c.Back? && ts != [] && ts[|ts| - 1] == Sym('&') && IsJob(c.cmd, ts[..|ts| - 1]))
  }

  ghost predicate IsLine<W(!new)>(c: Cmd<W>, ts: seq<Token<W>>)
    decreases |ts|, 4
  {
    IsJob(c, ts) || (c.List? && exists k: nat :: IsListAt(c.left, c.right, ts, k))
  }

  ghost predicate IsListAt<W(!new)>(l: Cmd<W>, r: Cmd<W>, ts: seq<Token<W>>, k: nat)
    decreases |ts|, 3, 1
  {
    k < |ts| && ts[k] == Sym(';') && IsJob(l, ts[..k]) && IsLine(r, ts[k + 1..])
  }

  // ---------------------------------------------------------------- what is parsed is in the grammar

  /** Two stretches of a sequence, one after the other. */
  lemma Stretches<T>(s: seq<T>, i: nat, j: nat)
    requires i + j <= |s|
    ensures s[..i + j] == s[..i] + s[i..][..j] && s[i + j..] == s[i..][j..]
  {
  }

  lemma ConsStretch<T>(s: seq<T>, n: nat)
    requires 1 + n <= |s|
    ensures s[..1 + n] == [s[0]] + s[1..][..n] && s[1 + n..] == s[1..][n..]
  {
  }

  lemma Associative<T>(a: seq<T>, b: seq<T>, c: seq<T>)
    ensures a + (b + c) == a + b + c
  {
  }

  /** Two stretches of a sequence with one element between them. */
  lemma Separated<T>(s: seq<T>, i: nat, j: nat)
    requires i + 1 + j <= |s|
    ensures s[..i + 1 + j][..i] == s[..i] && s[..i + 1 + j][i] == s[i] == s[i..][0]
    ensures s[..i + 1 + j][i + 1..] == s[i..][1..][..j] && s[i + 1 + j..] == s[i..][1..][j..]
  {
  }

  lemma {:induction false} TakeRedirsSound<W(!new)>(ts: seq<Token<W>>) returns (k: nat)
    requires TakeRedirs(ts).Got?
    ensures k <= |ts| && TakeRedirs(ts).rest == ts[k..] && IsRedirs(TakeRedirs(ts).rs, ts[..k])
    decreases |ts|
  {
    k := 0;
    if StartsRedir(ts) {
      var j := TakeRedirsSound(ts[2..]);
      k := j + 2;
      assert ts[..k][2..] == ts[2..][..j] && ts[2..][j..] == ts[k..];
    }
  }

  lemma {:induction false} RedirsThenSimple<W(!new)>(
      rs: seq<Redirection<W>>, ts: seq<Token<W>>, argv: seq<W>, more: seq<Redirection<W>>, rest: seq<Token<W>>)
    requires IsRedirs(rs, ts) && IsSimple(argv, more, rest)
    ensures IsSimple(argv, rs + more, ts + rest)
    decreases |ts|
  {
    if rs == [] {
      assert ts + rest == rest && rs + more == more;
    } else {
      RedirsThenSimple(rs[1..], ts[2..], argv, more, rest);
      assert (ts + rest)[2..] == ts[2..] + rest && (rs + more)[1..] == rs[1..] + more;
    }
  }

  lemma NoWords<W(!new)>()
    ensures IsSimple<W>([], [], [])
  {
  }

  lemma SimpleCons<W(!new)>(w: W, argv: seq<W>, rs: seq<Redirection<W>>, ts: seq<Token<W>>)
    requires IsSimple(argv, rs, ts)
    ensures IsSimple([w] + argv, rs, [Word(w)] + ts)
  {
    assert ([w] + argv)[1..] == argv && ([Word(w)] + ts)[1..] == ts;
  }

  lemma ParseWordsEnd<W(!new)>(argv: seq<W>, rs: seq<Redirection<W>>, ts: seq<Token<W>>)
    requires EndsWords(ts)
    ensures ParseWords(argv, rs, ts) == Ok(Wrap(Exec(argv), rs), ts)
  {
  }

  lemma ParseWordsStep<W(!new)>(argv: seq<W>, rs: seq<Redirection<W>>, ts: seq<Token<W>>)
    requires !EndsWords(ts) && ParseWords(argv, rs, ts).Ok?
    ensures ts != [] && ts[0].Word? && |argv| + 1 < MAXARGS && TakeRedirs(ts[1..]).Got?
    ensures ParseWords(argv, rs, ts) ==
      ParseWords(argv + [ts[0].w], rs + TakeRedirs(ts[1..]).rs, TakeRedirs(ts[1..]).rest)
  {
  }

  lemma {:induction false} ParseWordsSound<W(!new)>(argv0: seq<W>, rs0: seq<Redirection<W>>, ts: seq<Token<W>>)
    returns (argv: seq<W>, rs: seq<Redirection<W>>, k: nat)
    requires ParseWords(argv0, rs0, ts).Ok? && |argv0| < MAXARGS
    ensures k <= |ts| && ParseWords(argv0, rs0, ts).rest == ts[k..] && EndsWords(ts[k..])
    ensures |argv0| + |argv| < MAXARGS && IsSimple(argv, rs, ts[..k])
    ensures ParseWords(argv0, rs0, ts).cmd == Wrap(Exec(argv0 + argv), rs0 + rs)
    decreases |ts|
  {
    hide ParseWords, TakeRedirs, IsRedirs, Wrap, IsSimple, EndsWords;
    if EndsWords(ts) {
      argv, rs, k := [], [], 0;
      NoWords<W>();
      ParseWordsEnd(argv0, rs0, ts);
      assert argv0 + [] == argv0 && rs0 + [] == rs0;
    } else {
      ParseWordsStep(argv0, rs0, ts);
      var got := TakeRedirs(ts[1..]);
      var j := TakeRedirsSound(ts[1..]);
      var argv1, rs1, i := ParseWordsSound(argv0 + [ts[0].w], rs0 + got.rs, got.rest);
      argv, rs, k := [ts[0].w] + argv1, got.rs + rs1, 1 + j + i;
      RedirsThenSimple(got.rs, ts[1..][..j], argv1, rs1, got.rest[..i]);
      Stretches(ts[1..], j, i);
      SimpleCons(ts[0].w, argv1, rs, ts[1..][..j + i]);
      ConsStretch(ts, j + i);
      Associative(argv0, [ts[0].w], argv1);
      Associative(rs0, got.rs, rs1);
    }
  }

  lemma {:induction false} TakeBacksSound<W(!new)>(c: Cmd<W>, pre: seq<Token<W>>, ts: seq<Token<W>>) returns (k: nat)
    requires IsJob(c, pre)
    ensures k <= |ts| && TakeBacks(c, ts).1 == ts[k..] && IsJob(TakeBacks(c, ts).0, pre + ts[..k])
    decreases |ts|
  {
    k := 0;
    if StartsWith(ts, '&') {
      var job := pre + [ts[0]];
      assert job[..|job| - 1] == pre;
      var j := TakeBacksSound(Back(c), job, ts[1..]);
      k := j + 1;
      assert pre + ts[..k] == job + ts[1..][..j] && ts[1..][j..] == ts[k..];
    } else {
      assert pre + ts[..0] == pre;
    }
  }

  lemma PipeIsJob<W(!new)>(c: Cmd<W>, ts: seq<Token<W>>)
    requires IsPipe(c, ts)
    ensures IsJob(c, ts)
  {
  }

  lemma {:induction false} ParseBlockSound<W(!new)>(ts: seq<Token<W>>) returns (k: nat)
    requires StartsWith(ts, '(') && ParseBlock(ts).Ok?
    ensures k <= |ts| && ParseBlock(ts).rest == ts[k..] && IsExec(ParseBlock(ts).cmd, ts[..k])
    decreases |ts|, 0
  {
    hide TakeRedirs, IsRedirs, Wrap, IsLine, ParseLine;
    var line := ParseLine(ts[1..]);
    var i := ParseLineSound(ts[1..]);
    var got := TakeRedirs(line.rest[1..]);
    var j := TakeRedirsSound(line.rest[1..]);
    k := 1 + i + 1 + j;
    var used := ts[..k];
    assert line.rest == ts[i + 1..];
    Separated(ts, i + 1, j);
    assert used[1..i + 1] == ts[1..][..i];
    assert IsBlock(Wrap(line.cmd, got.rs), line.cmd, got.rs, used, i + 1);
  }

  lemma {:induction false} ParseExecSound<W(!new)>(ts: seq<Token<W>>) returns (k: nat)
    requires ParseExec(ts).Ok?
    ensures k <= |ts| && ParseExec(ts).rest == ts[k..] && IsExec(ParseExec(ts).cmd, ts[..k])
    decreases |ts|, 1
  {
    hide TakeRedirs, IsRedirs, IsSimple, Wrap, ParseBlock, ParseWords, IsBlock;
    if StartsWith(ts, '(') {
      k := ParseBlockSound(ts);
    } else {
      var got := TakeRedirs(ts);
      var j := TakeRedirsSound(ts);
      var argv, rs, i := ParseWordsSound([], got.rs, got.rest);
      k := j + i;
      RedirsThenSimple(got.rs, ts[..j], argv, rs, got.rest[..i]);
      Stretches(ts, j, i);
      assert [] + argv == argv;
      assert IsSimple(argv, got.rs + rs, ts[..k]);
    }
  }

  lemma {:induction false} ParsePipeSound<W(!new)>(ts: seq<Token<W>>) returns (k: nat)
    requires ParsePipe(ts).Ok?
    ensures k <= |ts| && ParsePipe(ts).rest == ts[k..] && IsPipe(ParsePipe(ts).cmd, ts[..k])
    decreases |ts|, 2
  {
    hide ParseExec, IsExec;
    k := ParseExecSound(ts);
    var left := ParseExec(ts);
    if StartsWith(left.rest, '|') {
      var j := ParsePipeSound(left.rest[1..]);
      var i := k;
      k := i + 1 + j;
      Separated(ts, i, j);
      assert IsPipeAt(left.cmd, ParsePipe(left.rest[1..]).cmd, ts[..k], i);
    }
  }

  lemma {:induction false} ParseLineSound<W(!new)>(ts: seq<Token<W>>) returns (k: nat)
    requires ParseLine(ts).Ok?
    ensures k <= |ts| && ParseLine(ts).rest == ts[k..] && IsLine(ParseLine(ts).cmd, ts[..k])
    decreases |ts|, 3
  {
    hide ParsePipe, TakeBacks, IsPipe, IsJob;
    var i := ParsePipeSound(ts);
    var p := ParsePipe(ts);
    PipeIsJob(p.cmd, ts[..i]);
    var j := TakeBacksSound(p.cmd, ts[..i], p.rest);
    var (c, rest) := TakeBacks(p.cmd, p.rest);
    k := i + j;
    Stretches(ts, i, j);
    if StartsWith(rest, ';') {
      var m := ParseLineSound(rest[1..]);
      var n := k;
      k := n + 1 + m;
      Separated(ts, n, m);
      assert IsListAt(c, ParseLine(rest[1..]).cmd, ts[..k], n);
    }
  }

  // ---------------------------------------------------------------- which redirection is where

  /** The redirections around a command, from the inside out. */
  function Around<W>(c: Cmd<W>): (rs: seq<Redirection<W>>) {
    if c.Redir? then Around(c.cmd) + [c.to] else []
  }

  function Inside<W>(c: Cmd<W>): (r: Cmd<W>) {
    if c.Redir? then Inside(c.cmd) else c
  }

  /** The redirections among the tokens of a simple command, in the order of the line. */
  function RedirsIn<W>(ts: seq<Token<W>>): (rs: seq<Redirection<W>>)
    decreases |ts|
  {
    if ts == [] then []
    else if StartsRedir(ts) && |ts| >= 2 && ts[1].Word? then [Redirection(ts[1].w, ts[0].c != '<')] + RedirsIn(ts[2..])
    else RedirsIn(ts[1..])
  }

  /** And the words that are not the file of one. */
  function WordsIn<W>(ts: seq<Token<W>>): (ws: seq<W>)
    decreases |ts|
  {
    if ts == [] then []
    else if StartsRedir(ts) && |ts| >= 2 then WordsIn(ts[2..])
    else if ts[0].Word? then [ts[0].w] + WordsIn(ts[1..])
    else WordsIn(ts[1..])
  }

  lemma {:induction false} WrapAround<W>(c: Cmd<W>, rs: seq<Redirection<W>>)
    ensures Around(Wrap(c, rs)) == Around(c) + rs && Inside(Wrap(c, rs)) == Inside(c)
    decreases |rs|
  {
    if rs != [] {
      WrapAround(Redir(c, rs[0]), rs[1..]);
      assert Around(c) + [rs[0]] + rs[1..] == Around(c) + rs;
    }
  }

  lemma {:induction false} RedirsRead<W(!new)>(rs: seq<Redirection<W>>, ts: seq<Token<W>>)
    requires IsRedirs(rs, ts)
    ensures rs == RedirsIn(ts)
    decreases |ts|
  {
    if rs != [] {
      RedirsRead(rs[1..], ts[2..]);
    }
  }

  lemma {:induction false} SimpleRead<W(!new)>(argv: seq<W>, rs: seq<Redirection<W>>, ts: seq<Token<W>>)
    requires IsSimple(argv, rs, ts)
    ensures rs == RedirsIn(ts) && argv == WordsIn(ts)
    decreases |ts|
  {
    if ts != [] {
      if ts[0].Word? {
        SimpleRead(argv[1..], rs, ts[1..]);
      } else {
        SimpleRead(argv, rs[1..], ts[2..]);
      }
    }
  }

  /** The tree of a simple command: its words, and around them its redirections, the first of the line innermost. */
  lemma ExecTree<W(!new)>(ts: seq<Token<W>>) returns (k: nat)
    requires ParseExec(ts).Ok? && !StartsWith(ts, '(')
    ensures k <= |ts| && ParseExec(ts).rest == ts[k..]
    ensures Around(ParseExec(ts).cmd) == RedirsIn(ts[..k]) && Inside(ParseExec(ts).cmd) == Exec(WordsIn(ts[..k]))
  {
    hide TakeRedirs, IsRedirs, IsSimple, Wrap, ParseWords, RedirsIn, WordsIn;
    var got := TakeRedirs(ts);
    var j := TakeRedirsSound(ts);
    var argv, rs, i := ParseWordsSound([], got.rs, got.rest);
    k := j + i;
    RedirsThenSimple(got.rs, ts[..j], argv, rs, got.rest[..i]);
    Stretches(ts, j, i);
    assert [] + argv == argv;
    SimpleRead(argv, got.rs + rs, ts[..k]);
    WrapAround(Exec(argv), got.rs + rs);
  }

  /** The tree of a block: the line in the parentheses, and around it the redirections that follow. */
  lemma BlockTree<W(!new)>(ts: seq<Token<W>>) returns (i: nat, k: nat)
    requires StartsWith(ts, '(') && ParseBlock(ts).Ok?
    ensures 1 <= i < k <= |ts| && ts[i] == Sym(')') && ParseBlock(ts).rest == ts[k..]
    ensures ParseLine(ts[1..]).Ok? && ParseLine(ts[1..]).rest == ts[i..]
    ensures Around(ParseBlock(ts).cmd) == Around(ParseLine(ts[1..]).cmd) + RedirsIn(ts[i + 1..k])
    ensures Inside(ParseBlock(ts).cmd) == Inside(ParseLine(ts[1..]).cmd)
  {
    hide TakeRedirs, IsRedirs, Wrap, IsLine, ParseLine, RedirsIn;
    var line := ParseLine(ts[1..]);
    var n := ParseLineSound(ts[1..]);
    i := n + 1;
    assert line.rest == ts[i..];
    var got := TakeRedirs(line.rest[1..]);
    var j := TakeRedirsSound(line.rest[1..]);
    k := i + 1 + j;
    assert ts[i..][1..] == ts[i + 1..] && ts[i + 1..][..j] == ts[i + 1..k] && ts[i + 1..][j..] == ts[k..];
    RedirsRead(got.rs, ts[i + 1..k]);
    WrapAround(line.cmd, got.rs);
  }

  /** The redirections as `runcmd` opens them: the outermost first. */
  function Opens<W>(c: Cmd<W>): (rs: seq<Redirection<W>>) {
    if c.Redir? then [c.to] + Opens(c.cmd) else []
  }

  lemma {:induction false} OpensBackwards<W>(c: Cmd<W>, i: nat)
    requires i < |Around(c)|
    ensures |Opens(c)| == |Around(c)| && Opens(c)[|Around(c)| - 1 - i] == Around(c)[i]
  {
    var n := |Around(c)|;
    if i < n - 1 {
      OpensBackwards(c.cmd, i);
    } else if n > 1 {
      OpensBackwards(c.cmd, 0);
    } else {
      NoneAround(c.cmd);
    }
  }

  lemma NoneAround<W>(c: Cmd<W>)
    requires Around(c) == []
    ensures Opens(c) == []
  {
    assert !c.Redir?;
  }

  /** Of the redirections of one descriptor, the first on the line is opened last, so it is the one that counts. */
  lemma FirstRedirectionCounts<W(!new)>(ts: seq<Token<W>>, k: nat, i: nat)
    requires ParseExec(ts).Ok? && !StartsWith(ts, '(') && k <= |ts| && ParseExec(ts).rest == ts[k..]
    requires i < |RedirsIn(ts[..k])| && forall j :: 0 <= j < i ==> RedirsIn(ts[..k])[j].out != RedirsIn(ts[..k])[i].out
    ensures var rs, opens := RedirsIn(ts[..k]), Opens(ParseExec(ts).cmd);
      && |opens| == |rs| && opens[|rs| - 1 - i] == rs[i]
      && forall j :: |rs| - 1 - i < j < |rs| ==> opens[j].out != rs[i].out
  {
    hide ParseExec, RedirsIn, WordsIn, Around, Opens;
    var k' := ExecTree(ts);
    assert k == |ts| - |ts[k..]| == k';
    var c := ParseExec(ts).cmd;
    var rs := RedirsIn(ts[..k]);
    OpensBackwards(c, i);
    forall j | |rs| - 1 - i < j < |rs| ensures Opens(c)[j].out != rs[i].out {
      OpensBackwards(c, |rs| - 1 - j);
    }
  }
}
