/** Everything in the shell's grammar is parsed, and trees survive printing. */
module ShellComplete {
  import opened ShellGrammar

  lemma {:induction false} TakeRedirsComplete<W(!new)>(rs: seq<Redirection<W>>, ts: seq<Token<W>>, rest: seq<Token<W>>)
    requires IsRedirs(rs, ts) && !StartsRedir(rest)
    ensures TakeRedirs(ts + rest) == Got(rs, rest)
    decreases |ts|
  {
    if rs == [] {
      assert ts + rest == rest;
    } else {
      TakeRedirsComplete(rs[1..], ts[2..], rest);
      assert (ts + rest)[2..] == ts[2..] + rest && rs == [rs[0]] + rs[1..];
    }
  }

  /** The redirections that a simple command starts with are taken off its front. */
  lemma {:induction false} TakeRedirsSimple<W(!new)>(
      argv: seq<W>, rs: seq<Redirection<W>>, ts: seq<Token<W>>, rest: seq<Token<W>>) returns (j: nat)
    requires IsSimple(argv, rs, ts) && !StartsRedir(rest)
    ensures j <= |rs| && 2 * j <= |ts| && TakeRedirs(ts + rest) == Got(rs[..j], ts[2 * j..] + rest)
    ensures IsSimple(argv, rs[j..], ts[2 * j..]) && !StartsRedir(ts[2 * j..] + rest)
    decreases |ts|
  {
    j := 0;
    if StartsRedir(ts + rest) {
      assert ts == [] ==> ts + rest == rest;
      assert (ts + rest)[2..] == ts[2..] + rest;
      var i := TakeRedirsSimple(argv, rs[1..], ts[2..], rest);
      j := i + 1;
      assert rs[..j] == [rs[0]] + rs[1..][..i] && rs[1..][i..] == rs[j..] && ts[2..][2 * i..] == ts[2 * j..];
    } else {
      assert ts[0..] == ts && rs[0..] == rs;
    }
  }

  lemma ParseWordsTakes<W(!new)>(argv: seq<W>, rs: seq<Redirection<W>>, ts: seq<Token<W>>)
    requires ts != [] && ts[0].Word? && |argv| + 1 < MAXARGS && TakeRedirs(ts[1..]).Got?
    ensures ParseWords(argv, rs, ts) ==
      ParseWords(argv + [ts[0].w], rs + TakeRedirs(ts[1..]).rs, TakeRedirs(ts[1..]).rest)
  {
  }

  lemma {:induction false} ParseWordsComplete<W(!new)>(
      argv0: seq<W>, rs0: seq<Redirection<W>>, argv: seq<W>, rs: seq<Redirection<W>>, ts: seq<Token<W>>,
      rest: seq<Token<W>>)
    requires IsSimple(argv, rs, ts) && EndsWords(rest) && !StartsRedir(ts + rest) && |argv0| + |argv| < MAXARGS
    ensures ParseWords(argv0, rs0, ts + rest) == Ok(Wrap(Exec(argv0 + argv), rs0 + rs), rest)
    decreases |ts|
  {
    hide ParseWords, TakeRedirs, Wrap;
    if ts == [] {
      assert ts + rest == rest && argv0 + argv == argv0 && rs0 + rs == rs0;
      ParseWordsEnd(argv0, rs0, rest);
    } else {
      var w := ts[0].w;
      assert (ts + rest)[1..] == ts[1..] + rest && (ts + rest)[0] == ts[0];
      var j := TakeRedirsSimple(argv[1..], rs, ts[1..], rest);
      ParseWordsTakes(argv0, rs0, ts + rest);
      ParseWordsComplete(argv0 + [w], rs0 + rs[..j], argv[1..], rs[j..], ts[1..][2 * j..], rest);
      Associative(argv0, [w], argv[1..]);
      Associative(rs0, rs[..j], rs[j..]);
      assert [w] + argv[1..] == argv && rs[..j] + rs[j..] == rs;
    }
  }

  lemma SimpleStart<W(!new)>(argv: seq<W>, rs: seq<Redirection<W>>, ts: seq<Token<W>>, rest: seq<Token<W>>)
    requires IsSimple(argv, rs, ts) && EndsWords(rest)
    ensures !StartsWith(ts + rest, '(')
  {
    assert ts == [] ==> ts + rest == rest;
  }

  lemma SimpleComplete<W(!new)>(argv: seq<W>, rs: seq<Redirection<W>>, ts: seq<Token<W>>, rest: seq<Token<W>>)
    requires |argv| < MAXARGS && IsSimple(argv, rs, ts) && EndsWords(rest)
    ensures ParseExec(ts + rest) == Ok(Wrap(Exec(argv), rs), rest)
  {
    SimpleStart(argv, rs, ts, rest);
    hide ParseWords, TakeRedirs, Wrap, IsSimple;
    var j := TakeRedirsSimple(argv, rs, ts, rest);
    ParseWordsComplete([], rs[..j], argv, rs[j..], ts[2 * j..], rest);
    assert [] + argv == argv && rs[..j] + rs[j..] == rs;
  }

  lemma {:induction false} BlockComplete<W(!new)>(
      c: Cmd<W>, d: Cmd<W>, rs: seq<Redirection<W>>, ts: seq<Token<W>>, k: nat, rest: seq<Token<W>>)
    requires IsBlock(c, d, rs, ts, k) && !StartsRedir(rest)
    ensures ParseExec(ts + rest) == Ok(c, rest)
    decreases |ts|, 0
  {
    var all := ts + rest;
    var close := ts[k..] + rest;
    LineComplete(d, ts[1..k], close);
    assert all[1..] == ts[1..k] + close;
    assert close[1..] == ts[k + 1..] + rest;
    TakeRedirsComplete(rs, ts[k + 1..], rest);
    hide ParseLine, TakeRedirs, Wrap, IsLine, IsRedirs;
    assert ParseBlock(all) == Ok(c, rest);
  }

  lemma {:induction false} ExecComplete<W(!new)>(c: Cmd<W>, ts: seq<Token<W>>, rest: seq<Token<W>>)
    requires IsExec(c, ts) && EndsWords(rest)
    ensures ParseExec(ts + rest) == Ok(c, rest)
    decreases |ts|, 1
  {
    hide ParseExec, IsSimple, IsBlock, Wrap;
    if argv, rs :| |argv| < MAXARGS && IsSimple(argv, rs, ts) && c == Wrap(Exec(argv), rs) {
      SimpleComplete(argv, rs, ts, rest);
    } else {
      var d, rs, k: nat :| IsBlock(c, d, rs, ts, k);
      BlockComplete(c, d, rs, ts, k, rest);
    }
  }

  lemma {:induction false} PipeComplete<W(!new)>(c: Cmd<W>, ts: seq<Token<W>>, rest: seq<Token<W>>)
    requires IsPipe(c, ts) && EndsWords(rest) && !StartsWith(rest, '|')
    ensures ParsePipe(ts + rest) == Ok(c, rest)
    decreases |ts|, 2
  {
    hide ParseExec, IsExec;
    if IsExec(c, ts) {
      ExecComplete(c, ts, rest);
    } else {
      var k: nat :| IsPipeAt(c.left, c.right, ts, k);
      ExecComplete(c.left, ts[..k], ts[k..] + rest);
      PipeComplete(c.right, ts[k + 1..], rest);
      assert ts + rest == ts[..k] + (ts[k..] + rest);
      assert (ts[k..] + rest)[1..] == ts[k + 1..] + rest;
    }
  }

  /** What `parseline` has before it looks for a semicolon. */
  function Job<W>(ts: seq<Token<W>>): (r: Result<W>) {
    match ParsePipe(ts)
    case Fail(why) => Fail(why)
    case Ok(p, rest) => Ok(TakeBacks(p, rest).0, TakeBacks(p, rest).1)
  }

  lemma {:induction false} JobComplete<W(!new)>(c: Cmd<W>, ts: seq<Token<W>>, rest: seq<Token<W>>)
    requires IsJob(c, ts) && EndsWords(rest) && !StartsWith(rest, '|')
    ensures Job(ts + rest) == Ok(TakeBacks(c, rest).0, TakeBacks(c, rest).1)
    decreases |ts|, 3
  {
    if IsPipe(c, ts) {
      PipeComplete(c, ts, rest);
    } else {
      hide ParsePipe, IsPipe;
      var n := |ts| - 1;
      JobComplete(c.cmd, ts[..n], [Sym('&')] + rest);
      assert ts + rest == ts[..n] + ([Sym('&')] + rest);
      assert ([Sym('&')] + rest)[1..] == rest;
    }
  }

  lemma {:induction false} LineComplete<W(!new)>(c: Cmd<W>, ts: seq<Token<W>>, rest: seq<Token<W>>)
    requires IsLine(c, ts) && (rest == [] || StartsWith(rest, ')'))
    ensures ParseLine(ts + rest) == Ok(c, rest)
    decreases |ts|, 4
  {
    hide ParsePipe, IsJob;
    if IsJob(c, ts) {
      JobComplete(c, ts, rest);
    } else {
      var k: nat :| IsListAt(c.left, c.right, ts, k);
      JobComplete(c.left, ts[..k], ts[k..] + rest);
      LineComplete(c.right, ts[k + 1..], rest);
      assert ts + rest == ts[..k] + (ts[k..] + rest);
      assert (ts[k..] + rest)[1..] == ts[k + 1..] + rest;
    }
  }

  /** The parser accepts exactly the grammar, and the tree is the one the grammar gives. */
  lemma ParseExact<W(!new)>(ts: seq<Token<W>>, c: Cmd<W>)
    ensures Parse(ts) == Ok(c, []) <==> IsLine(c, ts)
  {
    hide ParseLine, IsLine;
    if IsLine(c, ts) {
      LineComplete(c, ts, []);
      assert ts + [] == ts;
    }
    if Parse(ts) == Ok(c, []) {
      var k := ParseLineSound(ts);
      assert ts[..k] == ts;
    }
  }

  // ---------------------------------------------------------------- printing

  /** A tree the parser can build: no simple command of ten words or more. */
  predicate Buildable<W>(c: Cmd<W>) {
    match c
    case Exec(argv) => |argv| < MAXARGS
    case Redir(d, _) => Buildable(d)
    case Pipe(l, r) => Buildable(l) && Buildable(r)
    case List(l, r) => Buildable(l) && Buildable(r)
    case Back(d) => Buildable(d)
  }

  function Words<W>(argv: seq<W>): (r: seq<Token<W>>) {
    if argv == [] then [] else [Word(argv[0])] + Words(argv[1..])
  }

  function Block<W>(c: Cmd<W>): (r: seq<Token<W>>)
    decreases c, 1
  {
    [Sym('(')] + Print(c) + [Sym(')')]
  }

  /** The fully parenthesised form. */
  function Print<W>(c: Cmd<W>): (r: seq<Token<W>>)
    decreases c, 0
  {
    match c
    case Exec(argv) => Words(argv)
    case Redir(d, to) => Block(d) + [Sym(if to.out then '>' else '<'), Word(to.file)]
    case Pipe(l, r) => Block(l) + [Sym('|')] + Block(r)
    case List(l, r) => Block(l) + [Sym(';')] + Block(r)
    case Back(d) => Block(d) + [Sym('&')]
  }

  lemma {:induction false} WordsAreSimple<W(!new)>(argv: seq<W>)
    ensures IsSimple(argv, [], Words(argv))
  {
    if argv != [] {
      WordsAreSimple(argv[1..]);
    }
  }

  lemma BlockIsExec<W(!new)>(c: Cmd<W>)
    requires IsLine(c, Print(c))
    ensures IsExec(c, Block(c))
  {
    hide IsLine, Print;
    var ts := Block(c);
    var k := |ts| - 1;
    assert ts[1..k] == Print(c) && ts[k + 1..] == [];
    assert IsBlock(c, c, [], ts, k);
  }

  lemma RedirIsExec<W(!new)>(c: Cmd<W>, to: Redirection<W>)
    requires IsLine(c, Print(c))
    ensures IsExec(Redir(c, to), Print(Redir(c, to)))
  {
    hide IsLine;
    var tail := [Sym(if to.out then '>' else '<'), Word(to.file)];
    var ts := Block(c) + tail;
    var k := |Block(c)| - 1;
    assert ts[1..k] == Print(c) && ts[k + 1..] == tail;
    assert tail[2..] == [] && [to][1..] == [];
    assert IsRedirs([to], tail);
    assert Wrap(c, [to]) == Redir(c, to);
    assert IsBlock(Redir(c, to), c, [to], ts, k);
  }

  lemma {:induction false} PrintIsLine<W(!new)>(c: Cmd<W>)
    requires Buildable(c)
    ensures IsLine(c, Print(c))
  {
    hide IsExec, IsPipe, IsJob, Block;
    match c {
      case Exec(argv) =>
        WordsAreExec(argv);
        ExecIsLine(c, Print(c));
      case Redir(d, to) =>
        PrintIsLine(d);
        RedirIsExec(d, to);
        ExecIsLine(c, Print(c));
      case Pipe(l, r) =>
        PrintIsLine(l);
        PrintIsLine(r);
        PipeIsLine(l, r);
      case List(l, r) =>
        PrintIsLine(l);
        PrintIsLine(r);
        ListIsLine(l, r);
      case Back(d) =>
        PrintIsLine(d);
        BackIsLine(d);
    }
  }

  lemma WordsAreExec<W(!new)>(argv: seq<W>)
    requires |argv| < MAXARGS
    ensures IsExec(Exec(argv), Words(argv))
  {
    WordsAreSimple(argv);
    assert Wrap(Exec(argv), []) == Exec(argv);
  }

  lemma ExecIsLine<W(!new)>(c: Cmd<W>, ts: seq<Token<W>>)
    requires IsExec(c, ts)
    ensures IsPipe(c, ts) && IsJob(c, ts) && IsLine(c, ts)
  {
    hide IsExec;
  }

  lemma PipeIsLine<W(!new)>(l: Cmd<W>, r: Cmd<W>)
    requires IsLine(l, Print(l)) && IsLine(r, Print(r))
    ensures IsLine(Pipe(l, r), Print(Pipe(l, r)))
  {
    BlockIsExec(l);
    BlockIsExec(r);
    hide IsExec, Block;
    PairAt(Block(l), Sym('|'), Block(r));
    ExecIsLine(r, Block(r));
    assert IsPipeAt(l, r, Print(Pipe(l, r)), |Block(l)|);
    assert IsPipe(Pipe(l, r), Print(Pipe(l, r)));
    PipeIsJob(Pipe(l, r), Print(Pipe(l, r)));
  }

  lemma ListIsLine<W(!new)>(l: Cmd<W>, r: Cmd<W>)
    requires IsLine(l, Print(l)) && IsLine(r, Print(r))
    ensures IsLine(List(l, r), Print(List(l, r)))
  {
    BlockIsExec(l);
    BlockIsExec(r);
    hide IsExec, IsPipe, IsJob, Block;
    PairAt(Block(l), Sym(';'), Block(r));
    ExecIsLine(l, Block(l));
    ExecIsLine(r, Block(r));
    assert IsListAt(l, r, Print(List(l, r)), |Block(l)|);
  }

  lemma BackIsLine<W(!new)>(d: Cmd<W>)
    requires IsLine(d, Print(d))
    ensures IsLine(Back(d), Print(Back(d)))
  {
    BlockIsExec(d);
    hide IsExec, IsPipe, Block;
    ExecIsLine(d, Block(d));
    assert Print(Back(d))[..|Print(Back(d))| - 1] == Block(d);
  }

  lemma PairAt<T>(a: seq<T>, x: T, b: seq<T>)
    ensures (a + [x] + b)[..|a|] == a && (a + [x] + b)[|a|] == x && (a + [x] + b)[|a| + 1..] == b
  {
  }

  /** Parsing the print of a tree gives the tree back, for every tree the parser can build and no other. */
  lemma ParseOfPrint<W(!new)>(c: Cmd<W>)
    ensures Buildable(c) ==> Parse(Print(c)) == Ok(c, [])
    ensures Buildable(c) <==> exists ts :: Parse(ts) == Ok(c, [])
  {
    hide Parse, IsLine, Print;
    if Buildable(c) {
      PrintIsLine(c);
      ParseExact(Print(c), c);
    }
    forall ts | Parse(ts) == Ok(c, []) ensures Buildable(c) {
      ParseExact(ts, c);
      LineBuildable(c, ts);
    }
  }

  lemma {:induction false} WrapBuildable<W(!new)>(c: Cmd<W>, rs: seq<Redirection<W>>)
    ensures Buildable(Wrap(c, rs)) == Buildable(c)
    decreases |rs|
  {
    if rs != [] {
      WrapBuildable(Redir(c, rs[0]), rs[1..]);
    }
  }

  lemma {:induction false} ExecBuildable<W(!new)>(c: Cmd<W>, ts: seq<Token<W>>)
    requires IsExec(c, ts)
    ensures Buildable(c)
    decreases |ts|, 1
  {
    hide IsSimple, Wrap, Buildable;
    if argv, rs :| |argv| < MAXARGS && IsSimple(argv, rs, ts) && c == Wrap(Exec(argv), rs) {
      WrapBuildable(Exec(argv), rs);
      ShortBuildable(argv);
    } else {
      var d, rs, k: nat :| IsBlock(c, d, rs, ts, k);
      LineBuildable(d, ts[1..k]);
      WrapBuildable(d, rs);
    }
  }

  lemma ShortBuildable<W(!new)>(argv: seq<W>)
    requires |argv| < MAXARGS
    ensures Buildable(Exec(argv))
  {
  }

  lemma {:induction false} PipeBuildable<W(!new)>(c: Cmd<W>, ts: seq<Token<W>>)
    requires IsPipe(c, ts)
    ensures Buildable(c)
    decreases |ts|, 2
  {
    hide IsExec;
    if IsExec(c, ts) {
      ExecBuildable(c, ts);
    } else {
      var k: nat :| IsPipeAt(c.left, c.right, ts, k);
      ExecBuildable(c.left, ts[..k]);
      PipeBuildable(c.right, ts[k + 1..]);
    }
  }

  lemma {:induction false} JobBuildable<W(!new)>(c: Cmd<W>, ts: seq<Token<W>>)
    requires IsJob(c, ts)
    ensures Buildable(c)
    decreases |ts|, 3
  {
    hide IsPipe;
    if IsPipe(c, ts) {
      PipeBuildable(c, ts);
    } else {
      JobBuildable(c.cmd, ts[..|ts| - 1]);
    }
  }

  lemma {:induction false} LineBuildable<W(!new)>(c: Cmd<W>, ts: seq<Token<W>>)
    requires IsLine(c, ts)
    ensures Buildable(c)
    decreases |ts|, 4
  {
    hide IsJob;
    if IsJob(c, ts) {
      JobBuildable(c, ts);
    } else {
      var k: nat :| IsListAt(c.left, c.right, ts, k);
      JobBuildable(c.left, ts[..k]);
      LineBuildable(c.right, ts[k + 1..]);
    }
  }
}
