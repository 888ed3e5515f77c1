/** The shell's recursive-descent parser, moving a cursor through a line. */
module ShellParser {
  import opened ShellGrammar
  import opened ShellLexer

  /** A command, or the panic that ends the parse. */
  datatype Outcome = Parsed(cmd: Cmd<Span>) | Panics(why: Panic)

  /** The outcome and the tokens left are those of the parser on tokens. */
  ghost predicate Agrees(o: Outcome, left: seq<Token<Span>>, r: Result<Span>) {
    match r
    case Fail(why) => o == Panics(why)
    case Ok(c, rest) => o == Parsed(c) && left == rest
  }

  /** The code `gettoken` returns for a token. */
  function Code(t: Token<Span>): (r: char) {
    match t
    case Word(_) => 'a'
    case Sym(c) => c
  }

  /** A non-blank character tells how the next token starts. */
  lemma FirstToken(text: Text, p: nat)
    requires p < |text| && !IsSpace(text[p])
    ensures TokensAt(text, p) != []
    ensures TokensAt(text, p)[0].Word? <==> !IsSymbol(text[p])
    ensures TokensAt(text, p)[0].Sym? ==>
      TokensAt(text, p)[0].c == text[p] || (TokensAt(text, p)[0].c == '+' && text[p] == '>')
    ensures StartsRedir(TokensAt(text, p)) <==> text[p] == '<' || text[p] == '>'
  {
    assert NUL !in text && text[p] in text;
  }

  class Parser {
    const text: Text
    var s: nat

    constructor (text: Text)
      ensures this.text == text && s == 0 && Valid()
    {
      this.text := text;
      s := 0;
    }

    ghost predicate Valid()
      reads this
    {
      s <= |text|
    }

    ghost function Left(): (r: seq<Token<Span>>)
      reads this
    {
      TokensAt(text, s)
    }

    function Char(): (r: char)
      reads this
    {
      if s < |text| then text[s] else NUL
    }

    method SkipSpace()
      requires Valid()
      modifies this
      ensures Valid() && Left() == old(Left()) && !IsSpace(Char())
    {
      while s < |text| && IsSpace(text[s])
        invariant Valid() && Left() == old(Left())
        decreases |text| - s
      {
        s := s + 1;
      }
    }

    method ScanWord()
      requires s < |text|
      modifies this
      ensures s == old(s) + WordLen(text[old(s)..]) && Valid()
    {
      ghost var rest := text[s..];
      ghost var n := WordLen(rest);
      while s < |text| && !IsSpace(text[s]) && !IsSymbol(text[s])
        invariant old(s) <= s <= old(s) + n
        decreases |text| - s
      {
        assert text[s] in text && text[s] == rest[s - old(s)];
        s := s + 1;
      }
      assert s < |text| ==> text[s] == rest[s - old(s)];
    }

    method GetToken() returns (ret: char, q: nat, eq: nat)
      requires Valid()
      modifies this
      ensures Valid()
      ensures old(Left()) == [] ==> ret == NUL && Left() == []
      ensures old(Left()) != [] ==> ret == Code(old(Left())[0]) && Left() == old(Left())[1..]
      ensures old(Left()) != [] && old(Left())[0].Word? ==> old(Left())[0].w == Span(q, eq)
      ensures old(Left()) != [] && old(Left())[0].Sym? ==> ret != 'a' && ret != NUL
    {
      SkipSpace();
      assert s < |text| ==> text[s] in text;
      q := s;
      ret := Char();
      if ret == NUL {
      } else if ret == '|' || ret == '(' || ret == ')' || ret == ';' || ret == '&' || ret == '<' {
        s := s + 1;
      } else if ret == '>' {
        s := s + 1;
        if Char() == '>' {
          ret := '+';
          s := s + 1;
        }
      } else {
        ret := 'a';
        ScanWord();
      }
      eq := s;
      SkipSpace();
    }

    method Peek(toks: string) returns (found: bool)
      requires Valid()
      modifies this
      ensures Valid() && Left() == old(Left()) && !IsSpace(Char())
      ensures found <==> s < |text| && text[s] in toks
    {
      SkipSpace();
      assert s < |text| ==> text[s] in text;
      found := Char() != NUL && Char() in toks;
    }

    /** `peek` for a single symbol that begins no longer one. */
    method PeekSymbol(c: char) returns (found: bool)
      requires Valid() && IsSymbol(c) && c != '>'
      modifies this
      ensures Valid() && Left() == old(Left()) && (found <==> StartsWith(Left(), c))
    {
      found := Peek([c]);
      if s < |text| {
        FirstToken(text, s);
      }
    }

    /** `parseredirs`: collects the redirections, which `Wrap` puts around the command. */
    method ParseRedirs() returns (ok: bool, rs: seq<Redirection<Span>>)
      requires Valid()
      modifies this
      ensures Valid() && ok == TakeRedirs(old(Left())).Got?
      ensures ok ==> rs == TakeRedirs(old(Left())).rs && Left() == TakeRedirs(old(Left())).rest
    {
      rs := [];
      var more := PeekRedir();
      while more
        invariant Valid() && more == StartsRedir(Left())
        invariant TakeRedirs(old(Left())) == Before(rs, TakeRedirs(Left()))
        decreases |Left()|
      {
        ghost var ts := Left();
        var tok, _, _ := GetToken();
        var tok2, q, eq := GetToken();
        if tok2 != 'a' {
          return false, rs;
        }
        rs := rs + [Redirection(Span(q, eq), tok != '<')];
        assert ts[2..] == ts[1..][1..];
        Associative(rs[..|rs| - 1], [rs[|rs| - 1]], if TakeRedirs(ts[2..]).Got? then TakeRedirs(ts[2..]).rs else []);
        more := PeekRedir();
      }
      ok := true;
    }

    method PeekRedir() returns (found: bool)
      requires Valid()
      modifies this
      ensures Valid() && Left() == old(Left()) && found == StartsRedir(Left())
    {
      found := Peek("<>");
      if s < |text| {
        FirstToken(text, s);
      }
    }

    method PeekEnd() returns (found: bool)
      requires Valid()
      modifies this
      ensures Valid() && Left() == old(Left()) && (found || Left() == [] <==> EndsWords(Left()))
    {
      found := Peek("|)&;");
      if s < |text| {
        FirstToken(text, s);
      }
    }

    method ParseExec() returns (o: Outcome)
      requires Valid()
      modifies this
      ensures Valid() && Agrees(o, Left(), ShellGrammar.ParseExec(old(Left())))
      decreases |Left()|, 1
    {
      hide TakeRedirs, ParseWords, ShellGrammar.ParseBlock;
      var block := PeekSymbol('(');
      if block {
        o := ParseBlock();
        return;
      }
      var ok, rs := ParseRedirs();
      if !ok {
        return Panics(MissingFile);
      }
      o := ParseArgs(rs);
    }

    /** The loop of `parseexec`. */
    method ParseArgs(redirs: seq<Redirection<Span>>) returns (o: Outcome)
      requires Valid()
      modifies this
      ensures Valid() && Agrees(o, Left(), ParseWords([], redirs, old(Left())))
    {
      hide TakeRedirs, Wrap;
      var argv, rs := [], redirs;
      var end := PeekEnd();
      while !end
        invariant Valid() && (end || Left() == [] <==> EndsWords(Left()))
        invariant ParseWords([], redirs, old(Left())) == ParseWords(argv, rs, Left())
        decreases |Left()|, !end
      {
        ghost var ts := Left();
        var tok, q, eq := GetToken();
        if tok == NUL {
          break;
        }
        if tok != 'a' {
          return Panics(Syntax);
        }
        if |argv| + 1 >= MAXARGS {
          return Panics(TooManyArgs);
        }
        var ok, more := ParseRedirs();
        if !ok {
          return Panics(MissingFile);
        }
        argv, rs := argv + [Span(q, eq)], rs + more;
        end := PeekEnd();
      }
      o := Parsed(Wrap(Exec(argv), rs));
    }

    method ParseBlock() returns (o: Outcome)
      requires Valid() && StartsWith(Left(), '(')
      modifies this
      ensures Valid() && Agrees(o, Left(), ShellGrammar.ParseBlock(old(Left())))
      decreases |Left()|, 0
    {
      hide TakeRedirs, ShellGrammar.ParseLine;
      var open, _, _ := GetToken();
      o := ParseLine();
      if o.Panics? {
        return;
      }
      var close := PeekSymbol(')');
      if !close {
        return Panics(MissingParen);
      }
      var tok, _, _ := GetToken();
      var ok, rs := ParseRedirs();
      o := if ok then Parsed(Wrap(o.cmd, rs)) else Panics(MissingFile);
    }

    method ParsePipe() returns (o: Outcome)
      requires Valid()
      modifies this
      ensures Valid() && Agrees(o, Left(), ShellGrammar.ParsePipe(old(Left())))
      decreases |Left()|, 2
    {
      hide ShellGrammar.ParseExec;
      o := ParseExec();
      if o.Panics? {
        return;
      }
      var bar := PeekSymbol('|');
      if bar {
        var tok, _, _ := GetToken();
        var right := ParsePipe();
        o := if right.Panics? then right else Parsed(Pipe(o.cmd, right.cmd));
      }
    }

    method ParseLine() returns (o: Outcome)
      requires Valid()
      modifies this
      ensures Valid() && Agrees(o, Left(), ShellGrammar.ParseLine(old(Left())))
      decreases |Left()|, 3
    {
      hide ShellGrammar.ParsePipe;
      o := ParsePipe();
      if o.Panics? {
        return;
      }
      ghost var p, rest := o.cmd, Left();
      var back := PeekSymbol('&');
      while back
        invariant Valid() && o.Parsed? && back == StartsWith(Left(), '&')
        invariant TakeBacks(p, rest) == TakeBacks(o.cmd, Left()) && |Left()| <= |rest|
        decreases |Left()|
      {
        var tok, _, _ := GetToken();
        o := Parsed(Back(o.cmd));
        back := PeekSymbol('&');
      }
      var semi := PeekSymbol(';');
      if semi {
        var tok, _, _ := GetToken();
        var right := ParseLine();
        o := if right.Panics? then right else Parsed(List(o.cmd, right.cmd));
      }
    }

    /** `parsecmd` up to its last step: a whole line, nothing left over. */
    method ParseAll() returns (o: Outcome)
      requires s == 0
      modifies this
      ensures match Parse(TokensAt(text, 0))
        case Ok(c, _) => o == Parsed(c)
        case Fail(why) => o == Panics(why)
    {
      hide ShellGrammar.ParseLine;
      o := ParseLine();
      if o.Panics? {
        return;
      }
      var _ := Peek("");
      if s < |text| {
        FirstToken(text, s);
        o := Panics(Syntax);
      }
    }
  }

  ghost function Before(rs: seq<Redirection<Span>>, r: Redirs<Span>): (res: Redirs<Span>) {
    if r.Got? then Got(rs + r.rs, r.rest) else NoFile
  }
}
