/** From characters to tokens: words with their places in the line, or with their texts. */
module ShellLexer {
  import opened ShellGrammar

  const NUL: char := '\0'

  type Text = s: string | NUL !in s

  /** Where a word stands in the line. */
  datatype Span = Span(start: nat, end: nat)

  predicate IsSpace(c: char) {
    c == ' ' || c == '\t' || c == '\r' || c == '\n' || c == '\U{000B}'
  }

  predicate IsSymbol(c: char) {
    c == '<' || c == '|' || c == '>' || c == '&' || c == ';' || c == '(' || c == ')'
  }

  predicate IsWordChar(c: char) {
    c != NUL && !IsSpace(c) && !IsSymbol(c)
  }

  // ---------------------------------------------------------------- tokens of a text

  function WordLen(s: string): (n: nat)
    ensures n <= |s| && (forall k :: 0 <= k < n ==> IsWordChar(s[k])) && (n < |s| ==> !IsWordChar(s[n]))
  {
    if s == "" || !IsWordChar(s[0]) then 0 else 1 + WordLen(s[1..])
  }

  /** The tokens of a text, with the words spelt out. */
  function Lex(s: Text): (r: seq<Token<string>>)
    decreases |s|
  {
    if s == "" then []
    else if IsSpace(s[0]) then Lex(s[1..])
    else if s[0] == '>' && |s| > 1 && s[1] == '>' then [Sym('+')] + Lex(s[2..])
    else if IsSymbol(s[0]) then [Sym(s[0])] + Lex(s[1..])
    else [Word(s[..WordLen(s)])] + Lex(s[WordLen(s)..])
  }

  /** The tokens of a line from position `p` on, with the places of the words. */
  function TokensAt(text: Text, p: nat): (r: seq<Token<Span>>)
    decreases |text| - p
  {
    if p >= |text| then []
    else if IsSpace(text[p]) then TokensAt(text, p + 1)
    else if text[p] == '>' && p + 1 < |text| && text[p + 1] == '>' then [Sym('+')] + TokensAt(text, p + 2)
    else if IsSymbol(text[p]) then [Sym(text[p])] + TokensAt(text, p + 1)
    else [Word(Span(p, p + WordLen(text[p..])))] + TokensAt(text, p + WordLen(text[p..]))
  }

  /** A place stands for a word: word characters with a separator or the end of the line after them. */
  ghost predicate SpanOk(text: Text, w: Span) {
    && w.start < w.end <= |text|
    && (forall k :: w.start <= k < w.end ==> IsWordChar(text[k]))
    && (w.end < |text| ==> !IsWordChar(text[w.end]))
  }

  lemma {:induction false} TokenSpansOk(text: Text, p: nat, w: Span)
    requires Word(w) in TokensAt(text, p)
    ensures SpanOk(text, w)
    decreases |text| - p
  {
    if p < |text| {
      if IsSpace(text[p]) {
        TokenSpansOk(text, p + 1, w);
      } else if text[p] == '>' && p + 1 < |text| && text[p + 1] == '>' {
        TokenSpansOk(text, p + 2, w);
      } else if IsSymbol(text[p]) {
        TokenSpansOk(text, p + 1, w);
      } else {
        var n := WordLen(text[p..]);
        if w == Span(p, p + n) {
          assert forall k :: p <= k < p + n ==> text[k] == text[p..][k - p];
        } else {
          TokenSpansOk(text, p + n, w);
        }
      }
    }
  }

  // ---------------------------------------------------------------- from places to texts

  function MapToken<V, W>(f: V -> W, t: Token<V>): (r: Token<W>) {
    match t
    case Word(w) => Word(f(w))
    case Sym(c) => Sym(c)
  }

  function MapTokens<V, W>(f: V -> W, ts: seq<Token<V>>): (r: seq<Token<W>>)
    ensures |r| == |ts| && forall i :: 0 <= i < |ts| ==> r[i] == MapToken(f, ts[i])
  {
    if ts == [] then [] else [MapToken(f, ts[0])] + MapTokens(f, ts[1..])
  }

  function Spelt(text: Text): (r: Span -> string) {
    (w: Span) => if w.start <= w.end <= |text| then text[w.start..w.end] else ""
  }

  lemma MapNone<V, W>(f: V -> W)
    ensures MapTokens(f, []) == []
  {
  }

  lemma MapCons<V, W>(f: V -> W, t: Token<V>, ts: seq<Token<V>>)
    ensures MapTokens(f, [t] + ts) == [MapToken(f, t)] + MapTokens(f, ts)
  {
    assert ([t] + ts)[1..] == ts;
  }

  /** The words at the places found are the words of the text. */
  lemma {:induction false} LexSpans(text: Text, p: nat)
    requires p <= |text|
    ensures MapTokens(Spelt(text), TokensAt(text, p)) == Lex(text[p..])
    decreases |text| - p
  {
    hide MapTokens, WordLen, Lex, TokensAt, Spelt;
    var f := Spelt(text);
    if p == |text| {
      MapNone(f);
      LexNothing(text);
    } else {
      LexFrom(text, p);
      TokensFrom(text, p);
      if IsSpace(text[p]) {
        LexSpans(text, p + 1);
      } else if text[p] == '>' && p + 1 < |text| && text[p + 1] == '>' {
        LexSpans(text, p + 2);
        MapCons(f, Sym('+'), TokensAt(text, p + 2));
      } else if IsSymbol(text[p]) {
        LexSpans(text, p + 1);
        MapCons(f, Sym(text[p]), TokensAt(text, p + 1));
      } else {
        var n := WordLen(text[p..]);
        LexSpans(text, p + n);
        MapCons(f, Word(Span(p, p + n)), TokensAt(text, p + n));
        SpeltAt(text, p, n);
      }
    }
  }

  lemma LexNothing(text: Text)
    ensures Lex("") == [] && TokensAt(text, |text|) == []
  {
  }

  lemma SpeltAt(text: Text, p: nat, n: nat)
    requires p + n <= |text|
    ensures Spelt(text)(Span(p, p + n)) == text[p..p + n]
  {
  }

  /** One step of `TokensAt`. */
  lemma TokensFrom(text: Text, p: nat)
    requires p < |text|
    ensures TokensAt(text, p) ==
      if IsSpace(text[p]) then TokensAt(text, p + 1)
      else if text[p] == '>' && p + 1 < |text| && text[p + 1] == '>' then [Sym('+')] + TokensAt(text, p + 2)
      else if IsSymbol(text[p]) then [Sym(text[p])] + TokensAt(text, p + 1)
      else [Word(Span(p, p + WordLen(text[p..])))] + TokensAt(text, p + WordLen(text[p..]))
  {
  }

  /** One step of `Lex` on a suffix. */
  lemma LexFrom(text: Text, p: nat)
    requires p < |text|
    ensures Lex(text[p..]) ==
      if IsSpace(text[p]) then Lex(text[p + 1..])
      else if text[p] == '>' && p + 1 < |text| && text[p + 1] == '>' then [Sym('+')] + Lex(text[p + 2..])
      else if IsSymbol(text[p]) then [Sym(text[p])] + Lex(text[p + 1..])
      else [Word(text[p..p + WordLen(text[p..])])] + Lex(text[p + WordLen(text[p..])..])
  {
    hide WordLen;
    var s := text[p..];
    var n := WordLen(s);
    assert s[1..] == text[p + 1..] && s[n..] == text[p + n..] && s[..n] == text[p..p + n];
    assert p + 1 < |text| ==> s[2..] == text[p + 2..];
  }

  // ---------------------------------------------------------------- from tokens to text

  predicate IsWord(w: string) {
    w != "" && forall k :: 0 <= k < |w| ==> IsWordChar(w[k])
  }

  predicate IsToken(t: Token<string>) {
    match t
    case Word(w) => IsWord(w)
    case Sym(c) => IsSymbol(c) || c == '+'
  }

  function Spell(t: Token<string>): (r: string) {
    match t
    case Word(w) => w
    case Sym(c) => if c == '+' then ">>" else [c]
  }

  /** Tokens written out, each with a space after it. */
  function Render(ts: seq<Token<string>>): (r: string) {
    if ts == [] then "" else Spell(ts[0]) + " " + Render(ts[1..])
  }

  lemma {:induction false} RenderText(ts: seq<Token<string>>)
    requires forall i :: 0 <= i < |ts| ==> IsToken(ts[i])
    ensures NUL !in Render(ts)
  {
    if ts != [] {
      RenderText(ts[1..]);
      assert ts[0].Word? ==> NUL !in ts[0].w;
    }
  }

  lemma {:induction false} WordLenOf(w: string, rest: string)
    requires (forall k :: 0 <= k < |w| ==> IsWordChar(w[k])) && (rest == "" || !IsWordChar(rest[0]))
    ensures WordLen(w + rest) == |w|
  {
    if w != "" {
      assert (w + rest)[1..] == w[1..] + rest;
      WordLenOf(w[1..], rest);
    }
  }

  /** Reading what was written gives the same tokens. */
  lemma {:induction false} LexOfRender(ts: seq<Token<string>>)
    requires forall i :: 0 <= i < |ts| ==> IsToken(ts[i])
    ensures NUL !in Render(ts) && Lex(Render(ts)) == ts
  {
    RenderText(ts);
    if ts != [] {
      LexOfRender(ts[1..]);
      var rest := Render(ts[1..]);
      LexOne(ts[0], rest);
      assert ts == [ts[0]] + ts[1..];
    }
  }

  lemma LexOne(t: Token<string>, rest: Text)
    requires IsToken(t)
    ensures NUL !in Spell(t) + " " + rest && Lex(Spell(t) + " " + rest) == [t] + Lex(rest)
  {
    var tail := " " + rest;
    var s := Spell(t) + " " + rest;
    assert s == Spell(t) + tail;
    assert tail[1..] == rest;
    assert NUL !in Spell(t);
    assert Lex(tail) == Lex(rest);
    match t {
      case Word(w) =>
        WordLenOf(w, tail);
        assert s[..|w|] == w && s[|w|..] == tail && IsWordChar(s[0]);
      case Sym(c) =>
        if c == '+' {
          assert s[2..] == tail;
        } else {
          assert s[1..] == tail && s[1] == ' ';
        }
    }
  }
}
