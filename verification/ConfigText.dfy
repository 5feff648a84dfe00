/** Parsing configuration text: which texts are accepted, and that printing and parsing undo each other. */
module ConfigText {
  import opened Wrappers
  import opened ConfigSyntax
  import opened ConfigParsing
  import opened ConfigLexing

  /** The tree a text is parsed to; none when it is not a valid configuration file. */
  function ParseText(s: string): Option<Config> {
    var r := TokensOf(s);
    if r.ok then Accept(r.tokens) else None
  }

  /** A text is accepted with a tree exactly when its tokens, comments left out, are the derivation of that tree. */
  lemma ParseTextIffYield(s: string, c: Config)
    ensures ParseText(s) == Some(c) <==>
      TokensOf(s).ok && NonEmpty(c.statements) && Yield(c.statements) == TokensOf(s).tokens
  {
    AcceptIffYield(TokensOf(s).tokens, c);
  }

  predicate ValidTokens(ts: seq<Token>) { forall t <- ts :: t.Word? ==> ValidWord(t.text) }

  lemma {:induction false} WordTokensValid(ws: seq<string>)
    requires ValidTokens(WordTokens(ws))
    ensures forall w <- ws :: ValidWord(w)
  {
    if ws != [] {
      var ts := WordTokens(ws);
      assert ts[|ts| - 1] in ts && ts[|ts| - 1] == Word(ws[|ws| - 1]);
      assert forall t <- WordTokens(ws[..|ws| - 1]) :: t in ts;
      WordTokensValid(ws[..|ws| - 1]);
      assert ws == ws[..|ws| - 1] + [ws[|ws| - 1]];
    }
  }

  /** A derivation made of valid words is that of a well-formed tree. */
  lemma {:induction false} ValidYield(ss: seq<Statement>)
    requires NonEmpty(ss) && ValidTokens(Yield(ss))
    ensures forall s <- ss :: WellFormedStatement(s)
    decreases ss
  {
    if ss != [] {
      var front, s := ss[..|ss| - 1], ss[|ss| - 1];
      assert s in ss && forall x <- front :: x in ss;
      assert forall t <- Yield(front) :: t in Yield(ss);
      assert forall t <- YieldStatement(s) :: t in Yield(ss);
      ValidYield(front);
      ValidYieldStatement(s);
      assert ss == front + [s];
    }
  }

  lemma {:induction false} ValidYieldStatement(s: Statement)
    requires NonEmptyStatement(s) && ValidTokens(YieldStatement(s))
    ensures WellFormedStatement(s)
    decreases s
  {
    assert forall t <- WordTokens(s.words) :: t in YieldStatement(s);
    WordTokensValid(s.words);
    if s.Block? {
      assert forall t <- Yield(s.child.statements) :: t in YieldStatement(s);
      ValidYield(s.child.statements);
    }
  }

  lemma {:induction false} WellFormedIsNonEmpty(ss: seq<Statement>)
    requires forall s <- ss :: WellFormedStatement(s)
    ensures NonEmpty(ss)
    decreases ss
  {
    forall s | s in ss ensures NonEmptyStatement(s) {
      assert WellFormedStatement(s);
      if s.Block? {
        var child := s.child;
        assert WellFormed(child);
        WellFormedIsNonEmpty(child.statements);
      }
    }
  }

  /** An accepted tree is well formed. */
  lemma AcceptedIsWellFormed(s: string)
    requires ParseText(s).Some?
    ensures WellFormed(ParseText(s).value)
  {
    var c := ParseText(s).value;
    ParseTextIffYield(s, c);
    ValidYield(c.statements);
  }

  /** Printing a well-formed tree at any depth and parsing the text gives the tree back. */
  lemma PrintThenParse(c: Config, depth: int)
    requires WellFormed(c)
    ensures ParseText(Print(c.statements, depth)) == Some(c)
  {
    var text := Print(c.statements, depth);
    assert text + "" == text;
    PrintIsScanned(c.statements, depth, "");
    assert TokensOf("") == Scan([], true);
    assert Yield(c.statements) + [] == Yield(c.statements);
    WellFormedIsNonEmpty(c.statements);
    ParseTextIffYield(text, c);
  }

  /** Printing an accepted file is idempotent: the print is accepted, with the same tree, and prints as itself. */
  lemma ReprintIsIdempotent(s: string, depth: int)
    requires ParseText(s).Some?
    ensures var text := Print(ParseText(s).value.statements, depth);
            && ParseText(text) == ParseText(s)
            && Print(ParseText(text).value.statements, depth) == text
  {
    AcceptedIsWellFormed(s);
    PrintThenParse(ParseText(s).value, depth);
  }

  /** Two well-formed trees that print alike are the same tree. */
  lemma PrintIsInjective(a: Config, b: Config, depth: int)
    requires WellFormed(a) && WellFormed(b) && Print(a.statements, depth) == Print(b.statements, depth)
    ensures a == b
  {
    PrintThenParse(a, depth);
    PrintThenParse(b, depth);
  }

  /** A word that the input ends in is dropped: a file that is one bare word is accepted as the empty configuration. */
  lemma TrailingWordIsDropped(w: string)
    requires Bare(w)
    ensures TokensOf(w) == Scan([], true) && ParseText(w) == Some(Config([]))
  {
    assert w[0] in w && "" + [w[0]] == [w[0]];
    TrailingWordFrom([w[0]], w[1..]);
  }

  lemma {:induction false} TrailingWordFrom(v: string, u: string)
    requires Bare(v) && forall x <- u :: !EndsWord(x)
    ensures LexFrom(Normal, v, u) == Lexed(Eof, "")
    decreases |u|
  {
    if u != "" {
      assert u[0] in u;
      TrailingWordFrom(v + [u[0]], u[1..]);
    }
  }

  /** A rejected token makes the whole text rejected. */
  lemma RejectedToken(s: string, seen: seq<Token>, t: Token, rest: Scan)
    requires TokensOf(s) == Prefix(seen + [t], rest)
    requires Run(START, seen + [t]).None?
    ensures ParseText(s).None?
  {
    RunConcat(START, seen + [t], rest.tokens);
  }
}
