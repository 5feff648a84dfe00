/**
  Splitting configuration text into tokens, byte by byte, and why what the
  printer writes is split into the tokens of the tree it was given.
 */
module ConfigLexing {
  import opened ConfigSyntax

  datatype LexState = InitialWhitespace | SingleQuote | DoubleQuote | InComment | Normal

  datatype Lexed = Lexed(token: Token, rest: string)

  /** What has been read of a token fits the state. */
  predicate Begun(state: LexState, value: string) {
    match state
    case InitialWhitespace => value == ""
    case SingleQuote => value != "" && value[0] == '\'' && '\'' !in value[1..]
    case DoubleQuote => value != "" && value[0] == '"' && '"' !in value[1..]
    case InComment => true
    case Normal => Bare(value)
  }

  /** The next token from a state on, and the text after it. */
  function LexFrom(state: LexState, value: string, s: string): (r: Lexed)
    requires Begun(state, value)
    ensures |r.rest| <= |s|
    ensures state == InitialWhitespace && !r.token.Eof? && !r.token.Error? ==> |r.rest| < |s|
    ensures r.token.Word? ==> ValidWord(r.token.text)
    decreases |s|
  {
    if s == "" then Lexed(if state == SingleQuote || state == DoubleQuote then Error else Eof, "")
    else
      var c, t := s[0], s[1..];
      match state
      case InitialWhitespace =>
        if c == '{' then Lexed(StartBlock, t)
        else if c == '}' then Lexed(EndBlock, t)
        else if c == '#' then LexFrom(InComment, [c], t)
        else if c == '"' then LexFrom(DoubleQuote, [c], t)
        else if c == '\'' then LexFrom(SingleQuote, [c], t)
        else if c == ';' then Lexed(StatementEnd, t)
        else if IsBlank(c) then LexFrom(InitialWhitespace, value, t)
        else LexFrom(Normal, value + [c], t)
      case SingleQuote =>
        if c == '\'' then Lexed(Word(value + [c]), t) else LexFrom(SingleQuote, value + [c], t)
      case DoubleQuote =>
        if c == '"' then Lexed(Word(value + [c]), t) else LexFrom(DoubleQuote, value + [c], t)
      case InComment =>
        if c == '\n' || c == '\r' then Lexed(Comment, t) else LexFrom(InComment, value + [c], t)
      case Normal =>
        if EndsWord(c) then Lexed(Word(value), s) else LexFrom(Normal, value + [c], t)
  }

  function Lex(s: string): Lexed { LexFrom(InitialWhitespace, "", s) }

  /** Every token but the end of input takes at least one byte. */
  lemma LexShortens(s: string)
    ensures var l := Lex(s); !l.token.Eof? && !l.token.Error? ==> |l.rest| < |s|
    ensures Lex(s).token.Word? ==> ValidWord(Lex(s).token.text)
  {
  }

  /** The tokens of a text without its comments, and whether its end was reached. */
  datatype Scan = Scan(tokens: seq<Token>, ok: bool)

  function Prefix(ts: seq<Token>, r: Scan): Scan { r.(tokens := ts + r.tokens) }

  function TokensOf(s: string): (r: Scan)
    ensures forall t <- r.tokens :: t.Word? ==> ValidWord(t.text)
    decreases |s|
  {
    var l := Lex(s);
    match l.token
    case Eof => Scan([], true)
    case Error => Scan([], false)
    case Comment => TokensOf(l.rest)
    case t => Prefix([t], TokensOf(l.rest))
  }

  lemma BlankIsSkipped(c: char, s: string)
    requires IsBlank(c)
    ensures TokensOf([c] + s) == TokensOf(s)
  {
    assert ([c] + s)[1..] == s;
    assert Lex([c] + s) == Lex(s);
  }

  lemma {:induction false} LexBareFrom(v: string, u: string, c: char, s: string)
    requires Bare(v) && EndsWord(c) && forall x <- u :: !EndsWord(x)
    ensures LexFrom(Normal, v, u + [c] + s) == Lexed(Word(v + u), [c] + s)
    decreases |u|
  {
    var all := u + [c] + s;
    if u == "" {
      assert all == [c] + s && v + u == v;
    } else {
      assert u[0] in u && all[0] == u[0] && all[1..] == u[1..] + [c] + s;
      LexBareFrom(v + [u[0]], u[1..], c, s);
      assert v + [u[0]] + u[1..] == v + u;
    }
  }

  lemma {:induction false} LexQuotedFrom(state: LexState, q: char, v: string, u: string, s: string)
    requires (state == SingleQuote && q == '\'') || (state == DoubleQuote && q == '"')
    requires Begun(state, v) && q !in u
    ensures LexFrom(state, v, u + [q] + s) == Lexed(Word(v + u + [q]), s)
    decreases |u|
  {
    var all := u + [q] + s;
    if u == "" {
      assert all[0] == q && all[1..] == s && v + u == v;
    } else {
      assert u[0] in u && all[0] == u[0] && all[1..] == u[1..] + [q] + s;
      LexQuotedFrom(state, q, v + [u[0]], u[1..], s);
      assert v + [u[0]] + u[1..] == v + u;
    }
  }

  lemma LexBare(t: string, c: char, s: string)
    requires Bare(t) && EndsWord(c)
    ensures Lex(t + [c] + s) == Lexed(Word(t), [c] + s)
  {
    var all := t + [c] + s;
    assert t[0] in t;
    assert all[0] == t[0] && all[1..] == t[1..] + [c] + s && t == [t[0]] + t[1..];
    LexBareFrom([t[0]], t[1..], c, s);
    assert "" + [t[0]] == [t[0]];
  }

  lemma LexQuoted(t: string, s: string)
    requires Quoted(t)
    ensures Lex(t + s) == Lexed(Word(t), s)
  {
    var q, u := t[0], t[1..|t| - 1];
    assert (t + s)[0] == q && (t + s)[1..] == u + [q] + s && t == [q] + u + [q];
    LexQuotedFrom(if q == '"' then DoubleQuote else SingleQuote, q, [q], u, s);
  }

  /** A valid word before a word end is read as that word. */
  lemma LexWord(t: string, c: char, s: string)
    requires ValidWord(t) && EndsWord(c)
    ensures Lex(t + [c] + s) == Lexed(Word(t), [c] + s)
  {
    hide Lex, Bare, Quoted;
    if Bare(t) {
      LexBare(t, c, s);
    } else {
      LexQuoted(t, [c] + s);
      assert t + [c] + s == t + ([c] + s);
    }
  }

  lemma WordIsScanned(t: string, c: char, s: string)
    requires ValidWord(t) && EndsWord(c)
    ensures TokensOf(t + [c] + s) == Prefix([Word(t)], TokensOf([c] + s))
  {
    LexWord(t, c, s);
  }

  lemma PrefixPrefix(a: seq<Token>, b: seq<Token>, r: Scan)
    ensures Prefix(a, Prefix(b, r)) == Prefix(a + b, r) && Prefix([], r) == r
  {
    assert a + (b + r.tokens) == a + b + r.tokens;
  }

  lemma {:induction false} WordsAreScanned(ws: seq<string>, c: char, s: string)
    requires EndsWord(c) && forall w <- ws :: ValidWord(w)
    ensures TokensOf(Words(ws) + [c] + s) == Prefix(WordTokens(ws), TokensOf([c] + s))
  {
    hide TokensOf, Prefix, ValidWord;
    if ws == [] {
      assert Words(ws) + [c] + s == [c] + s;
      PrefixPrefix([], [], TokensOf([c] + s));
    } else {
      var front, w := ws[..|ws| - 1], ws[|ws| - 1];
      assert w in ws;
      WordIsScanned(w, c, s);
      if |ws| == 1 {
        assert front == [] && Words(ws) == Words(front) + "" + w == w;
        assert WordTokens(ws) == WordTokens(front) + [Word(w)] == [Word(w)];
      } else {
        assert Words(ws) + [c] + s == Words(front) + [' '] + (w + [c] + s);
        WordsAreScanned(front, ' ', w + [c] + s);
        BlankIsSkipped(' ', w + [c] + s);
        PrefixPrefix(WordTokens(front), [Word(w)], TokensOf([c] + s));
      }
    }
  }

  lemma {:induction false} IndentIsSkipped(depth: int, s: string)
    ensures TokensOf(Indent(depth) + s) == TokensOf(s)
    decreases depth
  {
    if depth <= 0 {
      assert "" + s == s;
    } else {
      hide TokensOf;
      assert Indent(depth) + s == Indent(depth - 1) + ([' '] + ([' '] + s));
      IndentIsSkipped(depth - 1, [' '] + ([' '] + s));
      BlankIsSkipped(' ', [' '] + s);
      BlankIsSkipped(' ', s);
    }
  }

  lemma PunctuationIsScanned(c: char, s: string)
    ensures c == ';' ==> TokensOf([c] + s) == Prefix([StatementEnd], TokensOf(s))
    ensures c == '{' ==> TokensOf([c] + s) == Prefix([StartBlock], TokensOf(s))
    ensures c == '}' ==> TokensOf([c] + s) == Prefix([EndBlock], TokensOf(s))
  {
    assert ([c] + s)[1..] == s;
  }

  /**
    What is printed for well-formed statements is split into their derivation,
    whatever the depth and whatever follows.
   */
  lemma {:induction false} PrintIsScanned(ss: seq<Statement>, depth: int, s: string)
    requires forall x <- ss :: WellFormedStatement(x)
    ensures TokensOf(Print(ss, depth) + s) == Prefix(Yield(ss), TokensOf(s))
    decreases ss
  {
    if ss == [] {
      assert "" + s == s;
      PrefixPrefix([], [], TokensOf(s));
    } else {
      var front, x := ss[..|ss| - 1], ss[|ss| - 1];
      assert x in ss && forall y <- front :: y in ss;
      assert Print(ss, depth) + s == Print(front, depth) + (PrintStatement(x, depth) + s);
      PrintIsScanned(front, depth, PrintStatement(x, depth) + s);
      StatementIsScanned(x, depth, s);
      PrefixPrefix(Yield(front), YieldStatement(x), TokensOf(s));
    }
  }

  lemma {:induction false} StatementIsScanned(x: Statement, depth: int, s: string)
    requires WellFormedStatement(x)
    ensures TokensOf(PrintStatement(x, depth) + s) == Prefix(YieldStatement(x), TokensOf(s))
    decreases x
  {
    hide TokensOf, Prefix, Print, PrintStatement, Words, Indent, Yield, WordTokens;
    match x
    case Simple(ws) => SimpleIsScanned(ws, depth, s);
    case Block(ws, child) =>
      var close := Indent(depth) + (['}'] + (['\n'] + s));
      var inner := Print(child.statements, depth + 1) + close;
      PrintIsScanned(child.statements, depth + 1, close);
      BlockOpens(ws, depth, inner);
      BlockCloses(depth, s);
      BlockPrinted(ws, child, depth, s);
      PrefixPrefix(WordTokens(ws) + [StartBlock], Yield(child.statements), Prefix([EndBlock], TokensOf(s)));
      PrefixPrefix(WordTokens(ws) + [StartBlock] + Yield(child.statements), [EndBlock], TokensOf(s));
  }

  lemma BlockPrinted(ws: seq<string>, child: Config, depth: int, s: string)
    ensures var inner := Print(child.statements, depth + 1) + (Indent(depth) + (['}'] + (['\n'] + s)));
            && PrintStatement(Block(ws, child), depth) + s
            == Indent(depth) + (Words(ws) + [' '] + (['{'] + (['\n'] + inner)))
  {
    hide Print, Words, Indent;
    assert " {\n" == [' '] + ['{'] + ['\n'];
  }

  lemma SimpleIsScanned(ws: seq<string>, depth: int, s: string)
    requires ValidWords(ws)
    ensures TokensOf(PrintStatement(Simple(ws), depth) + s) == Prefix(WordTokens(ws) + [StatementEnd], TokensOf(s))
  {
    assert PrintStatement(Simple(ws), depth) + s == Indent(depth) + (Words(ws) + [';'] + (['\n'] + s));
    IndentIsSkipped(depth, Words(ws) + [';'] + (['\n'] + s));
    WordsAreScanned(ws, ';', ['\n'] + s);
    PunctuationIsScanned(';', ['\n'] + s);
    BlankIsSkipped('\n', s);
    PrefixPrefix(WordTokens(ws), [StatementEnd], TokensOf(s));
  }

  lemma BlockOpens(ws: seq<string>, depth: int, inner: string)
    requires ValidWords(ws)
    ensures TokensOf(Indent(depth) + (Words(ws) + [' '] + (['{'] + (['\n'] + inner))))
         == Prefix(WordTokens(ws) + [StartBlock], TokensOf(inner))
  {
    IndentIsSkipped(depth, Words(ws) + [' '] + (['{'] + (['\n'] + inner)));
    WordsAreScanned(ws, ' ', ['{'] + (['\n'] + inner));
    BlankIsSkipped(' ', ['{'] + (['\n'] + inner));
    PunctuationIsScanned('{', ['\n'] + inner);
    BlankIsSkipped('\n', inner);
    PrefixPrefix(WordTokens(ws), [StartBlock], TokensOf(inner));
  }

  lemma BlockCloses(depth: int, s: string)
    ensures TokensOf(Indent(depth) + (['}'] + (['\n'] + s))) == Prefix([EndBlock], TokensOf(s))
  {
    IndentIsSkipped(depth, ['}'] + (['\n'] + s));
    PunctuationIsScanned('}', ['\n'] + s);
    BlankIsSkipped('\n', s);
  }
}
