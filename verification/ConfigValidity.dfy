/**
  When the parser keeps its promise to return true exactly for valid files. It
  takes a word that the input ends inside for the end of the input; a valid file
  is one whose tokens, that word included, are the derivation of a tree.
 */
module ConfigValidity {
  import opened Wrappers
  import opened ConfigSyntax
  import opened ConfigParsing
  import opened ConfigLexing
  import opened ConfigText

  /** The word that the text ends inside: read when a line end follows, and dropped without one. */
  function Dropped(s: string): Option<string>
    decreases |s|
  {
    match Lex(s).token
    case Eof => (match Lex(s + "\n").token case Word(w) => Some(w) case _ => None)
    case Error => None
    case _ => Dropped(Lex(s).rest)
  }

  /** All tokens of a text, the word it ends inside included. */
  function AllTokens(s: string): Scan {
    match Dropped(s)
    case None => TokensOf(s)
    case Some(w) => TokensOf(s).(tokens := TokensOf(s).tokens + [Word(w)])
  }

  /** The tree of a valid file. */
  function StrictParse(s: string): Option<Config> {
    if AllTokens(s).ok then Accept(AllTokens(s).tokens) else None
  }

  /** A file is valid, with a tree, exactly when all its tokens are the derivation of that tree. */
  lemma StrictParseIffYield(s: string, c: Config)
    ensures StrictParse(s) == Some(c) <==>
      AllTokens(s).ok && NonEmpty(c.statements) && Yield(c.statements) == AllTokens(s).tokens
  {
    AcceptIffYield(AllTokens(s).tokens, c);
  }

  /** No file that ends inside a word is valid. */
  lemma DroppedIsInvalid(s: string)
    requires Dropped(s).Some?
    ensures StrictParse(s).None?
  {
    var ts, t := TokensOf(s).tokens, Word(Dropped(s).value);
    RunConcat(START, ts, [t]);
    if Run(START, ts).Some? {
      RunOne(Run(START, ts).value, t);
    }
  }

  /**
    The parser does what its documentation says exactly when it rejects the file or
    the file does not end inside a word.
   */
  lemma PromiseKept(s: string)
    ensures ParseText(s) == StrictParse(s) <==> ParseText(s).None? || Dropped(s).None?
  {
    if Dropped(s).Some? {
      DroppedIsInvalid(s);
    }
  }

  /** A valid file is never refused, and is parsed to its tree. */
  lemma ValidIsAccepted(s: string)
    requires StrictParse(s).Some?
    ensures ParseText(s) == StrictParse(s)
  {
    if Dropped(s).Some? {
      DroppedIsInvalid(s);
      assert false;
    }
  }

  predicate EndsWith(s: string, t: string) { |t| <= |s| && s[|s| - |t|..] == t }

  lemma EndsWithTrans(s: string, t: string, u: string)
    requires EndsWith(s, t) && EndsWith(t, u)
    ensures EndsWith(s, u)
  {
    assert s[|s| - |t|..][|t| - |u|..] == s[|s| - |u|..];
  }

  lemma TailEndsWith(s: string, t: string)
    requires s != "" && EndsWith(s[1..], t)
    ensures EndsWith(s, t)
  {
  }

  /** Where the lexer stands after a byte that does not end the token. */
  function After(state: LexState, value: string, c: char): (r: (LexState, string))
    requires Begun(state, value) && Stays(state, c)
    ensures Begun(r.0, r.1)
  {
    var next := if state == InitialWhitespace then Opened(c) else state;
    (next, if next == InitialWhitespace then "" else value + [c])
  }

  lemma LexGoesOn(state: LexState, value: string, s: string)
    requires Begun(state, value) && s != "" && Stays(state, s[0])
    ensures var (next, v) := After(state, value, s[0]); LexFrom(state, value, s) == LexFrom(next, v, s[1..])
  {
    assert state == InitialWhitespace ==> "" + [s[0]] == [s[0]];
  }

  lemma AfterEndsText(state: LexState, value: string, s: string)
    requires Begun(state, value) && s != "" && Stays(state, s[0])
    ensures EndsWith(value + s, After(state, value, s[0]).1 + s[1..])
  {
    assert value + [s[0]] + s[1..] == value + s;
    assert "" + s[1..] == s[1..];
  }

  lemma {:induction false} RestEndsText(state: LexState, value: string, s: string)
    requires Begun(state, value)
    ensures EndsWith(s, LexFrom(state, value, s).rest)
    decreases |s|
  {
    if s != "" && Stays(state, s[0]) {
      var (next, v) := After(state, value, s[0]);
      LexGoesOn(state, value, s);
      hide LexFrom;
      RestEndsText(next, v, s[1..]);
      TailEndsWith(s, LexFrom(next, v, s[1..]).rest);
    }
  }

  /** What a line end after the text does to its first token, from any state of the lexer on. */
  ghost predicate EndsLine(s: string, l: Lexed, m: Lexed) {
    match l.token
    case Eof =>
      if m.token.Word? then m.rest == "\n" && Bare(m.token.text) && EndsWith(s, m.token.text)
      else (m.token.Eof? || m.token.Comment?) && m.rest == ""
    case Error => m.token.Error?
    case t => m == Lexed(t, l.rest + "\n")
  }

  lemma {:induction false} LineEnds(state: LexState, value: string, s: string)
    requires Begun(state, value)
    ensures EndsLine(value + s, LexFrom(state, value, s), LexFrom(state, value, s + "\n"))
    decreases |s|
  {
    if s == "" {
      assert s + "\n" == "\n" && "\n"[1..] == "" && value + s == value;
    } else {
      var c, t := s[0], s[1..];
      assert (s + "\n")[0] == c && (s + "\n")[1..] == t + "\n";
      if Stays(state, c) {
        hide LexFrom, EndsWith;
        LexGoesOn(state, value, s);
        LexGoesOn(state, value, s + "\n");
        AfterEndsText(state, value, s);
        var (next, v) := After(state, value, c);
        LineEnds(next, v, t);
        if LexFrom(next, v, t + "\n").token.Word? && LexFrom(next, v, t).token.Eof? {
          EndsWithTrans(value + s, v + t, LexFrom(next, v, t + "\n").token.text);
        }
      }
    }
  }

  lemma LineEndsText(s: string)
    ensures EndsLine(s, Lex(s), Lex(s + "\n")) && EndsWith(s, Lex(s).rest)
  {
    LineEnds(InitialWhitespace, "", s);
    RestEndsText(InitialWhitespace, "", s);
    assert "" + s == s;
  }

  /** The byte does not end the token. */
  predicate Stays(state: LexState, c: char) {
    match state
    case InitialWhitespace => c !in {'{', '}', ';'}
    case SingleQuote => c != '\''
    case DoubleQuote => c != '"'
    case InComment => c != '\n' && c != '\r'
    case Normal => !EndsWord(c)
  }

  /** What the first byte of a token opens. */
  function Opened(c: char): LexState {
    if c == '#' then InComment
    else if c == '"' then DoubleQuote
    else if c == '\'' then SingleQuote
    else if IsBlank(c) then InitialWhitespace
    else Normal
  }

  /** The dropped word is a bare word at the very end of the text. */
  lemma {:induction false} DroppedEndsText(s: string)
    requires Dropped(s).Some?
    ensures Bare(Dropped(s).value) && EndsWith(s, Dropped(s).value)
    decreases |s|
  {
    hide Lex, EndsWith;
    LineEndsText(s);
    LexShortens(s);
    if !Lex(s).token.Eof? {
      DroppedEndsText(Lex(s).rest);
      EndsWithTrans(s, Lex(s).rest, Dropped(s).value);
    }
  }

  lemma BareEndsInWord(s: string, w: string)
    requires Bare(w) && EndsWith(s, w)
    ensures s != "" && !EndsWord(s[|s| - 1])
  {
    assert w[|w| - 1] == s[|s| - 1] && w[|w| - 1] in w;
  }

  /** What a caller can see: nothing is dropped from an empty file or after a byte that ends a word. */
  lemma EndedIsNotDropped(s: string)
    requires s == "" || EndsWord(s[|s| - 1])
    ensures Dropped(s).None? && ParseText(s) == StrictParse(s)
  {
    if Dropped(s).Some? {
      DroppedEndsText(s);
      BareEndsInWord(s, Dropped(s).value);
      assert false;
    }
    PromiseKept(s);
  }

  lemma EmptyHasNoTokens()
    ensures TokensOf("") == Scan([], true) && TokensOf("\n") == Scan([], true)
  {
    assert "\n"[1..] == "";
  }

  /** All tokens are those the lexer gives when a line end follows the text. */
  lemma {:induction false} LineEndShowsAll(s: string)
    ensures TokensOf(s + "\n") == AllTokens(s)
    decreases |s|
  {
    hide Lex, EndsWith;
    LineEndsText(s);
    LexShortens(s);
    var l := Lex(s);
    EmptyHasNoTokens();
    if !l.token.Eof? && !l.token.Error? {
      LineEndShowsAll(l.rest);
    }
  }

  /** Adding a line end to a file before parsing it makes the promise hold for every file. */
  lemma LineEndKeepsPromise(s: string)
    ensures ParseText(s + "\n") == StrictParse(s)
  {
    LineEndShowsAll(s);
  }
}
