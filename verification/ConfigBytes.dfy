/**
  Configuration text byte by byte, with the bytes written out: what ends a
  comment, a bare word and a quoted word, what is skipped, and how the printer
  lays a statement out.
 */
module ConfigBytes {
  import opened Wrappers
  import opened ConfigSyntax
  import opened ConfigParsing
  import opened ConfigLexing
  import opened ConfigText

  predicate LineEnd(c: char) { c == '\n' || c == '\r' }

  lemma {:induction false} CommentFrom(v: string, u: string, e: char, s: string)
    requires LineEnd(e) && forall c <- u :: !LineEnd(c)
    ensures LexFrom(InComment, v, u + [e] + s) == Lexed(Comment, s)
    decreases |u|
  {
    var all := u + [e] + s;
    if u == "" {
      assert all == [e] + s && all[1..] == s;
    } else {
      assert u[0] in u && all[0] == u[0] && all[1..] == u[1..] + [e] + s;
      assert forall c <- u[1..] :: c in u;
      CommentFrom(v + [u[0]], u[1..], e, s);
    }
  }

  /** A comment goes from a hash to the first line feed or carriage return, and leaves no token. */
  lemma CommentIsSkipped(u: string, e: char, s: string)
    requires LineEnd(e) && forall c <- u :: !LineEnd(c)
    ensures TokensOf("#" + u + [e] + s) == TokensOf(s)
  {
    var all := "#" + u + [e] + s;
    assert all[0] == '#' && all[1..] == u + [e] + s;
    CommentFrom("#", u, e, s);
  }

  lemma {:induction false} CommentToEndFrom(v: string, u: string)
    requires forall c <- u :: !LineEnd(c)
    ensures LexFrom(InComment, v, u) == Lexed(Eof, "")
    decreases |u|
  {
    if u != "" {
      assert u[0] in u && forall c <- u[1..] :: c in u;
      CommentToEndFrom(v + [u[0]], u[1..]);
    }
  }

  /** A comment may be the last line of the file, without a line end. */
  lemma CommentToEnd(u: string)
    requires forall c <- u :: !LineEnd(c)
    ensures TokensOf("#" + u) == Scan([], true)
  {
    assert ("#" + u)[1..] == u;
    CommentToEndFrom("#", u);
  }

  /** The bytes that end a bare word. */
  predicate WordEnd(c: char) { c in {' ', '\t', '\n', ';', '{', '}'} }

  /** A bare word begins with a byte that means nothing else and goes on to the first byte that ends it. */
  predicate Plain(w: string) {
    && w != "" && w[0] !in {'#', '"', '\'', '\r'}
    && forall c <- w :: !WordEnd(c)
  }

  /** A bare word is ended by a space, a tab, a line feed, a semicolon or a brace, which is read next. */
  lemma BareWordEnds(w: string, c: char, s: string)
    requires Plain(w) && WordEnd(c)
    ensures TokensOf(w + [c] + s) == Prefix([Word(w)], TokensOf([c] + s))
  {
    assert w[0] in w;
    WordIsScanned(w, c, s);
  }

  /** A quoted word goes to the next quote of its own kind, whatever is between and whatever follows. */
  lemma QuotedWordEnds(q: char, u: string, s: string)
    requires (q == '"' || q == '\'') && q !in u
    ensures TokensOf([q] + u + [q] + s) == Prefix([Word([q] + u + [q])], TokensOf(s))
  {
    var w := [q] + u + [q];
    assert w[|w| - 1] == q && w[1..|w| - 1] == u;
    LexQuoted(w, s);
  }

  lemma {:induction false} QuoteGoesOn(state: LexState, q: char, v: string, u: string)
    requires (state == SingleQuote && q == '\'') || (state == DoubleQuote && q == '"')
    requires Begun(state, v) && q !in u
    ensures LexFrom(state, v, u) == Lexed(Error, "")
    decreases |u|
  {
    if u != "" {
      assert u[0] in u && forall c <- u[1..] :: c in u;
      QuoteGoesOn(state, q, v + [u[0]], u[1..]);
    }
  }

  /** A quote without its end makes the file invalid. */
  lemma UnclosedQuote(q: char, u: string)
    requires (q == '"' || q == '\'') && q !in u
    ensures TokensOf([q] + u) == Scan([], false) && ParseText([q] + u).None?
  {
    assert ([q] + u)[1..] == u;
    QuoteGoesOn(if q == '"' then DoubleQuote else SingleQuote, q, [q], u);
  }

  /** Blanks between tokens are skipped. */
  lemma BlanksAreSkipped(c: char, s: string)
    requires c in {' ', '\t', '\n', '\r'}
    ensures TokensOf([c] + s) == TokensOf(s)
  {
    BlankIsSkipped(c, s);
  }

  /** A carriage return does not end a bare word. */
  lemma ReturnIsInWord(w: string, s: string)
    requires Plain(w)
    ensures TokensOf(w + "\r" + ";" + s) == Prefix([Word(w + "\r")], TokensOf(";" + s))
  {
    assert (w + "\r")[0] == w[0];
    BareWordEnds(w + "\r", ';', s);
  }

  function Blanks(n: nat): string { seq(n, _ => ' ') }

  lemma {:induction false} IndentIs(depth: int)
    ensures Indent(depth) == Blanks(if depth < 0 then 0 else 2 * depth)
    decreases depth
  {
    if depth > 0 {
      IndentIs(depth - 1);
    }
  }

  /** The words of a statement stand on its line with one space between two of them. */
  lemma WordsAreSpaced(ws: seq<string>, w: string)
    ensures Words([w]) == w
    ensures ws != [] ==> Words(ws + [w]) == Words(ws) + " " + w
  {
    assert (ws + [w])[..|ws|] == ws;
    assert [w][..0] == [];
    assert "" + "" + w == w;
  }

  /**
    A statement is printed two spaces deeper for each level, a simple one with a
    semicolon, a block with its braces at the ends of its first and last lines.
   */
  lemma StatementIsPrinted(ws: seq<string>, child: Config, depth: nat)
    ensures PrintStatement(Simple(ws), depth) == Blanks(2 * depth) + Words(ws) + ";" + "\n"
    ensures PrintStatement(Block(ws, child), depth)
      == Blanks(2 * depth) + Words(ws) + (" {\n" + Print(child.statements, depth + 1) + Blanks(2 * depth) + "}") + "\n"
  {
    IndentIs(depth);
  }
}
