/**
  Configuration files as trees, tokens and text: the grammar, the printer and
  the well-formed trees.
 */
module ConfigSyntax {

  /** A statement has words and, if it is a block, a configuration inside. */
  datatype Statement = Simple(words: seq<string>) | Block(words: seq<string>, child: Config)

  datatype Config = Config(statements: seq<Statement>)

  datatype Token = Word(text: string) | StartBlock | EndBlock | StatementEnd | Comment | Eof | Error

  predicate IsBlank(c: char) { c == ' ' || c == '\t' || c == '\n' || c == '\r' }

  /** The characters that end a bare word; a carriage return is not one of them. */
  predicate EndsWord(c: char) { c == ' ' || c == '\t' || c == '\n' || c == ';' || c == '{' || c == '}' }

  predicate StartsWord(c: char) { !IsBlank(c) && c !in {'{', '}', '#', '"', '\'', ';'} }

  predicate Bare(t: string) {
    t != "" && StartsWord(t[0]) && forall c <- t :: !EndsWord(c)
  }

  predicate Quoted(t: string) {
    |t| >= 2 && (t[0] == '"' || t[0] == '\'') && t[|t| - 1] == t[0] && t[0] !in t[1..|t| - 1]
  }

  predicate ValidWord(t: string) { Bare(t) || Quoted(t) }

  predicate ValidWords(ws: seq<string>) { ws != [] && forall w <- ws :: ValidWord(w) }

  /** Every statement has at least one word and every word can be written down. */
  predicate WellFormed(c: Config) { forall s <- c.statements :: WellFormedStatement(s) }

  predicate WellFormedStatement(s: Statement) {
    ValidWords(s.words) && (s.Block? ==> WellFormed(s.child))
  }

  function WordTokens(ws: seq<string>): (r: seq<Token>)
    ensures |r| == |ws|
  {
    if ws == [] then [] else WordTokens(ws[..|ws| - 1]) + [Word(ws[|ws| - 1])]
  }

  /** The derivation of a tree in the grammar: a statement is words and either a semicolon or a braced configuration. */
  function Yield(ss: seq<Statement>): seq<Token> {
    if ss == [] then [] else Yield(ss[..|ss| - 1]) + YieldStatement(ss[|ss| - 1])
  }

  function YieldStatement(s: Statement): seq<Token> {
    match s
    case Simple(ws) => WordTokens(ws) + [StatementEnd]
    case Block(ws, child) => WordTokens(ws) + [StartBlock] + Yield(child.statements) + [EndBlock]
  }

  function Indent(depth: int): string
    decreases depth
  {
    if depth <= 0 then "" else Indent(depth - 1) + "  "
  }

  function Words(ws: seq<string>): string {
    if ws == [] then ""
    else Words(ws[..|ws| - 1]) + (if |ws| == 1 then "" else " ") + ws[|ws| - 1]
  }

  /** The text of a configuration at an indentation depth. */
  function Print(ss: seq<Statement>, depth: int): string {
    if ss == [] then "" else Print(ss[..|ss| - 1], depth) + PrintStatement(ss[|ss| - 1], depth)
  }

  function PrintStatement(s: Statement, depth: int): string {
    Indent(depth) + Words(s.words) +
    (match s
     case Simple(_) => ";"
     case Block(_, child) => " {\n" + Print(child.statements, depth + 1) + Indent(depth) + "}") +
    "\n"
  }

  lemma {:induction false} YieldConcat(a: seq<Statement>, b: seq<Statement>)
    ensures Yield(a + b) == Yield(a) + Yield(b)
  {
    if b == [] {
      assert a + b == a;
    } else {
      assert (a + b)[..|a + b| - 1] == a + b[..|b| - 1];
      YieldConcat(a, b[..|b| - 1]);
    }
  }
}
