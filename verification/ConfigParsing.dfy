/**
  Parsing a token sequence with a stack of open blocks, and why that decides
  the grammar.
 */
module ConfigParsing {
  import opened Wrappers
  import opened ConfigSyntax

  /** An open block: its finished statements and the words of the statement begun, if any. */
  datatype Frame = Frame(done: seq<Statement>, words: seq<string>)

  function Top(fs: seq<Frame>): Frame
    requires fs != []
  {
    fs[|fs| - 1]
  }

  function Below(fs: seq<Frame>): seq<Frame>
    requires fs != []
  {
    fs[..|fs| - 1]
  }

  /** Below the top every frame stands at a statement whose block is the next frame. */
  predicate Stacked(fs: seq<Frame>) {
    fs != [] && forall i :: 0 <= i < |fs| - 1 ==> fs[i].words != []
  }

  /** One token other than a comment or the end of input. A brace too many at the outermost level is rejected. */
  function StepToken(fs: seq<Frame>, t: Token): Option<seq<Frame>>
    requires Stacked(fs)
  {
    var top, below := Top(fs), Below(fs);
    match t
    case Word(w) => Some(below + [top.(words := top.words + [w])])
    case StatementEnd =>
      if top.words == [] then None else Some(below + [Frame(top.done + [Simple(top.words)], [])])
    case StartBlock => if top.words == [] then None else Some(fs + [Frame([], [])])
    case EndBlock =>
      if top.words != [] || below == [] then None
      else
        var outer := Top(below);
        Some(Below(below) + [Frame(outer.done + [Block(outer.words, Config(top.done))], [])])
    case _ => None
  }

  function Run(fs: seq<Frame>, ts: seq<Token>): (r: Option<seq<Frame>>)
    requires Stacked(fs)
    ensures r.Some? ==> Stacked(r.value)
  {
    if ts == [] then Some(fs)
    else
      match Run(fs, ts[..|ts| - 1])
      case None => None
      case Some(gs) => StepToken(gs, ts[|ts| - 1])
  }

  const START := [Frame([], [])]

  predicate Finished(fs: seq<Frame>) { |fs| == 1 && fs[0].words == [] }

  /** The tree a token sequence is parsed to. */
  function Accept(ts: seq<Token>): Option<Config> {
    match Run(START, ts)
    case None => None
    case Some(fs) => if Finished(fs) then Some(Config(fs[0].done)) else None
  }

  lemma {:induction false} RunConcat(fs: seq<Frame>, a: seq<Token>, b: seq<Token>)
    requires Stacked(fs)
    ensures Run(fs, a + b) == match Run(fs, a) case None => None case Some(gs) => Run(gs, b)
  {
    if b == [] {
      assert a + b == a;
    } else {
      assert (a + b)[..|a + b| - 1] == a + b[..|b| - 1];
      RunConcat(fs, a, b[..|b| - 1]);
    }
  }

  /** Words are collected in the statement begun. */
  lemma {:induction false} RunWords(fs: seq<Frame>, ws: seq<string>)
    requires Stacked(fs)
    ensures Run(fs, WordTokens(ws)) == Some(Below(fs) + [Top(fs).(words := Top(fs).words + ws)])
  {
    if ws == [] {
      assert Top(fs).words + ws == Top(fs).words;
      assert Below(fs) + [Top(fs)] == fs;
    } else {
      var ts := WordTokens(ws);
      assert ts[..|ts| - 1] == WordTokens(ws[..|ws| - 1]);
      RunWords(fs, ws[..|ws| - 1]);
      assert Top(fs).words + ws[..|ws| - 1] + [ws[|ws| - 1]] == Top(fs).words + ws;
    }
  }

  predicate NonEmpty(ss: seq<Statement>) { forall s <- ss :: NonEmptyStatement(s) }

  predicate NonEmptyStatement(s: Statement) { s.words != [] && (s.Block? ==> NonEmpty(s.child.statements)) }

  function WithTop(below: seq<Frame>, done: seq<Statement>): seq<Frame> { below + [Frame(done, [])] }

  lemma StackedTop(below: seq<Frame>, f: Frame)
    ensures Stacked(below + [f]) <==> forall x <- below :: x.words != []
  {
    var fs := below + [f];
    assert forall i :: 0 <= i < |fs| - 1 ==> fs[i] == below[i];
  }

  lemma YieldSnoc(ss: seq<Statement>, s: Statement)
    ensures Yield(ss + [s]) == Yield(ss) + YieldStatement(s)
  {
    assert (ss + [s])[..|ss|] == ss;
  }

  lemma NonEmptyFront(ss: seq<Statement>)
    requires NonEmpty(ss) && ss != []
    ensures NonEmpty(ss[..|ss| - 1]) && NonEmptyStatement(ss[|ss| - 1])
    ensures ss[|ss| - 1] in ss && ss == ss[..|ss| - 1] + [ss[|ss| - 1]]
  {
    hide NonEmptyStatement;
    var front := ss[..|ss| - 1];
    assert front + [ss[|ss| - 1]] == ss;
    assert forall x <- front :: x in ss;
  }

  /** The parser follows a derivation: after the tokens of some statements it holds those statements. */
  lemma {:induction false} RunYield(below: seq<Frame>, done: seq<Statement>, ss: seq<Statement>)
    requires Stacked(WithTop(below, done)) && NonEmpty(ss)
    ensures Run(WithTop(below, done), Yield(ss)) == Some(WithTop(below, done + ss))
    decreases ss
  {
    if ss == [] {
      assert done + ss == done;
    } else {
      hide Run, Yield, YieldStatement, NonEmpty, NonEmptyStatement, Stacked;
      var front, s := ss[..|ss| - 1], ss[|ss| - 1];
      NonEmptyFront(ss);
      YieldSnoc(front, s);
      StackedTop(below, Frame(done, []));
      StackedTop(below, Frame(done + front, []));
      RunYield(below, done, front);
      RunConcat(WithTop(below, done), Yield(front), YieldStatement(s));
      RunYieldStatement(below, done + front, s);
      assert done + front + [s] == done + ss;
    }
  }

  lemma {:induction false} RunYieldStatement(below: seq<Frame>, done: seq<Statement>, s: Statement)
    requires Stacked(WithTop(below, done)) && NonEmptyStatement(s)
    ensures Run(WithTop(below, done), YieldStatement(s)) == Some(WithTop(below, done + [s]))
    decreases s
  {
    var fs := WithTop(below, done);
    var mid := below + [Frame(done, s.words)];
    assert Below(fs) == below && [] + s.words == s.words;
    RunWords(fs, s.words);
    match s
    case Simple(ws) =>
      RunConcat(fs, WordTokens(ws), [StatementEnd]);
      RunOne(mid, StatementEnd);
      assert Below(mid) == below;
    case Block(ws, child) =>
      var inner := Yield(child.statements);
      RunConcat(fs, WordTokens(ws) + [StartBlock] + inner, [EndBlock]);
      RunConcat(fs, WordTokens(ws) + [StartBlock], inner);
      RunConcat(fs, WordTokens(ws), [StartBlock]);
      RunOne(mid, StartBlock);
      assert mid + [Frame([], [])] == WithTop(mid, []);
      RunYield(mid, [], child.statements);
      assert [] + child.statements == child.statements;
      var last := WithTop(mid, child.statements);
      RunOne(last, EndBlock);
      assert Below(last) == mid && Below(mid) == below;
  }

  lemma RunOne(fs: seq<Frame>, t: Token)
    requires Stacked(fs)
    ensures Run(fs, [t]) == StepToken(fs, t)
  {
    assert [t][..0] == [];
  }

  /** The tokens that lead to a stack of frames. */
  function Path(fs: seq<Frame>): seq<Token> {
    if fs == [] then []
    else Path(Below(fs)) + (if |fs| == 1 then [] else [StartBlock]) + Yield(Top(fs).done) + WordTokens(Top(fs).words)
  }

  predicate FrameOk(f: Frame) { NonEmpty(f.done) }

  predicate FramesOk(fs: seq<Frame>) { forall f <- fs :: FrameOk(f) }

  lemma PathSnoc(below: seq<Frame>, f: Frame)
    ensures Path(below + [f]) ==
      Path(below) + (if below == [] then [] else [StartBlock]) + Yield(f.done) + WordTokens(f.words)
  {
    assert Below(below + [f]) == below;
  }

  lemma WordTokensSnoc(ws: seq<string>, w: string)
    ensures WordTokens(ws + [w]) == WordTokens(ws) + [Word(w)]
  {
    assert (ws + [w])[..|ws|] == ws;
  }

  lemma FramesOkTop(below: seq<Frame>, f: Frame)
    ensures FramesOk(below + [f]) <==> FramesOk(below) && FrameOk(f)
  {
    assert f in below + [f] && forall x <- below :: x in below + [f];
  }

  ghost predicate Extends(fs: seq<Frame>, t: Token, gs: seq<Frame>) {
    Stacked(gs) && FramesOk(gs) && Path(gs) == Path(fs) + [t]
  }

  /** Each step extends the tokens the stack stands for by the token read. */
  lemma StepExtendsPath(fs: seq<Frame>, t: Token)
    requires Stacked(fs) && FramesOk(fs) && StepToken(fs, t).Some?
    ensures Extends(fs, t, StepToken(fs, t).value)
  {
    hide Extends, FramesOk, FrameOk, NonEmpty, Path, Yield, WordTokens;
    match t
    case Word(w) => WordExtendsPath(fs, w);
    case StatementEnd => EndExtendsPath(fs);
    case StartBlock => StartBlockExtendsPath(fs);
    case EndBlock => EndBlockExtendsPath(fs);
  }

  lemma WordExtendsPath(fs: seq<Frame>, w: string)
    requires fs != [] && Stacked(fs) && FramesOk(fs)
    ensures Extends(fs, Word(w), StepToken(fs, Word(w)).value)
  {
    hide FramesOk, NonEmpty, Path, Yield, WordTokens, Stacked;
    var top, below := Top(fs), Below(fs);
    var next := top.(words := top.words + [w]);
    assert fs == below + [top];
    PathSnoc(below, top);
    PathSnoc(below, next);
    WordTokensSnoc(top.words, w);
    FramesOkTop(below, top);
    FramesOkTop(below, next);
    StackedTop(below, top);
    StackedTop(below, next);
  }

  lemma EndExtendsPath(fs: seq<Frame>)
    requires fs != [] && Stacked(fs) && FramesOk(fs) && Top(fs).words != []
    ensures Extends(fs, StatementEnd, StepToken(fs, StatementEnd).value)
  {
    hide FramesOk, Path, Yield, WordTokens, Stacked;
    var top, below := Top(fs), Below(fs);
    var next := Frame(top.done + [Simple(top.words)], []);
    assert fs == below + [top];
    PathSnoc(below, top);
    PathSnoc(below, next);
    YieldSnoc(top.done, Simple(top.words));
    NoWords();
    assert NonEmptyStatement(Simple(top.words));
    FramesOkTop(below, top);
    FramesOkTop(below, next);
    StackedTop(below, top);
    StackedTop(below, next);
  }

  lemma NoWords()
    ensures WordTokens([]) == [] && Yield([]) == []
  {
  }

  lemma StartBlockExtendsPath(fs: seq<Frame>)
    requires Stacked(fs) && FramesOk(fs) && Top(fs).words != []
    ensures Extends(fs, StartBlock, StepToken(fs, StartBlock).value)
  {
    hide FramesOk, Path, Yield, WordTokens;
    PathSnoc(fs, Frame([], []));
    NoWords();
    FramesOkTop(fs, Frame([], []));
  }

  lemma EndBlockExtendsPath(fs: seq<Frame>)
    requires Stacked(fs) && FramesOk(fs) && |fs| > 1 && Top(fs).words == []
    ensures Extends(fs, EndBlock, StepToken(fs, EndBlock).value)
  {
    hide FramesOk, Path, Yield, WordTokens, Stacked;
    var top, below := Top(fs), Below(fs);
    var outer, lower := Top(below), Below(below);
    var s := Block(outer.words, Config(top.done));
    var next := Frame(outer.done + [s], []);
    assert fs == below + [top] && below == lower + [outer];
    StackedBelow(fs);
    PathSnoc(below, top);
    PathSnoc(lower, outer);
    PathSnoc(lower, next);
    YieldSnoc(outer.done, s);
    NoWords();
    FramesOkTop(below, top);
    FramesOkTop(lower, outer);
    assert NonEmptyStatement(s);
    FramesOkTop(lower, next);
    StackedTop(lower, outer);
    StackedTop(lower, next);
  }

  lemma StackedBelow(fs: seq<Frame>)
    requires Stacked(fs) && |fs| > 1
    ensures Stacked(Below(fs)) && Top(Below(fs)).words != []
  {
  }

  lemma StartPath()
    ensures FramesOk(START) && Path(START) == []
  {
    assert Below(START) == [];
  }

  lemma {:induction false} RunExtendsPath(ts: seq<Token>)
    requires Run(START, ts).Some?
    ensures var fs := Run(START, ts).value; FramesOk(fs) && Path(fs) == ts
  {
    hide StepToken, FramesOk, Path;
    if ts == [] {
      StartPath();
    } else {
      var front := ts[..|ts| - 1];
      RunExtendsPath(front);
      StepExtendsPath(Run(START, front).value, ts[|ts| - 1]);
      assert front + [ts[|ts| - 1]] == ts;
    }
  }

  /**
    A token sequence is parsed to a tree exactly when it is the tree's derivation:
    acceptance is membership in the grammar and the tree is the only one.
   */
  lemma AcceptIffYield(ts: seq<Token>, c: Config)
    ensures Accept(ts) == Some(c) <==> NonEmpty(c.statements) && Yield(c.statements) == ts
  {
    if Accept(ts) == Some(c) {
      RunExtendsPath(ts);
      var fs := Run(START, ts).value;
      assert fs[0] in fs && Below(fs) == [] && fs == [] + [fs[0]];
      PathSnoc([], fs[0]);
    }
    if NonEmpty(c.statements) && Yield(c.statements) == ts {
      assert WithTop([], []) == START;
      RunYield([], [], c.statements);
      assert [] + c.statements == c.statements;
    }
  }
}
