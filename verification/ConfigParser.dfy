/**
  The parser and printer on configuration objects: the parser grows a tree
  through a stack of pointers to its open blocks.
 */
module ConfigParser {
  import opened Wrappers
  import opened Streams
  import opened ConfigSyntax
  import opened ConfigParsing
  import opened ConfigLexing
  import opened ConfigText
  import opened ConfigValidity

  class NginxConfig {
    var statements: seq<NginxConfigStatement>

    constructor ()
      ensures statements == []
    {
      statements := [];
    }
  }

  class NginxConfigStatement {
    var tokens: seq<string>
    var childBlock: NginxConfig?

    constructor ()
      ensures tokens == [] && childBlock == null
    {
      tokens, childBlock := [], null;
    }
  }

  /** Reads the next token. */
  method ParseToken(input: InputStream) returns (token: Token)
    requires input.Valid()
    modifies input
    ensures input.Valid() && Lexed(token, input.Remaining()) == Lex(old(input.Remaining()))
  {
    var state, value := InitialWhitespace, "";
    ghost var s := input.Remaining();
    while true
      invariant input.Valid() && Begun(state, value)
      invariant LexFrom(state, value, input.Remaining()) == Lex(s)
      decreases |input.Remaining()|
    {
      ghost var before := input.Remaining();
      var next := input.Get();
      if next == None {
        break;
      }
      var c := next.value;
      match state
      case InitialWhitespace =>
        if c == '{' {
          return StartBlock;
        } else if c == '}' {
          return EndBlock;
        } else if c == '#' {
          state, value := InComment, [c];
        } else if c == '"' {
          state, value := DoubleQuote, [c];
        } else if c == '\'' {
          state, value := SingleQuote, [c];
        } else if c == ';' {
          return StatementEnd;
        } else if !IsBlank(c) {
          state, value := Normal, value + [c];
        }
      case SingleQuote =>
        value := value + [c];
        if c == '\'' {
          return Word(value);
        }
      case DoubleQuote =>
        value := value + [c];
        if c == '"' {
          return Word(value);
        }
      case InComment =>
        if c == '\n' || c == '\r' {
          return Comment;
        }
        value := value + [c];
      case Normal =>
        if EndsWord(c) {
          input.Unget();
          assert input.Remaining() == before;
          return Word(value);
        }
        value := value + [c];
    }
    return if state == SingleQuote || state == DoubleQuote then Error else Eof;
  }

  /** The object stands for the tree, and everything it reaches lies in `d`. */
  ghost predicate ShowsConfig(o: NginxConfig, c: Config, d: set<object>)
    reads d
    decreases c
  {
    && o in d && |o.statements| == |c.statements|
    && forall i :: 0 <= i < |c.statements| ==> ShowsStatement(o.statements[i], c.statements[i], d)
  }

  ghost predicate ShowsStatement(o: NginxConfigStatement, s: Statement, d: set<object>)
    reads d
    decreases s
  {
    && o in d && o.tokens == s.words
    && match s
       case Simple(_) => o.childBlock == null
       case Block(_, child) => o.childBlock != null && ShowsConfig(o.childBlock, child, d)
  }

  lemma {:induction false} ShowsMore(o: NginxConfigStatement, s: Statement, d: set<object>, e: set<object>)
    requires ShowsStatement(o, s, d) && d <= e
    ensures ShowsStatement(o, s, e)
    decreases s
  {
    if s.Block? {
      var child := s.child;
      forall i | 0 <= i < |child.statements|
        ensures ShowsStatement(o.childBlock.statements[i], child.statements[i], e)
      {
        ShowsMore(o.childBlock.statements[i], child.statements[i], d, e);
      }
    }
  }

  /**
    One entry of the pointer stack: `o` holds its finished statements, from
    index `base` on, and then the statement begun, `s`, whose block is `child`.
    Finished statements live in `d`, to which nothing is written any more.
   */
  ghost predicate Level(o: NginxConfig, f: Frame, s: NginxConfigStatement?, child: NginxConfig?, base: nat,
                        d: set<object>)
    reads d, o, if s == null then {} else {s}
  {
    && o !in d
    && |o.statements| == base + |f.done| + (if f.words == [] then 0 else 1)
    && (forall i :: 0 <= i < |f.done| ==> ShowsStatement(o.statements[base + i], f.done[i], d))
    && (s == null <==> f.words == [])
    && (s != null ==>
          && s !in d && s == o.statements[|o.statements| - 1]
          && s.tokens == f.words && s.childBlock == child)
  }

  ghost function ChildAt(stack: seq<NginxConfig>, k: nat): NginxConfig? {
    if k + 1 < |stack| then stack[k + 1] else null
  }

  ghost function BaseAt(base: nat, k: nat): nat { if k == 0 then base else 0 }

  /**
    The pointer stack is the rightmost open path of the tree: one entry for each
    open block and the root, each the block of the last statement of the entry
    below it.
   */
  ghost predicate Tree(stack: seq<NginxConfig>, open: seq<NginxConfigStatement?>, fs: seq<Frame>, base: nat,
                       d: set<object>)
    reads d, stack, open
  {
    && |stack| == |open| == |fs| > 0
    && (forall i, j :: 0 <= i < j < |stack| ==> stack[i] != stack[j])
    && forall k :: 0 <= k < |stack| ==> Level(stack[k], fs[k], open[k], ChildAt(stack, k), BaseAt(base, k), d)
  }

  ghost function TopOpen(open: seq<NginxConfigStatement?>): set<object>
    requires open != []
  {
    if open[|open| - 1] == null then {} else {open[|open| - 1]}
  }

  /** What is written at the top of the stack is neither finished nor part of another level. */
  lemma TopIsApart(stack: seq<NginxConfig>, open: seq<NginxConfigStatement?>, fs: seq<Frame>, base: nat, d: set<object>)
    requires Stacked(fs) && Tree(stack, open, fs, base, d)
    ensures var n := |stack| - 1;
            && Level(stack[n], fs[n], open[n], null, BaseAt(base, n), d)
            && stack[n] !in d && (open[n] != null ==> open[n] !in d)
            && forall k :: 0 <= k < n ==> stack[k] != stack[n] && open[k] != null && open[k] != open[n]
  {
    var n := |stack| - 1;
    assert Level(stack[n], fs[n], open[n], ChildAt(stack, n), BaseAt(base, n), d);
    forall k | 0 <= k < n ensures open[k] != null && open[k] != open[n] {
      assert Level(stack[k], fs[k], open[k], ChildAt(stack, k), BaseAt(base, k), d);
    }
  }

  ghost predicate LowerLevels(stack: seq<NginxConfig>, open: seq<NginxConfigStatement?>, fs: seq<Frame>,
                              base: nat, d: set<object>)
    reads d, stack, open
  {
    && |stack| == |open| == |fs| > 0
    && forall k :: 0 <= k < |stack| - 1 ==> Level(stack[k], fs[k], open[k], ChildAt(stack, k), BaseAt(base, k), d)
  }

  lemma TreeFromLevels(stack: seq<NginxConfig>, open: seq<NginxConfigStatement?>, fs: seq<Frame>,
                       s: NginxConfigStatement?, f: Frame, base: nat, d: set<object>)
    requires LowerLevels(stack, open, fs, base, d)
    requires forall i, j :: 0 <= i < j < |stack| ==> stack[i] != stack[j]
    requires var n := |stack| - 1; Level(stack[n], f, s, null, BaseAt(base, n), d)
    ensures Tree(stack, open[|open| - 1 := s], Below(fs) + [f], base, d)
  {
    hide Level;
    var o, g := open[|open| - 1 := s], Below(fs) + [f];
    forall k | 0 <= k < |stack| ensures Level(stack[k], g[k], o[k], ChildAt(stack, k), BaseAt(base, k), d) {
      if k < |stack| - 1 {
        assert Level(stack[k], fs[k], open[k], ChildAt(stack, k), BaseAt(base, k), d);
      }
    }
  }

  /** The first word of a statement begins it. */
  method AddFirstWord(stack: seq<NginxConfig>, w: string,
                      ghost open: seq<NginxConfigStatement?>, ghost fs: seq<Frame>,
                      ghost base: nat, ghost d: set<object>)
    returns (ghost next: NginxConfigStatement)
    requires Stacked(fs) && Tree(stack, open, fs, base, d) && Top(fs).words == []
    modifies stack[|stack| - 1]
    ensures Tree(stack, open[|open| - 1 := next], StepToken(fs, Word(w)).value, base, d) && fresh(next)
    ensures stack[|stack| - 1].statements == old(stack[|stack| - 1].statements) + [next]
  {
    hide ShowsStatement, StepToken;
    TopIsApart(stack, open, fs, base, d);
    FirstWordStep(fs, w);
    var top := stack[|stack| - 1];
    var s := new NginxConfigStatement();
    s.tokens := s.tokens + [w];
    top.statements := top.statements + [s];
    next := s;
    assert LowerLevels(stack, open, fs, base, d) by {
      hide Level;
    }
    hide Tree;
    TreeFromLevels(stack, open, fs, next, Top(fs).(words := [w]), base, d);
  }

  lemma FirstWordStep(fs: seq<Frame>, w: string)
    requires Stacked(fs) && Top(fs).words == []
    ensures StepToken(fs, Word(w)) == Some(Below(fs) + [Top(fs).(words := [w])])
  {
    assert Top(fs).words + [w] == [w];
  }

  /** Every further word is added to the statement begun. */
  method AddNextWord(stack: seq<NginxConfig>, w: string,
                     ghost open: seq<NginxConfigStatement?>, ghost fs: seq<Frame>,
                     ghost base: nat, ghost d: set<object>)
    requires Stacked(fs) && Tree(stack, open, fs, base, d) && Top(fs).words != []
    modifies TopOpen(open)
    ensures Tree(stack, open, StepToken(fs, Word(w)).value, base, d)
  {
    hide ShowsStatement;
    TopIsApart(stack, open, fs, base, d);
    var top := stack[|stack| - 1];
    var last := top.statements[|top.statements| - 1];
    last.tokens := last.tokens + [w];
    assert LowerLevels(stack, open, fs, base, d) by {
      hide Level;
    }
    TreeFromLevels(stack, open, fs, last, Top(fs).(words := Top(fs).words + [w]), base, d);
    assert open[|open| - 1 := last] == open;
  }

  /** A block opens: the statement begun gets a new configuration, which is pushed. */
  method OpenBlock(stack: seq<NginxConfig>,
                   ghost open: seq<NginxConfigStatement?>, ghost fs: seq<Frame>,
                   ghost base: nat, ghost d: set<object>)
    returns (pushed: seq<NginxConfig>)
    requires Stacked(fs) && Tree(stack, open, fs, base, d) && Top(fs).words != []
    modifies TopOpen(open)
    ensures |pushed| == |stack| + 1 && pushed[..|stack|] == stack && fresh(pushed[|stack|])
    ensures Tree(pushed, open + [null], StepToken(fs, StartBlock).value, base, d)
  {
    hide ShowsStatement;
    TopIsApart(stack, open, fs, base, d);
    var n := |stack| - 1;
    var top := stack[n];
    var newConfig := new NginxConfig();
    assert Level(top, fs[n], open[n], null, BaseAt(base, n), d);
    var last := top.statements[|top.statements| - 1];
    last.childBlock := newConfig;
    pushed := stack + [newConfig];
    assert LowerLevels(stack, open, fs, base, d) by {
      hide Level;
    }
    BlockOpened(stack, newConfig, open, fs, base, d);
  }

  lemma BlockOpened(stack: seq<NginxConfig>, o: NginxConfig, open: seq<NginxConfigStatement?>, fs: seq<Frame>,
                    base: nat, d: set<object>)
    requires LowerLevels(stack, open, fs, base, d)
    requires var n := |stack| - 1; Level(stack[n], fs[n], open[n], o, BaseAt(base, n), d)
    requires forall i, j :: 0 <= i < j < |stack| ==> stack[i] != stack[j]
    requires o !in stack && o !in d && o.statements == []
    ensures Tree(stack + [o], open + [null], fs + [Frame([], [])], base, d)
  {
    var st, op, gs := stack + [o], open + [null], fs + [Frame([], [])];
    assert Level(o, Frame([], []), null, null, 0, d);
    hide Level;
    forall k | 0 <= k < |st| ensures Level(st[k], gs[k], op[k], ChildAt(st, k), BaseAt(base, k), d) {
      if k < |stack| - 1 {
        assert Level(stack[k], fs[k], open[k], ChildAt(stack, k), BaseAt(base, k), d);
        assert ChildAt(st, k) == ChildAt(stack, k);
      }
    }
  }

  lemma LevelMore(o: NginxConfig, f: Frame, s: NginxConfigStatement?, child: NginxConfig?, base: nat,
                  d: set<object>, e: set<object>)
    requires Level(o, f, s, child, base, d) && d <= e && o !in e && (s != null ==> s !in e)
    ensures Level(o, f, s, child, base, e)
  {
    forall i | 0 <= i < |f.done| ensures ShowsStatement(o.statements[base + i], f.done[i], e) {
      ShowsMore(o.statements[base + i], f.done[i], d, e);
    }
  }

  /** Finishing a statement gives up its objects. */
  lemma LevelDone(o: NginxConfig, f: Frame, s: NginxConfigStatement, child: NginxConfig?, base: nat,
                  d: set<object>, e: set<object>, x: Statement)
    requires Level(o, f, s, child, base, d) && d <= e && o !in e
    requires ShowsStatement(s, x, e)
    ensures Level(o, Frame(f.done + [x], []), null, null, base, e)
  {
    var g := f.done + [x];
    forall i | 0 <= i < |g| ensures ShowsStatement(o.statements[base + i], g[i], e) {
      if i < |f.done| {
        ShowsMore(o.statements[base + i], f.done[i], d, e);
      }
    }
  }

  lemma LowerMore(stack: seq<NginxConfig>, open: seq<NginxConfigStatement?>, fs: seq<Frame>, base: nat,
                  d: set<object>, e: set<object>)
    requires LowerLevels(stack, open, fs, base, d) && d <= e
    requires forall k :: 0 <= k < |stack| - 1 ==> stack[k] !in e && (open[k] != null ==> open[k] !in e)
    ensures LowerLevels(stack, open, fs, base, e)
  {
    hide Level;
    forall k | 0 <= k < |stack| - 1 ensures Level(stack[k], fs[k], open[k], ChildAt(stack, k), BaseAt(base, k), e) {
      LevelMore(stack[k], fs[k], open[k], ChildAt(stack, k), BaseAt(base, k), d, e);
    }
  }

  lemma TreeIsApart(stack: seq<NginxConfig>, open: seq<NginxConfigStatement?>, fs: seq<Frame>, base: nat,
                    d: set<object>)
    requires Tree(stack, open, fs, base, d)
    ensures forall k :: 0 <= k < |stack| ==> stack[k] !in d && (open[k] != null ==> open[k] !in d)
    ensures LowerLevels(stack, open, fs, base, d)
  {
    forall k | 0 <= k < |stack| ensures stack[k] !in d && (open[k] != null ==> open[k] !in d) {
      assert Level(stack[k], fs[k], open[k], ChildAt(stack, k), BaseAt(base, k), d);
    }
  }

  /** A semicolon finishes the statement begun; no object changes. */
  lemma EndStatement(stack: seq<NginxConfig>, open: seq<NginxConfigStatement?>, fs: seq<Frame>, base: nat,
                     d: set<object>)
    requires Stacked(fs) && Tree(stack, open, fs, base, d) && Top(fs).words != []
    ensures open[|open| - 1] != null
    ensures Tree(stack, open[|open| - 1 := null], StepToken(fs, StatementEnd).value, base, d + {open[|open| - 1]})
  {
    hide Tree;
    TopIsApart(stack, open, fs, base, d);
    TreeIsApart(stack, open, fs, base, d);
    TreeShape(stack, open, fs, base, d);
    var n := |stack| - 1;
    var e := d + {open[n]};
    assert ShowsStatement(open[n], Simple(fs[n].words), e);
    LevelDone(stack[n], fs[n], open[n], null, BaseAt(base, n), d, e, Simple(fs[n].words));
    LowerMore(stack, open, fs, base, d, e);
    TreeFromLevels(stack, open, fs, null, Frame(fs[n].done + [Simple(fs[n].words)], []), base, e);
  }

  lemma TreeShape(stack: seq<NginxConfig>, open: seq<NginxConfigStatement?>, fs: seq<Frame>, base: nat, d: set<object>)
    requires Tree(stack, open, fs, base, d)
    ensures |stack| == |open| == |fs| > 0 && forall i, j :: 0 <= i < j < |stack| ==> stack[i] != stack[j]
  {
  }

  /** A closing brace finishes the block on top and the statement it belongs to; no object changes. */
  lemma CloseBlock(stack: seq<NginxConfig>, open: seq<NginxConfigStatement?>, fs: seq<Frame>, base: nat, d: set<object>)
    requires Stacked(fs) && Tree(stack, open, fs, base, d) && Top(fs).words == [] && |fs| > 1
    ensures |stack| == |open| == |fs| && open[|open| - 2] != null
    ensures var n := |stack| - 1;
            Tree(stack[..n], open[..n][n - 1 := null], StepToken(fs, EndBlock).value, base, d + {stack[n], open[n - 1]})
  {
    hide Tree, Level;
    TopIsApart(stack, open, fs, base, d);
    TreeIsApart(stack, open, fs, base, d);
    TreeShape(stack, open, fs, base, d);
    var n := |stack| - 1;
    var e := d + {stack[n], open[n - 1]};
    var x := Block(fs[n - 1].words, Config(fs[n].done));
    BlockShown(stack, open, fs, base, d, e);
    assert ChildAt(stack, n - 1) == stack[n];
    LevelDone(stack[n - 1], fs[n - 1], open[n - 1], stack[n], BaseAt(base, n - 1), d, e, x);
    LowerSkip(stack, open, fs, base, d);
    OpensDiffer(stack, open, fs, base, d);
    LowerMore(stack[..n], open[..n], fs[..n], base, d, e);
    assert Below(Below(fs)) == Below(fs[..n]) && Top(Below(fs)) == fs[n - 1];
    TreeFromLevels(stack[..n], open[..n], fs[..n], null, Frame(fs[n - 1].done + [x], []), base, e);
  }

  lemma LowerSkip(stack: seq<NginxConfig>, open: seq<NginxConfigStatement?>, fs: seq<Frame>, base: nat, d: set<object>)
    requires LowerLevels(stack, open, fs, base, d) && |stack| > 1
    ensures var n := |stack| - 1; LowerLevels(stack[..n], open[..n], fs[..n], base, d)
  {
    hide Level;
    var n := |stack| - 1;
    forall k | 0 <= k < n - 1
      ensures Level(stack[..n][k], fs[..n][k], open[..n][k], ChildAt(stack[..n], k), BaseAt(base, k), d)
    {
      assert Level(stack[k], fs[k], open[k], ChildAt(stack, k), BaseAt(base, k), d);
    }
  }

  lemma OpensDiffer(stack: seq<NginxConfig>, open: seq<NginxConfigStatement?>, fs: seq<Frame>, base: nat,
                    d: set<object>)
    requires Tree(stack, open, fs, base, d) && |stack| > 1 && Stacked(fs)
    ensures forall k :: 0 <= k < |stack| - 2 ==> open[k] != open[|stack| - 2]
  {
    var m := |stack| - 2;
    assert Level(stack[m], fs[m], open[m], ChildAt(stack, m), BaseAt(base, m), d);
    forall k | 0 <= k < m ensures open[k] != open[m] {
      assert Level(stack[k], fs[k], open[k], ChildAt(stack, k), BaseAt(base, k), d);
    }
  }

  lemma BlockShown(stack: seq<NginxConfig>, open: seq<NginxConfigStatement?>, fs: seq<Frame>, base: nat,
                   d: set<object>, e: set<object>)
    requires Stacked(fs) && Tree(stack, open, fs, base, d) && Top(fs).words == [] && |fs| > 1
    requires var n := |stack| - 1; open[n - 1] != null && e == d + {stack[n], open[n - 1]}
    ensures var n := |stack| - 1;
            && Level(stack[n - 1], fs[n - 1], open[n - 1], stack[n], BaseAt(base, n - 1), d)
            && ShowsStatement(open[n - 1], Block(fs[n - 1].words, Config(fs[n].done)), e)
  {
    var n := |stack| - 1;
    assert Level(stack[n], fs[n], open[n], ChildAt(stack, n), BaseAt(base, n), d);
    assert Level(stack[n - 1], fs[n - 1], open[n - 1], ChildAt(stack, n - 1), BaseAt(base, n - 1), d);
    forall i | 0 <= i < |fs[n].done| ensures ShowsStatement(stack[n].statements[i], fs[n].done[i], e) {
      assert ShowsStatement(stack[n].statements[0 + i], fs[n].done[i], d);
      ShowsMore(stack[n].statements[i], fs[n].done[i], d, e);
    }
    assert ShowsConfig(stack[n], Config(fs[n].done), e);
  }

  /** What the parser may write to: the root and the objects it has made. */
  ghost predicate Owned(config: NginxConfig, stack: seq<NginxConfig>, open: seq<NginxConfigStatement?>,
                        d: set<object>, mine: set<object>) {
    && stack != [] && stack[0] == config && d <= mine && config !in mine
    && (forall k :: 1 <= k < |stack| ==> stack[k] in mine)
    && (forall s <- open :: s != null ==> s in mine)
  }

  /** What an accepted token does to the objects: the pointer stack stays the open path of the tree. */
  method StepObjects(config: NginxConfig, stack: seq<NginxConfig>, token: Token, begins: bool,
                     ghost open: seq<NginxConfigStatement?>, ghost fs: seq<Frame>, ghost base: nat,
                     ghost d: set<object>, ghost mine: set<object>)
    returns (next: seq<NginxConfig>, ghost open2: seq<NginxConfigStatement?>,
             ghost d2: set<object>, ghost mine2: set<object>)
    requires Stacked(fs) && Tree(stack, open, fs, base, d) && Owned(config, stack, open, d, mine)
    requires StepToken(fs, token).Some? && (begins <==> Top(fs).words == [])
    modifies config, mine
    ensures Tree(next, open2, StepToken(fs, token).value, base, d2) && Owned(config, next, open2, d2, mine2)
    ensures mine <= mine2 && fresh(mine2 - mine)
    ensures old(config.statements) <= config.statements
  {
    hide Tree, Level, LowerLevels, ShowsStatement;
    TreeShape(stack, open, fs, base, d);
    next, open2, d2, mine2 := stack, open, d, mine;
    ghost var n := |stack| - 1;
    assert open[n] != null ==> open[n] in open;
    match token
    case Word(w) =>
      if begins {
        ghost var s := AddFirstWord(stack, w, open, fs, base, d);
        open2, mine2 := open[n := s], mine + {s};
      } else {
        AddNextWord(stack, w, open, fs, base, d);
      }
    case StatementEnd =>
      EndStatement(stack, open, fs, base, d);
      open2, d2 := open[n := null], d + {open[n]};
    case StartBlock =>
      next := OpenBlock(stack, open, fs, base, d);
      open2, mine2 := open + [null], mine + {next[|stack|]};
      assert forall k :: 0 <= k < |stack| ==> next[k] == next[..|stack|][k];
    case EndBlock =>
      CloseBlock(stack, open, fs, base, d);
      assert open[n - 1] in open;
      next := stack[..|stack| - 1];
      open2, d2 := open[..n][n - 1 := null], d + {stack[n], open[n - 1]};
  }

  /**
    Where the loop of the parser stands: the tokens `seen` have led to `fs`, and the
    rest of the input is still to come.
   */
  ghost predicate Parsing(s: string, seen: seq<Token>, fs: seq<Frame>, rest: string) {
    Stacked(fs) && Run(START, seen) == Some(fs) && TokensOf(s) == Prefix(seen, TokensOf(rest))
  }

  /** What the type of the last token says about the stack. */
  predicate LastFits(last: Option<Token>, fs: seq<Frame>)
    requires fs != []
  {
    && (last.None? ==> fs == START)
    && (last.Some? && last.value.Word? <==> Top(fs).words != [])
    && (last == Some(StartBlock) ==> |fs| > 1)
    && (last.Some? ==> last.value in {StatementEnd, StartBlock, EndBlock} || last.value.Word?)
  }

  lemma ParsingStarts(s: string)
    ensures Parsing(s, [], START, s) && LastFits(None, START)
  {
    PrefixPrefix([], [], TokensOf(s));
  }

  lemma ParsingAdvances(s: string, seen: seq<Token>, fs: seq<Frame>, rest: string, l: Lexed)
    requires Parsing(s, seen, fs, rest) && l == Lex(rest) && !l.token.Comment? && !l.token.Eof? && !l.token.Error?
    ensures StepToken(fs, l.token).Some? ==> Parsing(s, seen + [l.token], StepToken(fs, l.token).value, l.rest)
    ensures StepToken(fs, l.token).None? ==> ParseText(s).None?
  {
    var t := l.token;
    PrefixPrefix(seen, [t], TokensOf(l.rest));
    assert (seen + [t])[..|seen|] == seen;
    if StepToken(fs, t).None? {
      RejectedToken(s, seen, t, TokensOf(l.rest));
    }
  }

  lemma ParsingEnds(s: string, seen: seq<Token>, fs: seq<Frame>, rest: string)
    requires Parsing(s, seen, fs, rest)
    ensures Lex(rest).token.Eof? ==>
      ParseText(s) == if Finished(fs) then Some(Config(fs[0].done)) else None
    ensures Lex(rest).token.Error? ==> ParseText(s).None?
  {
    if Lex(rest).token.Eof? {
      assert seen + [] == seen;
    }
  }

  lemma LastFitsNext(last: Option<Token>, fs: seq<Frame>, t: Token)
    requires Stacked(fs) && LastFits(last, fs) && StepToken(fs, t).Some?
    ensures LastFits(Some(t), StepToken(fs, t).value)
  {
  }

  /**
    Parses a configuration file into an object. True is returned exactly for the
    texts that are valid but for a word they may end inside; the statements
    parsed are then appended to the object.
   */
  method Parse(configFile: InputStream, config: NginxConfig)
    returns (ok: bool, ghost tree: seq<Statement>, ghost d: set<object>)
    requires configFile.Valid()
    modifies configFile, config
    ensures ok <==> ParseText(old(configFile.Remaining())).Some?
    ensures Dropped(old(configFile.Remaining())).None? ==> (ok <==> StrictParse(old(configFile.Remaining())).Some?)
    ensures ok ==> ParseText(old(configFile.Remaining())) == Some(Config(tree)) && fresh(d)
    ensures ok ==> Appended(config, old(config.statements), tree, d)
  {
    hide Tree, Parsing, ParseText, StrictParse, Dropped, TokensOf, Lex;
    PromiseKept(configFile.Remaining());
    ghost var s, seen, fs, base := configFile.Remaining(), [], START, |config.statements|;
    ghost var open: seq<NginxConfigStatement?>, mine: set<object> := [null], {};
    tree, d := [], {};
    var configStack := [config];
    var last: Option<Token>, numOpenBlocks := None, 0;
    ParsingStarts(s);
    TreeStarts(config, base);
    while true
      invariant configFile.Valid() && Stacked(fs) && Parsing(s, seen, fs, configFile.Remaining())
      invariant |configStack| == |fs| == numOpenBlocks + 1 && LastFits(last, fs)
      invariant Tree(configStack, open, fs, base, d) && Owned(config, configStack, open, d, mine)
      invariant fresh(mine) && configFile !in mine
      invariant old(config.statements) <= config.statements
      decreases |configFile.Remaining()|
    {
      ghost var rest := configFile.Remaining();
      var token := ParseToken(configFile);
      LexShortens(rest);
      if token == Error {
        ParsingEnds(s, seen, fs, rest);
        return false, [], {};
      }
      if token == Comment {
        ParsingSkips(s, seen, fs, rest);
        continue;
      }
      if token == Eof {
        ParsingEnds(s, seen, fs, rest);
        if numOpenBlocks != 0 || !(last.None? || last.value == StatementEnd || last.value == EndBlock) {
          return false, [], {};
        }
        tree := fs[0].done;
        TreeShape(configStack, open, fs, base, d);
        TreeEnds(config, configStack, open, fs, base, d, mine);
        return true, tree, d;
      }
      ParsingAdvances(s, seen, fs, rest, Lexed(token, configFile.Remaining()));
      if token == StatementEnd || token == StartBlock {
        if last.None? || !last.value.Word? {
          return false, [], {};
        }
      } else if token == EndBlock {
        if last.None? || last.value.Word? || numOpenBlocks == 0 {
          return false, [], {};
        }
      }
      LastFitsNext(last, fs, token);
      var begins := last.None? || !last.value.Word?;
      configStack, open, d, mine := StepObjects(config, configStack, token, begins, open, fs, base, d, mine);
      seen, fs := seen + [token], StepToken(fs, token).value;
      TreeShape(configStack, open, fs, base, d);
      if token == StartBlock {
        numOpenBlocks := numOpenBlocks + 1;
      } else if token == EndBlock {
        numOpenBlocks := numOpenBlocks - 1;
      }
      last := Some(token);
    }
  }

  lemma ParsingSkips(s: string, seen: seq<Token>, fs: seq<Frame>, rest: string)
    requires Parsing(s, seen, fs, rest) && Lex(rest).token.Comment?
    ensures Parsing(s, seen, fs, Lex(rest).rest)
  {
  }

  lemma TreeStarts(config: NginxConfig, base: nat)
    requires base == |config.statements|
    ensures Tree([config], [null], START, base, {}) && Owned(config, [config], [null], {}, {})
  {
    assert Level(config, Frame([], []), null, null, base, {});
  }

  /** The statements of the tree follow the ones that were there before. */
  ghost predicate Appended(config: NginxConfig, before: seq<NginxConfigStatement>, tree: seq<Statement>, d: set<object>)
    reads config, d
  {
    && |config.statements| == |before| + |tree| && before <= config.statements
    && forall i :: 0 <= i < |tree| ==> ShowsStatement(config.statements[|before| + i], tree[i], d)
  }

  lemma TreeEnds(config: NginxConfig, stack: seq<NginxConfig>, open: seq<NginxConfigStatement?>, fs: seq<Frame>,
                 base: nat, d: set<object>, mine: set<object>)
    requires Tree(stack, open, fs, base, d) && Owned(config, stack, open, d, mine) && Finished(fs)
    ensures |config.statements| == base + |fs[0].done| && d <= mine
    ensures forall i :: 0 <= i < |fs[0].done| ==> ShowsStatement(config.statements[base + i], fs[0].done[i], d)
  {
    assert Level(stack[0], fs[0], open[0], ChildAt(stack, 0), BaseAt(base, 0), d);
  }

  /** Writes a configuration object that stands for the tree `c` as text. */
  method ToString(config: NginxConfig, depth: int, ghost c: Config, ghost d: set<object>) returns (s: string)
    requires ShowsConfig(config, c, d)
    ensures s == Print(c.statements, depth)
    decreases c, 1
  {
    s := "";
    for i := 0 to |config.statements|
      invariant s == Print(c.statements[..i], depth)
    {
      var t := StatementToString(config.statements[i], depth, c.statements[i], d);
      assert c.statements[..i + 1][..i] == c.statements[..i];
      s := s + t;
    }
    assert c.statements[..|c.statements|] == c.statements;
  }

  method StatementToString(statement: NginxConfigStatement, depth: int, ghost x: Statement, ghost d: set<object>)
    returns (s: string)
    requires ShowsStatement(statement, x, d)
    ensures s == PrintStatement(x, depth)
    decreases x, 0
  {
    hide Indent, Words, Print, ShowsConfig;
    var indent := IndentText(depth);
    var words := WordsText(statement.tokens);
    s := indent + words;
    if statement.childBlock != null {
      s := s + " {\n";
      var inner := ToString(statement.childBlock, depth + 1, x.child, d);
      s := s + inner;
      s := s + indent + "}";
      assert indent + words + (" {\n" + inner + indent + "}") == s;
    } else {
      s := s + ";";
    }
    s := s + "\n";
  }

  /** The words of a statement with single spaces between them. */
  method WordsText(tokens: seq<string>) returns (s: string)
    ensures s == Words(tokens)
  {
    s := "";
    for i := 0 to |tokens|
      invariant s == Words(tokens[..i])
    {
      assert tokens[..i + 1][..i] == tokens[..i];
      if i != 0 {
        s := s + " ";
      }
      s := s + tokens[i];
    }
    assert tokens[..|tokens|] == tokens;
  }

  method IndentText(depth: int) returns (s: string)
    ensures s == Indent(depth)
  {
    s := "";
    var i := 0;
    while i < depth
      invariant s == Indent(i) && i >= 0 && (if depth >= 0 then i <= depth else i == 0)
    {
      s := s + "  ";
      i := i + 1;
    }
  }
}
