/**
  Rendering the resolved list: matched markers become em and strong tags, the
  others their own characters.
 */
module EmphasisRender {
  import opened EmphasisTokens
  import opened EmphasisNesting

  datatype Name = Em | Strong

  datatype Piece = Start(name: Name) | End(name: Name) | Chars(chars: string)

  function Show(p: Piece): string {
    match p
    case Start(Em) => "<em>"
    case Start(Strong) => "<strong>"
    case End(Em) => "</em>"
    case End(Strong) => "</strong>"
    case Chars(c) => c
  }

  function ShowAll(ps: seq<Piece>): string {
    if ps == [] then "" else Show(ps[0]) + ShowAll(ps[1..])
  }

  /** The elements a marker of the given size stands for, outermost first. */
  function Names(size: nat): seq<Name> {
    if size == 1 then [Em] else if size == 2 then [Strong] else [Strong, Em]
  }

  /** The pieces written for one token. */
  function Pieces(t: Tok): seq<Piece> {
    match t
    case Text(s) => [Chars(s)]
    case Mark(open, _, size, id, disabled) =>
      if disabled then []
      else if id < 0 then [Chars(t.Literal())]
      else if open then
        (if size == 1 then [Start(Em)] else if size == 2 then [Start(Strong)] else [Start(Strong), Start(Em)])
      else (if size == 1 then [End(Em)] else if size == 2 then [End(Strong)] else [End(Em), End(Strong)])
  }

  /** What a token writes: its tags while it is matched, else its own characters, and nothing when it is disabled. */
  lemma PiecesShown(t: Tok)
    requires t.Mark? ==> 1 <= t.size <= 3
    ensures ShowAll(Pieces(t)) ==
      if t.Text? then t.text
      else if t.disabled then ""
      else if t.id < 0 then seq(t.size, _ => t.ch)
      else if t.open then (if t.size == 1 then "<em>" else if t.size == 2 then "<strong>" else "<strong><em>")
      else if t.size == 1 then "</em>" else if t.size == 2 then "</strong>" else "</em></strong>"
  {
    var ps := Pieces(t);
    if |ps| == 2 {
      assert ps[1..] == [ps[1]];
      assert ShowAll([ps[1]]) == Show(ps[1]);
    } else if |ps| == 1 {
      assert ps[1..] == [];
    }
  }

  function Render(s: seq<Tok>): seq<Piece> {
    if s == [] then [] else Pieces(s[0]) + Render(s[1..])
  }

  lemma {:induction false} RenderSnoc(s: seq<Tok>, t: Tok)
    ensures Render(s + [t]) == Render(s) + Pieces(t)
  {
    if s == [] {
      assert (s + [t])[1..] == [];
    } else {
      assert (s + [t])[1..] == s[1..] + [t];
      RenderSnoc(s[1..], t);
    }
  }

  lemma {:induction false} ShowAllConcat(a: seq<Piece>, b: seq<Piece>)
    ensures ShowAll(a + b) == ShowAll(a) + ShowAll(b)
  {
    if a == [] {
      assert a + b == b;
    } else {
      assert (a + b)[1..] == a[1..] + b;
      ShowAllConcat(a[1..], b);
    }
  }

  /** `ps` closes exactly the elements `open`, innermost last, and every element it opens itself. */
  predicate Balanced(ps: seq<Piece>, open: seq<Name>) {
    if ps == [] then open == []
    else match ps[0]
      case Start(n) => Balanced(ps[1..], open + [n])
      case End(n) => open != [] && open[|open| - 1] == n && Balanced(ps[1..], open[..|open| - 1])
      case Chars(_) => Balanced(ps[1..], open)
  }

  /** The elements opened by the markers at the given positions. */
  function OpenNames(s: seq<Tok>, stack: seq<nat>): seq<Name>
    requires forall i :: 0 <= i < |stack| ==> stack[i] < |s| && s[stack[i]].Mark?
  {
    if stack == [] then []
    else OpenNames(s, stack[..|stack| - 1]) + Names(s[stack[|stack| - 1]].size)
  }

  lemma BalancedOpen(t: Tok, ps: seq<Piece>, open: seq<Name>)
    requires t.MatchedOpen() && t.Sound()
    requires Balanced(ps, open + Names(t.size))
    ensures Balanced(Pieces(t) + ps, open)
  {
    var all := Pieces(t) + ps;
    if t.size == 3 {
      assert all[1..][0] == Start(Em) && all[1..][1..] == ps;
      assert open + [Strong] + [Em] == open + Names(t.size);
    } else {
      assert all[1..] == ps;
    }
  }

  lemma BalancedClose(t: Tok, ps: seq<Piece>, open: seq<Name>)
    requires t.MatchedClose() && t.Sound()
    requires Balanced(ps, open)
    ensures Balanced(Pieces(t) + ps, open + Names(t.size))
  {
    var all := Pieces(t) + ps;
    var deep := open + Names(t.size);
    if t.size == 3 {
      assert all[1..][0] == End(Strong) && all[1..][1..] == ps;
      assert deep[..|deep| - 1] == open + [Strong];
      assert (open + [Strong])[..|open|] == open;
    } else {
      assert all[1..] == ps && deep[..|deep| - 1] == open;
    }
  }

  lemma BalancedChars(t: Tok, ps: seq<Piece>, open: seq<Name>)
    requires !t.Matched() && Balanced(ps, open)
    ensures Balanced(Pieces(t) + ps, open)
  {
    var all := Pieces(t) + ps;
    if Pieces(t) == [] {
      assert all == ps;
    } else {
      assert all[1..] == ps;
    }
  }

  ghost predicate Positions(s: seq<Tok>, stack: seq<nat>) {
    forall i :: 0 <= i < |stack| ==> stack[i] < |s| && s[stack[i]].MatchedOpen()
  }

  lemma RenderStep(s: seq<Tok>, k: nat)
    requires k < |s|
    ensures Render(s[k..]) == Pieces(s[k]) + Render(s[k + 1..])
  {
    assert s[k..][0] == s[k] && s[k..][1..] == s[k + 1..];
  }

  lemma OpenStep(s: seq<Tok>, k: nat, stack: seq<nat>)
    requires k < |s| && s[k].MatchedOpen() && s[k].Sound() && Positions(s, stack)
    requires Positions(s, stack + [k]) && Balanced(Render(s[k + 1..]), OpenNames(s, stack + [k]))
    ensures Balanced(Render(s[k..]), OpenNames(s, stack))
  {
    assert (stack + [k])[..|stack|] == stack;
    BalancedOpen(s[k], Render(s[k + 1..]), OpenNames(s, stack));
    RenderStep(s, k);
  }

  /** A nested list meets every close marker with its own open marker on top of the stack. */
  lemma CloseStepStack(s: seq<Tok>, k: nat, stack: seq<nat>)
    requires AllPaired(s) && Nested(s) && StackInv(s, k, stack) && k < |s| && s[k].MatchedClose()
    ensures stack != [] && StackInv(s, k + 1, stack[..|stack| - 1])
    ensures s[stack[|stack| - 1]].size == s[k].size
  {
    StackTop(s, k, stack);
    StackHit(s, k, stack);
    var rest := stack[..|stack| - 1];
    assert rest != [] ==> !Crossed(s, s[rest[|rest| - 1]].id);
    CrossedIffOpenLater(s, k, stack[|stack| - 1]);
    PairPositions(s, k);
  }

  lemma CloseStep(s: seq<Tok>, k: nat, stack: seq<nat>)
    requires k < |s| && s[k].MatchedClose() && s[k].Sound() && Positions(s, stack) && stack != []
    requires s[stack[|stack| - 1]].size == s[k].size
    requires Balanced(Render(s[k + 1..]), OpenNames(s, stack[..|stack| - 1]))
    ensures Balanced(Render(s[k..]), OpenNames(s, stack))
  {
    BalancedClose(s[k], Render(s[k + 1..]), OpenNames(s, stack[..|stack| - 1]));
    RenderStep(s, k);
  }

  /** A nested list of pairs with the pass standing at `k`. */
  ghost predicate Walk(s: seq<Tok>, k: nat, stack: seq<nat>) {
    && AllPaired(s) && Nested(s) && AllSound(s)
    && StackInv(s, k, stack) && Positions(s, stack)
  }

  /** From any position of a nested list, the tags still to come close exactly the elements on the stack. */
  lemma {:induction false} NestedRendersBalanced(s: seq<Tok>, k: nat, stack: seq<nat>)
    requires Walk(s, k, stack)
    ensures Balanced(Render(s[k..]), OpenNames(s, stack))
    decreases |s| - k, 1
  {
    if k == |s| {
      EndOfList(s, stack);
    } else if !s[k].Matched() {
      SkipCase(s, k, stack);
    } else if s[k].open {
      OpenCase(s, k, stack);
    } else {
      CloseCase(s, k, stack);
    }
  }

  lemma {:induction false} SkipCase(s: seq<Tok>, k: nat, stack: seq<nat>)
    requires Walk(s, k, stack) && k < |s| && !s[k].Matched()
    ensures Balanced(Render(s[k..]), OpenNames(s, stack))
    decreases |s| - k, 0
  {
    StackSkip(s, k, stack);
    NestedRendersBalanced(s, k + 1, stack);
    BalancedChars(s[k], Render(s[k + 1..]), OpenNames(s, stack));
    RenderStep(s, k);
  }

  lemma {:induction false} OpenCase(s: seq<Tok>, k: nat, stack: seq<nat>)
    requires Walk(s, k, stack) && k < |s| && s[k].MatchedOpen()
    ensures Balanced(Render(s[k..]), OpenNames(s, stack))
    decreases |s| - k, 0
  {
    StackPush(s, k, stack);
    NestedRendersBalanced(s, k + 1, stack + [k]);
    assert s[k] in s;
    OpenStep(s, k, stack);
  }

  lemma {:induction false} CloseCase(s: seq<Tok>, k: nat, stack: seq<nat>)
    requires Walk(s, k, stack) && k < |s| && s[k].MatchedClose()
    ensures Balanced(Render(s[k..]), OpenNames(s, stack))
    decreases |s| - k, 0
  {
    CloseStepStack(s, k, stack);
    NestedRendersBalanced(s, k + 1, stack[..|stack| - 1]);
    assert s[k] in s;
    CloseStep(s, k, stack);
  }

  lemma EndOfList(s: seq<Tok>, stack: seq<nat>)
    requires AllPaired(s) && StackInv(s, |s|, stack)
    ensures stack == []
  {
    if stack != [] {
      PairPositions(s, stack[|stack| - 1]);
    }
  }

  /** The em and strong tags written for the whole resolved list are balanced. */
  lemma ResolvedRendersBalanced(s: seq<Tok>)
    requires AllPaired(s) && AllSound(s)
    ensures Balanced(Render(DropCrossed(s)), [])
  {
    var r := DropCrossed(s);
    DropUpToPaired(s, |s|);
    DropCrossedNested(s);
    DropConserves(s, |s|);
    assert r[0..] == r;
    NestedRendersBalanced(r, 0, []);
  }
}
