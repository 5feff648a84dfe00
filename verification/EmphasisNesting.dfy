/**
  The unmatching pass: pairs that cross are taken apart with the help of a
  stack of open markers. `DropCrossed` says which pairs go without mentioning
  the stack; `StackInv` is what the stack holds on the way.
 */
module EmphasisNesting {
  import opened EmphasisTokens
  import opened EmphasisPairs

  /** The position of the open marker of pair `x`, or the length of the list when there is none. */
  function OpenAt(s: seq<Tok>, x: int): (p: nat)
    ensures p <= |s| && (p < |s| ==> s[p].MatchedOpen() && s[p].id == x)
    ensures HasOpen(s, x) ==> p < |s|
  {
    if s == [] then 0
    else if s[0].MatchedOpen() && s[0].id == x then 0
    else 1 + OpenAt(s[1..], x)
  }

  /** The position of the close marker of pair `x`, or the length of the list when there is none. */
  function CloseAt(s: seq<Tok>, x: int): (p: nat)
    ensures p <= |s| && (p < |s| ==> s[p].MatchedClose() && s[p].id == x)
    ensures HasClose(s, x) ==> p < |s|
  {
    if s == [] then 0
    else if s[0].MatchedClose() && s[0].id == x then 0
    else 1 + CloseAt(s[1..], x)
  }

  /** All matched markers of the list form pairs. */
  ghost predicate AllPaired(s: seq<Tok>) {
    && IdsUnique(s)
    && forall t <- s :: t.Matched() ==> HasOpen(s, t.id) && HasClose(s, t.id)
  }

  lemma PairPositions(s: seq<Tok>, p: nat)
    requires AllPaired(s) && p < |s| && s[p].Matched()
    ensures OpenAt(s, s[p].id) < CloseAt(s, s[p].id) < |s|
    ensures p == if s[p].open then OpenAt(s, s[p].id) else CloseAt(s, s[p].id)
    ensures SameKind(s[OpenAt(s, s[p].id)], s[CloseAt(s, s[p].id)])
  {
    assert s[p] in s;
    var x := s[p].id;
    var a, b := OpenAt(s, x), CloseAt(s, x);
    assert s[a].id == s[b].id;
    assert s[p].id == s[if s[p].open then a else b].id;
  }

  /** Pair `y` opens inside pair `x` and closes after it. */
  predicate CrossedBy(s: seq<Tok>, x: int, y: int) {
    OpenAt(s, x) < OpenAt(s, y) < CloseAt(s, x) < CloseAt(s, y) < |s|
  }

  ghost predicate Crossed(s: seq<Tok>, x: int) { exists y :: CrossedBy(s, x, y) }

  /** No two pairs cross: any two are nested or disjoint. */
  ghost predicate Nested(s: seq<Tok>) {
    forall x, y :: !CrossedBy(s, x, y)
  }

  /** The list with the crossed pairs that close before position `k` taken apart. */
  ghost function DropUpTo(s: seq<Tok>, k: nat): (r: seq<Tok>)
    ensures |r| == |s|
  {
    seq(|s|, p requires 0 <= p < |s| =>
      if s[p].Matched() && CloseAt(s, s[p].id) < k && Crossed(s, s[p].id) then s[p].WithId(-1) else s[p])
  }

  /** The result of the unmatching pass. */
  ghost function DropCrossed(s: seq<Tok>): (r: seq<Tok>) { DropUpTo(s, |s|) }

  /** The pair that opens at `p` is still open at position `k`. */
  ghost predicate OpenPast(s: seq<Tok>, p: nat, k: nat) {
    p < |s| && p < k && s[p].MatchedOpen() && CloseAt(s, s[p].id) >= k
  }

  /**
    The stack, as positions in the list, when the pass stands at `k`: matched
    open markers in list order, among them all pairs still open; every other
    entry was crossed.
   */
  ghost predicate StackBody(s: seq<Tok>, k: nat, stack: seq<nat>) {
    && k <= |s|
    && (forall i :: 0 <= i < |stack| ==> stack[i] < k && s[stack[i]].MatchedOpen())
    && (forall i, j :: 0 <= i < j < |stack| ==> stack[i] < stack[j])
    && (forall p: nat | OpenPast(s, p, k) :: p in stack)
    && (forall i | 0 <= i < |stack| && !OpenPast(s, stack[i], k) :: Crossed(s, s[stack[i]].id))
  }

  /** Between two steps the top of the stack is a pair that is still open. */
  ghost predicate StackInv(s: seq<Tok>, k: nat, stack: seq<nat>) {
    && StackBody(s, k, stack)
    && (stack != [] ==> OpenPast(s, stack[|stack| - 1], k))
  }

  lemma StackStarts(s: seq<Tok>)
    ensures StackInv(s, 0, []) && DropUpTo(s, 0) == s
  {
  }

  lemma TopIsUntouched(s: seq<Tok>, k: nat, stack: seq<nat>)
    requires StackInv(s, k, stack) && stack != []
    ensures var top := stack[|stack| - 1]; top < |s| && DropUpTo(s, k)[top] == s[top] && s[top].MatchedOpen()
  {
  }

  /** One position on, only the pair that closes right here stops being open. */
  lemma OpenPastNext(s: seq<Tok>, p: nat, k: nat)
    requires AllPaired(s) && k < |s| && OpenPast(s, p, k)
    ensures OpenPast(s, p, k + 1) <==> !(s[k].MatchedClose() && s[k].id == s[p].id)
  {
    hide AllPaired;
    PairPositions(s, p);
    if s[k].MatchedClose() {
      PairPositions(s, k);
    }
  }

  lemma OpenPastPrevious(s: seq<Tok>, p: nat, k: nat)
    requires AllPaired(s) && k < |s| && OpenPast(s, p, k + 1)
    ensures OpenPast(s, p, k) || (p == k && s[k].MatchedOpen())
  {
  }

  lemma StackSkip(s: seq<Tok>, k: nat, stack: seq<nat>)
    requires AllPaired(s) && StackInv(s, k, stack) && k < |s| && !s[k].Matched()
    ensures StackInv(s, k + 1, stack)
  {
    hide AllPaired, Crossed;
    forall p: nat | OpenPast(s, p, k) ensures OpenPast(s, p, k + 1) {
      OpenPastNext(s, p, k);
    }
    forall p: nat | OpenPast(s, p, k + 1) ensures p in stack {
      OpenPastPrevious(s, p, k);
    }
  }

  lemma StackPush(s: seq<Tok>, k: nat, stack: seq<nat>)
    requires AllPaired(s) && StackInv(s, k, stack) && k < |s| && s[k].MatchedOpen()
    ensures StackInv(s, k + 1, stack + [k])
  {
    hide AllPaired, Crossed;
    var pushed := stack + [k];
    PairPositions(s, k);
    assert OpenPast(s, k, k + 1);
    forall p: nat | OpenPast(s, p, k) ensures OpenPast(s, p, k + 1) {
      OpenPastNext(s, p, k);
    }
    forall p: nat | OpenPast(s, p, k + 1) ensures p in pushed {
      OpenPastPrevious(s, p, k);
      assert p != k ==> p in stack;
    }
    forall i | 0 <= i < |pushed| && !OpenPast(s, pushed[i], k + 1) ensures Crossed(s, s[pushed[i]].id) {
      assert pushed[i] == stack[i];
    }
  }

  /** At a close marker the stack is not empty: its own open marker is there. */
  lemma StackNotEmpty(s: seq<Tok>, k: nat, stack: seq<nat>)
    requires AllPaired(s) && StackInv(s, k, stack) && k < |s| && s[k].MatchedClose()
    ensures stack != [] && OpenAt(s, s[k].id) in stack && OpenPast(s, OpenAt(s, s[k].id), k)
  {
    hide AllPaired;
    PairPositions(s, k);
    assert OpenPast(s, OpenAt(s, s[k].id), k);
  }

  /** Whatever is still open and opened after the pair that closes at `k` crosses it, and nothing else does. */
  lemma CrossedIffOpenLater(s: seq<Tok>, k: nat, t: nat)
    requires AllPaired(s) && k < |s| && s[k].MatchedClose() && OpenPast(s, t, k)
    ensures OpenAt(s, s[k].id) < t ==> Crossed(s, s[k].id)
    ensures s[t].id == s[k].id ==> t == OpenAt(s, s[k].id)
  {
    hide AllPaired;
    PairPositions(s, k);
    PairPositions(s, t);
    if OpenAt(s, s[k].id) < t {
      assert CrossedBy(s, s[k].id, s[t].id);
    }
  }

  lemma CrossingIsOpenLater(s: seq<Tok>, k: nat) returns (t: nat)
    requires AllPaired(s) && k < |s| && s[k].MatchedClose() && Crossed(s, s[k].id)
    ensures OpenPast(s, t, k) && OpenAt(s, s[k].id) < t
  {
    hide AllPaired;
    PairPositions(s, k);
    var y :| CrossedBy(s, s[k].id, y);
    t := OpenAt(s, y);
    PairPositions(s, t);
  }

  /** The top of the stack is the closing pair itself exactly when that pair is not crossed. */
  lemma StackTop(s: seq<Tok>, k: nat, stack: seq<nat>)
    requires AllPaired(s) && StackInv(s, k, stack) && k < |s| && s[k].MatchedClose()
    ensures stack != [] && OpenAt(s, s[k].id) in stack
    ensures s[stack[|stack| - 1]].id == s[k].id <==> !Crossed(s, s[k].id)
  {
    hide AllPaired, Crossed;
    StackNotEmpty(s, k, stack);
    var a, top := OpenAt(s, s[k].id), stack[|stack| - 1];
    CrossedIffOpenLater(s, k, top);
    if s[top].id == s[k].id && Crossed(s, s[k].id) {
      var t := CrossingIsOpenLater(s, k);
      assert false;
    }
    if s[top].id != s[k].id {
      assert a < top;
    }
  }

  lemma StackMiss(s: seq<Tok>, k: nat, stack: seq<nat>)
    requires AllPaired(s) && StackInv(s, k, stack) && k < |s| && s[k].MatchedClose()
    requires Crossed(s, s[k].id)
    ensures StackInv(s, k + 1, stack)
  {
    hide AllPaired, Crossed;
    StackTop(s, k, stack);
    forall p: nat | OpenPast(s, p, k) && !OpenPast(s, p, k + 1) ensures s[p].id == s[k].id {
      OpenPastNext(s, p, k);
    }
    OpenPastNext(s, stack[|stack| - 1], k);
    forall p: nat | OpenPast(s, p, k + 1) ensures p in stack {
      OpenPastPrevious(s, p, k);
    }
  }

  lemma StackHit(s: seq<Tok>, k: nat, stack: seq<nat>)
    requires AllPaired(s) && StackInv(s, k, stack) && k < |s| && s[k].MatchedClose()
    requires !Crossed(s, s[k].id)
    ensures stack != [] && StackBody(s, k + 1, stack[..|stack| - 1])
  {
    hide AllPaired, Crossed;
    StackTop(s, k, stack);
    var top, rest := stack[|stack| - 1], stack[..|stack| - 1];
    CrossedIffOpenLater(s, k, top);
    forall p: nat | OpenPast(s, p, k + 1) ensures p in rest {
      OpenPastPrevious(s, p, k);
      OpenPastNext(s, p, k);
      assert p in stack && p != top;
    }
    forall i | 0 <= i < |rest| && !OpenPast(s, rest[i], k + 1) ensures Crossed(s, s[rest[i]].id) {
      if OpenPast(s, rest[i], k) {
        OpenPastNext(s, rest[i], k);
        CrossedIffOpenLater(s, k, rest[i]);
      }
    }
  }

  /** A dead entry may be popped. */
  lemma StackDrop(s: seq<Tok>, k: nat, stack: seq<nat>)
    requires StackBody(s, k, stack) && stack != [] && !OpenPast(s, stack[|stack| - 1], k)
    ensures StackBody(s, k, stack[..|stack| - 1])
  {
    var rest := stack[..|stack| - 1];
    forall p: nat | OpenPast(s, p, k) ensures p in rest {
      assert p in stack && p != stack[|stack| - 1];
    }
  }

  /** A stack entry is dead exactly when the pass has already taken its pair apart. */
  lemma DeadIffUnmatched(s: seq<Tok>, k: nat, stack: seq<nat>, i: nat)
    requires StackBody(s, k, stack) && i < |stack|
    ensures OpenPast(s, stack[i], k) <==> DropUpTo(s, k)[stack[i]].Matched()
  {
  }

  /** What the pass has left at a position when it stands at `k`, and where the remaining pairs are. */
  lemma SurvivorKeepsPlace(s: seq<Tok>, k: nat, p: nat)
    requires AllPaired(s) && p < |s| && DropUpTo(s, k)[p].Matched()
    ensures s[p].Matched() && DropUpTo(s, k)[p] == s[p]
    ensures p == if s[p].open then OpenAt(s, s[p].id) else CloseAt(s, s[p].id)
  {
    hide AllPaired;
    PairPositions(s, p);
  }

  lemma SurvivorHasBoth(s: seq<Tok>, k: nat, p: nat)
    requires AllPaired(s) && p < |s| && DropUpTo(s, k)[p].Matched()
    ensures HasOpen(DropUpTo(s, k), s[p].id) && HasClose(DropUpTo(s, k), s[p].id)
  {
    SurvivorKeepsPlace(s, k, p);
    PairPositions(s, p);
    var r, x := DropUpTo(s, k), s[p].id;
    assert r[OpenAt(s, x)] == s[OpenAt(s, x)] && r[OpenAt(s, x)] in r;
    assert r[CloseAt(s, x)] == s[CloseAt(s, x)] && r[CloseAt(s, x)] in r;
  }

  /** At every step of the unmatching pass the matched markers form pairs. */
  lemma DropUpToPaired(s: seq<Tok>, k: nat)
    requires AllPaired(s)
    ensures AllPaired(DropUpTo(s, k))
  {
    var r := DropUpTo(s, k);
    forall t | t in r && t.Matched() ensures HasOpen(r, t.id) && HasClose(r, t.id) {
      var p :| 0 <= p < |r| && r[p] == t;
      SurvivorKeepsPlace(s, k, p);
      SurvivorHasBoth(s, k, p);
    }
    forall p, q | 0 <= p < q < |r| && r[p].Matched() && r[q].Matched() && r[p].id == r[q].id
      ensures r[p].open && !r[q].open && SameKind(r[p], r[q])
    {
      SurvivorKeepsPlace(s, k, p);
      SurvivorKeepsPlace(s, k, q);
    }
  }

  lemma ClosesBeforeNext(s: seq<Tok>, k: nat, p: nat)
    requires AllPaired(s) && k < |s| && p < |s| && s[p].Matched()
    ensures CloseAt(s, s[p].id) == k <==> s[k].MatchedClose() && s[k].id == s[p].id
  {
    hide AllPaired;
    PairPositions(s, p);
    if s[k].MatchedClose() {
      PairPositions(s, k);
    }
  }

  /** The pair that closes at `k` is taken apart if it is crossed, and nothing else happens. */
  ghost predicate Dropped(s: seq<Tok>, k: nat, v: seq<Tok>, r: seq<Tok>)
    requires k < |s|
  {
    && |r| == |v|
    && forall p :: 0 <= p < |v| ==>
         r[p] == if s[k].MatchedClose() && Crossed(s, s[k].id) && v[p].Matched() && v[p].id == s[k].id
                 then v[p].WithId(-1) else v[p]
  }

  lemma DropNext(s: seq<Tok>, k: nat, r: seq<Tok>)
    requires AllPaired(s) && k < |s|
    requires Dropped(s, k, DropUpTo(s, k), r)
    ensures r == DropUpTo(s, k + 1)
  {
    hide AllPaired, Crossed;
    var v, w := DropUpTo(s, k), DropUpTo(s, k + 1);
    forall p | 0 <= p < |s| ensures r[p] == w[p] {
      DropNextAt(s, k, p);
    }
  }

  lemma DropNextAt(s: seq<Tok>, k: nat, p: nat)
    requires AllPaired(s) && k < |s| && p < |s|
    ensures var v := DropUpTo(s, k);
            DropUpTo(s, k + 1)[p] ==
              if s[k].MatchedClose() && Crossed(s, s[k].id) && v[p].Matched() && v[p].id == s[k].id
              then v[p].WithId(-1) else v[p]
  {
    if s[p].Matched() {
      ClosesBeforeNext(s, k, p);
    }
  }

  /** The close marker the pass stands at has not been touched yet. */
  lemma CurrentUntouched(s: seq<Tok>, k: nat)
    requires AllPaired(s) && k < |s|
    ensures s[k].MatchedClose() ==> DropUpTo(s, k)[k] == s[k]
    ensures s[k].MatchedOpen() ==> DropUpTo(s, k)[k] == s[k]
    ensures DropUpTo(s, k)[k].Matched() ==> s[k].Matched()
  {
    if s[k].Matched() {
      PairPositions(s, k);
    }
  }

  /** A crossing that survived would have been there before. */
  lemma SurvivingCrossing(s: seq<Tok>, x: int, y: int)
    requires AllPaired(s) && CrossedBy(DropCrossed(s), x, y)
    ensures CrossedBy(s, x, y) && DropCrossed(s)[OpenAt(s, x)] == s[OpenAt(s, x)]
  {
    hide AllPaired, DropUpTo, Crossed;
    var r := DropCrossed(s);
    SurvivorKeepsPlace(s, |s|, OpenAt(r, x));
    SurvivorKeepsPlace(s, |s|, OpenAt(r, y));
    SurvivorKeepsPlace(s, |s|, CloseAt(r, x));
    SurvivorKeepsPlace(s, |s|, CloseAt(r, y));
  }

  /** A crossed pair does not survive. */
  lemma CrossedIsDropped(s: seq<Tok>, x: int, y: int)
    requires CrossedBy(s, x, y)
    ensures DropCrossed(s)[OpenAt(s, x)] == s[OpenAt(s, x)].WithId(-1)
  {
    assert Crossed(s, x);
  }

  /** After the unmatching pass any two surviving pairs are nested or disjoint. */
  lemma DropCrossedNested(s: seq<Tok>)
    requires AllPaired(s)
    ensures Nested(DropCrossed(s))
  {
    var r := DropCrossed(s);
    forall x, y ensures !CrossedBy(r, x, y) {
      hide AllPaired, DropUpTo;
      if CrossedBy(r, x, y) {
        SurvivingCrossing(s, x, y);
        CrossedIsDropped(s, x, y);
        assert false;
      }
    }
  }

  /** The pass changes nothing exactly when the matching was nested already. */
  lemma DropCrossedUnchanged(s: seq<Tok>)
    requires AllPaired(s)
    ensures DropCrossed(s) == s <==> Nested(s)
  {
    if Nested(s) {
      assert DropCrossed(s) == s;
    } else {
      DropCrossedNested(s);
    }
  }

  /** A second run of the pass has nothing left to do. */
  lemma DropCrossedIdempotent(s: seq<Tok>)
    requires AllPaired(s)
    ensures DropCrossed(DropCrossed(s)) == DropCrossed(s)
  {
    DropUpToPaired(s, |s|);
    DropCrossedNested(s);
    DropCrossedUnchanged(DropCrossed(s));
  }

  /** Lists that differ only in ids stand for the same text. */
  lemma {:induction false} IdsDoNotShow(a: seq<Tok>, b: seq<Tok>)
    requires |a| == |b|
    requires forall p :: 0 <= p < |a| ==> b[p] == a[p] || (a[p].Mark? && b[p] == a[p].WithId(-1))
    ensures Literal(a) == Literal(b)
  {
    if a != [] {
      assert forall p :: 0 <= p < |a[1..]| ==> a[1..][p] == a[p + 1] && b[1..][p] == b[p + 1];
      IdsDoNotShow(a[1..], b[1..]);
      assert b[0].Literal() == a[0].Literal();
    }
  }

  /** Unmatching conserves the literal text and the marker sizes at every step. */
  lemma DropConserves(s: seq<Tok>, k: nat)
    requires AllSound(s)
    ensures Literal(DropUpTo(s, k)) == Literal(s) && AllSound(DropUpTo(s, k))
  {
    var r := DropUpTo(s, k);
    IdsDoNotShow(s, r);
    forall t | t in r ensures t.Sound() {
      var p :| 0 <= p < |r| && r[p] == t;
      assert s[p] in s;
    }
  }

  /** The matching pass on a fresh list gives the unmatching pass a list of pairs to work on. */
  lemma MatchedListIsPaired(s: seq<Tok>, hi: nat)
    requires WellPaired(s, 0, hi)
    ensures AllPaired(s)
  {
    forall t | t in s && t.Matched() ensures HasOpen(s, t.id) && HasClose(s, t.id) {
      assert t.MatchedOpen() || t.MatchedClose();
    }
  }
}
