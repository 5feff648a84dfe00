/**
  When the matching pass ends. The two nested loops grow the list they walk, so
  they are given here turn by turn, for markers of any size.
 */
module EmphasisTermination {
  import opened EmphasisTokens
  import opened EmphasisMatching

  predicate AtMostThree(s: seq<Tok>) { forall t <- s :: t.Mark? ==> t.size <= 3 }

  /**
    The two loops: either the outer one stands at the head of `rest`, or the
    inner one searches for the partner of `o`, has passed `seen` and stands at
    the head of `rest`. `done` is behind the outer iterator.
   */
  datatype Loop =
    | Visit(done: seq<Tok>, rest: seq<Tok>, id: nat)
    | Find(done: seq<Tok>, o: Tok, seen: seq<Tok>, rest: seq<Tok>, id: nat)
    | Halted(list: seq<Tok>, nextId: nat)

  predicate Bounded(st: Loop) {
    match st
    case Visit(_, rest, _) => AtMostThree(rest)
    case Find(_, o, seen, rest, _) => o.Mark? && o.size <= 3 && AtMostThree(seen) && AtMostThree(rest)
    case Halted(_, _) => true
  }

  lemma AtMostThreeConcat(a: seq<Tok>, b: seq<Tok>)
    ensures AtMostThree(a + b) <==> AtMostThree(a) && AtMostThree(b)
  {
    assert forall t <- a :: t in a + b;
    assert forall t <- b :: t in a + b;
  }

  /** One turn of a loop, for markers of any size up to 3, 0 included. */
  function LoopStep(st: Loop): (r: Loop)
    requires Bounded(st)
    ensures Bounded(r)
  {
    match st
    case Halted(_, _) => st
    case Visit(done, rest, id) =>
      if rest == [] then Halted(done, id)
      else
        var o, tail := rest[0], rest[1..];
        assert o in rest;
        if o.UnmatchedOpen() then Find(done, o, [], tail, id) else Visit(done + [o], tail, id)
    case Find(done, o, seen, rest, id) =>
      if rest == [] then Visit(done + [o], seen, id)
      else
        var c, tail := rest[0], rest[1..];
        assert c in rest;
        if !c.UnmatchedClose() then Find(done, o, seen + [c], tail, id)
        else if c.size == 3 && o.size != 3 then
          AtMostThreeConcat(Halves(false, c.ch, o.size), tail);
          Find(done, o, seen + [c.Disable()], Halves(false, c.ch, o.size) + tail, id)
        else if SameKind(c, o) then Visit(done + [o.WithId(id)], seen + [c.WithId(id)] + tail, id + 1)
        else if o.size == 3 then
          AtMostThreeConcat(Halves(true, o.ch, c.size), seen + rest);
          Visit(done + [o.Disable()], Halves(true, o.ch, c.size) + (seen + rest), id)
        else Find(done, o, seen + [c], tail, id)
  }

  function After(st: Loop, n: nat): (r: Loop)
    requires Bounded(st)
    ensures Bounded(r)
    decreases n
  {
    if n == 0 then st else After(LoopStep(st), n - 1)
  }

  lemma {:induction false} AfterAfter(st: Loop, m: nat, n: nat)
    requires Bounded(st)
    ensures After(After(st, m), n) == After(st, m + n)
    decreases m
  {
    if m > 0 {
      AfterAfter(LoopStep(st), m - 1, n);
    }
  }

  /** Where the outer loop stands when the search for `o` has ended with `r`. */
  function Resumed(done: seq<Tok>, o: Tok, seen: seq<Tok>, r: Scanned, id: nat): Loop
    requires o.Mark? && (r.outcome.SplitOpen? ==> r.outcome.closeSize <= 3)
  {
    match r.outcome
    case NotFound => Visit(done + [o], seen + r.rest, id)
    case Paired => Visit(done + [o.WithId(id)], seen + r.rest, id + 1)
    case SplitOpen(k) => Visit(done + [o.Disable()], Halves(true, o.ch, k) + (seen + r.rest), id)
    case Collision => Visit(done + [o.Disable()], Halves(true, o.ch, 3) + (seen + r.rest), id)
  }

  /** The search does not stop at the head of `rest`. */
  predicate GoesOn(o: Tok, rest: seq<Tok>)
    requires o.Mark?
  {
    rest != [] && (rest[0].UnmatchedClose() ==> o.size != 3 && (rest[0].size == 3 || !SameKind(rest[0], o)))
  }

  lemma FindStops(done: seq<Tok>, o: Tok, seen: seq<Tok>, rest: seq<Tok>, id: nat)
    requires o.Mark? && 1 <= o.size <= 3 && AtMostThree(seen) && AtMostThree(rest)
    requires !GoesOn(o, rest)
    ensures var r := Scan(o, rest, id);
            && (r.outcome.SplitOpen? ==> r.outcome.closeSize <= 3)
            && LoopStep(Find(done, o, seen, rest, id)) == Resumed(done, o, seen, r, id)
  {
    if rest == [] {
      assert seen + [] == seen;
    } else {
      var c, tail := rest[0], rest[1..];
      assert c in rest;
      SeenMoves(seen, c.WithId(id), tail);
    }
  }

  /** What the search leaves in the place of the head of `rest`, and where it goes on. */
  function Passed(o: Tok, rest: seq<Tok>): (Tok, seq<Tok>)
    requires o.Mark? && o.size <= 3 && GoesOn(o, rest)
  {
    var c := rest[0];
    if c.UnmatchedClose() && c.size == 3 then (c.Disable(), Halves(false, c.ch, o.size) + rest[1..]) else (c, rest[1..])
  }

  lemma FindGoesOn(done: seq<Tok>, o: Tok, seen: seq<Tok>, rest: seq<Tok>, id: nat)
    requires o.Mark? && 1 <= o.size <= 3 && AtMostThree(seen) && AtMostThree(rest) && GoesOn(o, rest)
    ensures var (c, next) := Passed(o, rest);
            && AtMostThree(seen + [c]) && AtMostThree(next)
            && (Triples(next) < Triples(rest) || (Triples(next) <= Triples(rest) && |next| < |rest|))
            && LoopStep(Find(done, o, seen, rest, id)) == Find(done, o, seen + [c], next, id)
            && Scan(o, rest, id) == Push(c, Scan(o, next, id))
  {
    var c := rest[0];
    assert c in rest;
    if c.UnmatchedClose() && c.size == 3 {
      var h := Halves(false, c.ch, o.size);
      TriplesConcat(h, rest[1..]);
      NoTriplesInHalves(false, c.ch, o.size);
      AtMostThreeConcat(h, rest[1..]);
    }
  }

  /** The search for the partner of an open marker of size 1, 2 or 3 ends, as `Scan` says. */
  lemma {:induction false} FindRuns(done: seq<Tok>, o: Tok, seen: seq<Tok>, rest: seq<Tok>, id: nat) returns (n: nat)
    requires o.Mark? && 1 <= o.size <= 3 && AtMostThree(seen) && AtMostThree(rest)
    ensures var r := Scan(o, rest, id);
            && (r.outcome.SplitOpen? ==> r.outcome.closeSize <= 3)
            && After(Find(done, o, seen, rest, id), n) == Resumed(done, o, seen, r, id)
    decreases Triples(rest), |rest|
  {
    hide AtMostThree, Scan, LoopStep, GoesOn, Passed, Triples;
    var st := Find(done, o, seen, rest, id);
    if GoesOn(o, rest) {
      FindGoesOn(done, o, seen, rest, id);
      var (c, next) := Passed(o, rest);
      var k := FindRuns(done, o, seen + [c], next, id);
      SeenMoves(seen, c, Scan(o, next, id).rest);
      n := k + 1;
    } else {
      FindStops(done, o, seen, rest, id);
      n := 1;
      assert After(st, 1) == After(LoopStep(st), 0);
    }
  }

  lemma SeenMoves(seen: seq<Tok>, c: Tok, rest: seq<Tok>)
    ensures seen + [c] + rest == seen + ([c] + rest)
  {
  }

  lemma SoundIsBounded(s: seq<Tok>)
    requires AllSound(s)
    ensures AtMostThree(s) && (s != [] ==> AtMostThree(s[1..]) && s[0].Sound())
  {
    if s != [] {
      assert s[0] in s;
    }
  }

  /** One visit of the outer loop, search included. */
  lemma VisitRuns(done: seq<Tok>, rest: seq<Tok>, id: nat) returns (n: nat)
    requires rest != [] && AllSound(rest) && rest[0].UnmatchedOpen() && rest[0].Sound()
    ensures AtMostThree(rest)
    ensures var r := Scan(rest[0], rest[1..], id);
            && (r.outcome.SplitOpen? ==> r.outcome.closeSize <= 3)
            && After(Visit(done, rest, id), n) == Resumed(done, rest[0], [], r, id)
  {
    SoundIsBounded(rest);
    n := FindRuns(done, rest[0], [], rest[1..], id);
    n := n + 1;
  }

  lemma EndHalts(done: seq<Tok>, id: nat)
    ensures After(Visit(done, [], id), 1) == Halted(done + [], id)
  {
    var st := Visit(done, [], id);
    assert After(st, 1) == After(LoopStep(st), 0) && done + [] == done;
  }

  lemma VisitGoesOn(done: seq<Tok>, rest: seq<Tok>, id: nat, n: nat)
    requires rest != [] && !rest[0].UnmatchedOpen() && AtMostThree(rest)
    ensures AtMostThree(rest[1..])
    ensures After(Visit(done, rest, id), n + 1) == After(Visit(done + [rest[0]], rest[1..], id), n)
  {
    assert [rest[0]] + rest[1..] == rest;
    AtMostThreeConcat([rest[0]], rest[1..]);
  }

  /** When the matching pass is resolved, the loops halt with its list. */
  lemma {:induction false} ResolvedHalts(done: seq<Tok>, rest: seq<Tok>, id: nat) returns (n: nat)
    requires AllSound(rest) && MatchAll(rest, id).Resolved?
    ensures AtMostThree(rest)
    ensures After(Visit(done, rest, id), n) == Halted(done + MatchAll(rest, id).list, MatchAll(rest, id).nextId)
    decreases Triples(rest), |rest|
  {
    hide Triples, AtMostThree, LoopStep, After, Scan;
    SoundIsBounded(rest);
    TriplesHead(rest);
    var st := Visit(done, rest, id);
    if rest == [] {
      n := 1;
      EndHalts(done, id);
    } else {
      var o, tail := rest[0], rest[1..];
      assert o in rest;
      if !o.UnmatchedOpen() {
        n := ResolvedHalts(done + [o], tail, id);
        SeenMoves(done, o, MatchAll(tail, id).list);
        VisitGoesOn(done, rest, id, n);
        n := n + 1;
      } else {
        var k := VisitRuns(done, rest, id);
        var r := Scan(o, tail, id);
        ScanSound(o, tail, id);
        assert [] + r.rest == r.rest;
        match r.outcome {
          case NotFound =>
            n := ResolvedHalts(done + [o], r.rest, id);
            SeenMoves(done, o, MatchAll(r.rest, id).list);
          case Paired =>
            n := ResolvedHalts(done + [o.WithId(id)], r.rest, id + 1);
            SeenMoves(done, o.WithId(id), MatchAll(r.rest, id + 1).list);
          case SplitOpen(size) =>
            var h := Halves(true, o.ch, size);
            TriplesConcat(h, r.rest);
            NoTriplesInHalves(true, o.ch, size);
            n := ResolvedHalts(done + [o.Disable()], h + r.rest, id);
            SeenMoves(done, o.Disable(), MatchAll(h + r.rest, id).list);
        }
        AfterAfter(st, k, n);
        n := k + n;
      }
    }
  }

  /** The list as it is at a turn of the loops. */
  function ListOf(st: Loop): seq<Tok> {
    match st
    case Visit(done, rest, _) => done + rest
    case Find(done, o, seen, rest, _) => done + ([o] + (seen + rest))
    case Halted(list, _) => list
  }

  predicate Searches(st: Loop) { st.Find? ==> st.o.UnmatchedOpen() }

  /** Changing one token for some of the same text keeps the text of the list. */
  lemma SameTextSpliced(a: seq<Tok>, t: Tok, ts: seq<Tok>, b: seq<Tok>)
    requires Literal(ts) == t.Literal()
    ensures Literal(a + (ts + b)) == Literal(a + ([t] + b))
  {
    LiteralConcat(a, ts + b);
    LiteralConcat(ts, b);
    LiteralConcat(a, [t] + b);
  }

  /** Splitting a marker of size 3, which stays in the list disabled, keeps the text. */
  lemma SplitSpliced(a: seq<Tok>, t: Tok, k: nat, b: seq<Tok>)
    requires t.Triple() && k <= 3
    ensures Literal(a + ([t.Disable()] + (Halves(t.open, t.ch, k) + b))) == Literal(a + ([t] + b))
  {
    hide Literal, Halves;
    var h, d := Halves(t.open, t.ch, k), t.Disable();
    HalvesText(t, k);
    DisabledText(d);
    LiteralConcat([d], h);
    assert "" + Literal(h) == Literal(h);
    SameTextSpliced(a, t, [d] + h, b);
    assert [d] + h + b == [d] + (h + b);
  }

  lemma HalvesText(t: Tok, k: nat)
    requires t.Triple() && k <= 3
    ensures Literal(Halves(t.open, t.ch, k)) == t.Literal()
  {
    SplitKeepsLiteral(t.open, t.ch, k);
  }

  lemma DisabledText(t: Tok)
    requires t.Mark? && t.disabled
    ensures Literal([t]) == ""
  {
  }

  lemma PairSpliced(a: seq<Tok>, t: Tok, x: int, b: seq<Tok>)
    requires t.Mark?
    ensures Literal(a + ([t.WithId(x)] + b)) == Literal(a + ([t] + b))
  {
    assert Literal([t.WithId(x)]) == t.Literal();
    SameTextSpliced(a, t, [t.WithId(x)], b);
  }

  /** Every turn of the loops, splits with a marker of size 0 included, conserves the literal text. */
  lemma StepConserves(st: Loop)
    requires Bounded(st) && Searches(st)
    ensures Searches(LoopStep(st)) && Literal(ListOf(LoopStep(st))) == Literal(ListOf(st))
  {
    match st
    case Halted(_, _) =>
    case Visit(done, rest, id) =>
      if rest == [] {
        assert done + rest == done;
      } else {
        assert done + ([rest[0]] + ([] + rest[1..])) == done + rest;
        assert done + [rest[0]] + rest[1..] == done + rest;
      }
    case Find(done, o, seen, rest, id) =>
      SearchConserves(done, o, seen, rest, id);
  }

  lemma SearchConserves(done: seq<Tok>, o: Tok, seen: seq<Tok>, rest: seq<Tok>, id: nat)
    requires Bounded(Find(done, o, seen, rest, id)) && o.UnmatchedOpen()
    ensures var st := Find(done, o, seen, rest, id);
            Searches(LoopStep(st)) && Literal(ListOf(LoopStep(st))) == Literal(ListOf(st))
  {
    hide Literal, Tok.Literal;
    var all := done + ([o] + (seen + rest));
    if rest == [] {
      assert done + [o] + seen == all;
    } else {
      var c, tail := rest[0], rest[1..];
      var a := done + [o] + seen;
      assert c in rest && a + ([c] + tail) == all;
      if c.UnmatchedClose() && c.size == 3 && o.size != 3 {
        var h := Halves(false, c.ch, o.size);
        SplitSpliced(a, c, o.size, tail);
        assert done + ([o] + (seen + [c.Disable()] + (h + tail))) == a + ([c.Disable()] + (h + tail));
      } else if c.UnmatchedClose() && SameKind(c, o) {
        PairSpliced(a, c, id, tail);
        var b := seen + [c.WithId(id)] + tail;
        assert a + ([c.WithId(id)] + tail) == done + ([o] + b);
        PairSpliced(done, o, id, b);
        assert done + [o.WithId(id)] + b == done + ([o.WithId(id)] + b);
      } else if c.UnmatchedClose() && o.size == 3 {
        var h := Halves(true, o.ch, c.size);
        SplitSpliced(done, o, c.size, seen + rest);
        assert done + [o.Disable()] + (h + (seen + rest)) == done + ([o.Disable()] + (h + (seen + rest)));
      } else {
        assert done + ([o] + (seen + [c] + tail)) == all;
      }
    }
  }

  /** So does every run of the loops, whether it ends or not. */
  lemma {:induction false} RunConserves(s: seq<Tok>, n: nat)
    requires AtMostThree(s)
    ensures Literal(ListOf(After(Visit([], s, 0), n))) == Literal(s)
  {
    AfterConserves(Visit([], s, 0), n);
    assert [] + s == s;
  }

  lemma {:induction false} AfterConserves(st: Loop, n: nat)
    requires Bounded(st) && Searches(st)
    ensures Literal(ListOf(After(st, n))) == Literal(ListOf(st))
    decreases n
  {
    if n > 0 {
      StepConserves(st);
      AfterConserves(LoopStep(st), n - 1);
    }
  }

  /** The first close marker that is still unmatched has size 3. */
  predicate FirstCloseIsTriple(s: seq<Tok>) {
    s != [] && if s[0].UnmatchedClose() then s[0].size == 3 else FirstCloseIsTriple(s[1..])
  }

  lemma {:induction false} CollisionMeetsTriple(o: Tok, rest: seq<Tok>, id: nat)
    requires o.Mark? && 1 <= o.size <= 3 && Scan(o, rest, id).outcome.Collision?
    ensures o.size == 3 && Scan(o, rest, id).rest == rest && FirstCloseIsTriple(rest)
    decreases Triples(rest), |rest|
  {
    var c, tail := rest[0], rest[1..];
    if c.UnmatchedClose() && c.size == 3 && o.size != 3 {
      var h := Halves(false, c.ch, o.size);
      TriplesConcat(h, tail);
      NoTriplesInHalves(false, c.ch, o.size);
      CollisionMeetsTriple(o, h + tail, id);
      assert false;
    } else if !c.UnmatchedClose() || o.size != 3 {
      CollisionMeetsTriple(o, tail, id);
    }
  }

  /**
    The inner loop searches for an open marker of size 0 and meets a close marker of
    size 3 first: it splits 3 into 3 and 0, for ever.
   */
  predicate Stuck(st: Loop) {
    st.Find? && st.o.Mark? && st.o.size == 0 && FirstCloseIsTriple(st.rest)
  }

  lemma {:induction false} StuckForever(st: Loop, n: nat)
    requires Bounded(st) && Stuck(st)
    ensures Stuck(After(st, n))
    decreases n
  {
    if n > 0 {
      StuckForever(LoopStep(st), n - 1);
    }
  }

  /**
    The search for an open marker of size 3 faces a close marker of size 3 with
    another character: the branch that splits 3 into 3 and 0.
   */
  predicate Colliding(st: Loop) {
    && st.Find? && st.o.Mark? && st.o.size == 3 && st.rest != []
    && st.rest[0].UnmatchedClose() && st.rest[0].size == 3 && st.rest[0].ch != st.o.ch
  }

  /** A search for an open marker of size 3 stops at the first close marker, so it has passed none. */
  predicate PassedNone(st: Loop) {
    st.Find? && st.o.Mark? && st.o.size == 3 ==> forall t <- st.seen :: !t.UnmatchedClose()
  }

  lemma {:induction false} PassedNoneAlways(st: Loop, n: nat)
    requires Bounded(st) && PassedNone(st)
    ensures PassedNone(After(st, n))
    decreases n
  {
    if n > 0 {
      PassedNoneAlways(LoopStep(st), n - 1);
    }
  }

  lemma FirstCloseBehind(a: seq<Tok>, b: seq<Tok>)
    requires forall t <- a :: !t.UnmatchedClose()
    requires FirstCloseIsTriple(b)
    ensures FirstCloseIsTriple(a + b)
  {
    if a == [] {
      assert a + b == b;
    } else {
      assert a[0] in a && (a + b)[1..] == a[1..] + b;
      assert forall t <- a[1..] :: t in a;
      FirstCloseBehind(a[1..], b);
    }
  }

  /** Two turns after a collision the loops are stuck. */
  lemma CollidingSticks(st: Loop)
    requires Bounded(st) && Colliding(st) && PassedNone(st)
    ensures Stuck(After(st, 2))
  {
    var all := Halves(true, st.o.ch, 3) + (st.seen + st.rest);
    FirstCloseBehind(st.seen, st.rest);
    assert all[0] == NewMark(true, st.o.ch, 0) && all[1..] == [NewMark(true, st.o.ch, 3)] + (st.seen + st.rest);
    assert all[1..][1..] == st.seen + st.rest;
    assert LoopStep(st) == Visit(st.done + [st.o.Disable()], all, st.id);
    assert After(st, 2) == After(LoopStep(LoopStep(st)), 0);
  }

  lemma {:induction false} SearchCollides(done: seq<Tok>, o: Tok, seen: seq<Tok>, rest: seq<Tok>, id: nat)
    returns (n: nat)
    requires o.Mark? && 1 <= o.size <= 3 && AtMostThree(seen) && AtMostThree(rest)
    requires Scan(o, rest, id).outcome.Collision?
    ensures Colliding(After(Find(done, o, seen, rest, id), n))
    decreases |rest|
  {
    CollisionMeetsTriple(o, rest, id);
    var c, tail := rest[0], rest[1..];
    assert c in rest && forall t <- tail :: t in rest;
    if c.UnmatchedClose() {
      n := 0;
    } else {
      n := SearchCollides(done, o, seen + [c], tail, id);
      n := n + 1;
    }
  }

  /** When the matching pass diverges, the loops come to a collision. */
  lemma {:induction false} DivergesCollides(done: seq<Tok>, rest: seq<Tok>, id: nat) returns (n: nat)
    requires AllSound(rest) && MatchAll(rest, id).Diverges?
    ensures AtMostThree(rest) && Colliding(After(Visit(done, rest, id), n))
    decreases Triples(rest), |rest|
  {
    hide Colliding, Triples;
    SoundIsBounded(rest);
    TriplesHead(rest);
    var st := Visit(done, rest, id);
    var o, tail := rest[0], rest[1..];
    assert o in rest;
    if !o.UnmatchedOpen() {
      n := DivergesCollides(done + [o], tail, id);
      n := n + 1;
    } else {
      var r := Scan(o, tail, id);
      if r.outcome.Collision? {
        n := SearchCollides(done, o, [], tail, id);
        n := n + 1;
      } else {
        var k := VisitRuns(done, rest, id);
        ScanSound(o, tail, id);
        assert [] + r.rest == r.rest;
        match r.outcome {
          case NotFound => n := DivergesCollides(done + [o], r.rest, id);
          case Paired => n := DivergesCollides(done + [o.WithId(id)], r.rest, id + 1);
          case SplitOpen(size) =>
            var h := Halves(true, o.ch, size);
            TriplesConcat(h, r.rest);
            NoTriplesInHalves(true, o.ch, size);
            n := DivergesCollides(done + [o.Disable()], h + r.rest, id);
        }
        AfterAfter(st, k, n);
        n := k + n;
      }
    }
  }

  /** After a collision the loops run for ever. */
  lemma CollisionNeverHalts(s: seq<Tok>, k: nat, n: nat)
    requires AtMostThree(s) && Colliding(After(Visit([], s, 0), k))
    ensures !After(Visit([], s, 0), n).Halted?
  {
    var st := Visit([], s, 0);
    if After(st, n).Halted? {
      hide Colliding, LoopStep;
      PassedNoneAlways(st, k);
      CollidingSticks(After(st, k));
      AfterAfter(st, k, 2);
      HaltedForever(After(st, n), k + 2);
      AfterAfter(st, n, k + 2);
      StuckForever(After(st, k + 2), n);
      AfterAfter(st, k + 2, n);
      assert false;
    }
  }

  /** The two loops, started on the list, come to their end. */
  ghost predicate Halts(s: seq<Tok>)
    requires AtMostThree(s)
  {
    exists n :: After(Visit([], s, 0), n).Halted?
  }

  /** Some turn of the run stands at a collision. */
  ghost predicate Collides(s: seq<Tok>)
    requires AtMostThree(s)
  {
    exists n :: Colliding(After(Visit([], s, 0), n))
  }

  lemma CollidesNeverHalts(s: seq<Tok>)
    requires AtMostThree(s) && Collides(s)
    ensures !Halts(s)
  {
    var k :| Colliding(After(Visit([], s, 0), k));
    forall n: nat ensures !After(Visit([], s, 0), n).Halted? {
      CollisionNeverHalts(s, k, n);
    }
  }

  lemma HaltsOrCollides(s: seq<Tok>)
    requires AllSound(s) && AtMostThree(s)
    ensures if MatchAll(s, 0).Resolved? then Halts(s) else Collides(s)
  {
    if MatchAll(s, 0).Resolved? {
      var n := ResolvedHalts([], s, 0);
      assert After(Visit([], s, 0), n).Halted?;
    } else {
      var n := DivergesCollides([], s, 0);
    }
  }

  /** The loops halt exactly when no turn of the run is at a collision. */
  lemma HaltsIffNoCollision(s: seq<Tok>)
    requires AllSound(s)
    ensures AtMostThree(s) && (Halts(s) <==> !Collides(s))
  {
    SoundIsBounded(s);
    HaltsOrCollides(s);
    if Collides(s) {
      CollidesNeverHalts(s);
    }
  }

  /**
    The matching pass halts exactly when it is resolved. Whether it is can be
    computed beforehand by `MatchAll`, which always ends.
   */
  lemma HaltsIffResolved(s: seq<Tok>)
    requires AllSound(s)
    ensures AtMostThree(s) && (Halts(s) <==> MatchAll(s, 0).Resolved?)
  {
    SoundIsBounded(s);
    HaltsOrCollides(s);
    HaltsIffNoCollision(s);
  }

  lemma {:induction false} HaltedForever(st: Loop, n: nat)
    requires st.Halted?
    ensures After(st, n) == st
    decreases n
  {
    if n > 0 {
      HaltedForever(st, n - 1);
    }
  }

  /** Every unmatched close marker of size 3 is made of `ch`. */
  predicate TripleClosesAre(ch: char, s: seq<Tok>) {
    forall c <- s :: c.UnmatchedClose() && c.size == 3 ==> c.ch == ch
  }

  /** No open marker of size 3 comes before a close marker of size 3 with another character. */
  predicate NoMixedTriples(s: seq<Tok>) {
    s == [] ||
    ((s[0].UnmatchedOpen() && s[0].size == 3 ==> TripleClosesAre(s[0].ch, s[1..])) && NoMixedTriples(s[1..]))
  }

  lemma {:induction false} ScanKeepsTripleCloses(ch: char, o: Tok, rest: seq<Tok>, id: nat)
    requires o.Mark? && 1 <= o.size <= 3 && TripleClosesAre(ch, rest)
    ensures TripleClosesAre(ch, Scan(o, rest, id).rest)
    decreases Triples(rest), |rest|
  {
    if rest != [] {
      var c, tail := rest[0], rest[1..];
      assert c in rest;
      if c.UnmatchedClose() && c.size == 3 && o.size != 3 {
        var h := Halves(false, c.ch, o.size);
        TriplesConcat(h, tail);
        NoTriplesInHalves(false, c.ch, o.size);
        ScanKeepsTripleCloses(ch, o, h + tail, id);
      } else {
        ScanKeepsTripleCloses(ch, o, tail, id);
      }
    }
  }

  lemma {:induction false} ScanKeepsNoMixed(o: Tok, rest: seq<Tok>, id: nat)
    requires o.UnmatchedOpen() && 1 <= o.size <= 3 && NoMixedTriples(rest)
    requires o.size == 3 ==> TripleClosesAre(o.ch, rest)
    ensures NoMixedTriples(Scan(o, rest, id).rest) && !Scan(o, rest, id).outcome.Collision?
    decreases Triples(rest), |rest|
  {
    if rest != [] {
      var c, tail := rest[0], rest[1..];
      assert c in rest;
      if c.UnmatchedClose() && c.size == 3 && o.size != 3 {
        var h := Halves(false, c.ch, o.size);
        TriplesConcat(h, tail);
        NoTriplesInHalves(false, c.ch, o.size);
        NoMixedBeforePlain(h, tail);
        ScanKeepsNoMixed(o, h + tail, id);
      } else {
        if c.UnmatchedOpen() && c.size == 3 {
          ScanKeepsTripleCloses(c.ch, o, tail, id);
        }
        ScanKeepsNoMixed(o, tail, id);
      }
    }
  }

  lemma NoMixedBeforePlain(h: seq<Tok>, s: seq<Tok>)
    requires NoMixedTriples(s) && |h| == 2 && forall t <- h :: t.Mark? && t.size != 3
    ensures NoMixedTriples(h + s)
  {
    assert h[0] in h && h[1] in h;
    assert (h + s)[1..] == [h[1]] + s;
    assert ([h[1]] + s)[1..] == s;
    assert NoMixedTriples([h[1]] + s);
  }

  /**
    The matching pass ends on every list in which no size-3 open marker precedes a
    size-3 close of another character.
   */
  lemma {:induction false} NoMixedTriplesResolves(rest: seq<Tok>, id: nat)
    requires AllSound(rest) && NoMixedTriples(rest)
    ensures MatchAll(rest, id).Resolved?
    decreases Triples(rest), |rest|
  {
    if rest != [] {
      var o, tail := rest[0], rest[1..];
      assert o in rest;
      if !o.UnmatchedOpen() {
        NoMixedTriplesResolves(tail, id);
      } else {
        var r := Scan(o, tail, id);
        ScanSound(o, tail, id);
        ScanKeepsNoMixed(o, tail, id);
        match r.outcome
        case NotFound => NoMixedTriplesResolves(r.rest, id);
        case Paired => NoMixedTriplesResolves(r.rest, id + 1);
        case SplitOpen(k) =>
          var h := Halves(true, o.ch, k);
          TriplesConcat(h, r.rest);
          NoTriplesInHalves(true, o.ch, k);
          NoMixedBeforePlain(h, r.rest);
          NoMixedTriplesResolves(h + r.rest, id);
      }
    }
  }

  /** In particular it ends when all markers of size 3 share one character. */
  lemma {:induction false} OneCharacterResolves(s: seq<Tok>, ch: char, id: nat)
    requires AllSound(s)
    requires forall t <- s :: t.Mark? && t.size == 3 ==> t.ch == ch
    ensures MatchAll(s, id).Resolved?
  {
    OneCharacterIsNotMixed(s, ch);
    NoMixedTriplesResolves(s, id);
  }

  lemma {:induction false} OneCharacterIsNotMixed(s: seq<Tok>, ch: char)
    requires forall t <- s :: t.Mark? && t.size == 3 ==> t.ch == ch
    ensures NoMixedTriples(s)
  {
    if s != [] {
      assert s[0] in s;
      OneCharacterIsNotMixed(s[1..], ch);
    }
  }

  /**
    The condition is not decoration: if the first open marker of a list has size
    3 and the first close marker after it has size 3 and another character, the
    pass diverges.
   */
  lemma {:induction false} MixedTripleDiverges(pre: seq<Tok>, o: Tok, mid: seq<Tok>, k: Tok, post: seq<Tok>, id: nat)
    requires AllSound(pre + [o] + mid + [k] + post)
    requires forall t <- pre :: !t.UnmatchedOpen()
    requires forall t <- mid :: !t.UnmatchedClose()
    requires o.UnmatchedOpen() && k.UnmatchedClose() && o.size == 3 && k.size == 3 && o.ch != k.ch
    ensures MatchAll(pre + [o] + mid + [k] + post, id) == Diverges
  {
    var s := pre + [o] + mid + [k] + post;
    if pre == [] {
      assert s[0] == o && s[1..] == mid + [k] + post;
      MixedTripleCollides(o, mid, k, post, id);
    } else {
      assert s[0] == pre[0] && pre[0] in pre;
      assert s[1..] == pre[1..] + [o] + mid + [k] + post;
      MixedTripleDiverges(pre[1..], o, mid, k, post, id);
    }
  }

  lemma {:induction false} MixedTripleCollides(o: Tok, mid: seq<Tok>, k: Tok, post: seq<Tok>, id: nat)
    requires forall t <- mid :: !t.UnmatchedClose()
    requires o.UnmatchedOpen() && k.UnmatchedClose() && o.size == 3 && k.size == 3 && o.ch != k.ch
    ensures Scan(o, mid + [k] + post, id).outcome.Collision?
  {
    var s := mid + [k] + post;
    if mid != [] {
      assert s[0] == mid[0] && mid[0] in mid;
      assert s[1..] == mid[1..] + [k] + post;
      MixedTripleCollides(o, mid[1..], k, post, id);
    }
  }
}
