/**
  What splitting a marker of size 3 is for: lists in which it meets markers of
  sizes 1 and 2, with what the whole resolver makes of them and what is written.
 */
module EmphasisSplitting {
  import opened EmphasisTokens
  import opened EmphasisMatching
  import opened EmphasisPairs
  import opened EmphasisNesting
  import opened EmphasisRender
  import opened EmphasisResolver

  /** A fresh marker. */
  function New(open: bool, ch: char, size: nat): Tok { Mark(open, ch, size, -1, false) }

  /** A marker of a pair. */
  function Paired(open: bool, ch: char, size: nat, id: nat): Tok { Mark(open, ch, size, id, false) }

  /** A marker that has been split. */
  function Gone(open: bool, ch: char, size: nat): Tok { Mark(open, ch, size, -1, true) }

  /** The search passes a token that is not an unmatched close, and one that neither fits nor can be split. */
  lemma ScanPasses(o: Tok, t: Tok, rest: seq<Tok>, id: nat)
    requires o.Mark? && 1 <= o.size <= 3
    requires t.UnmatchedClose() ==> o.size != 3 && t.size != 3 && !(t.ch == o.ch && t.size == o.size)
    ensures Scan(o, [t] + rest, id) == Push(t, Scan(o, rest, id))
  {
    assert ([t] + rest)[1..] == rest;
  }

  lemma ScanEnds(o: Tok, id: nat)
    requires o.Mark? && 1 <= o.size <= 3
    ensures Scan(o, [], id) == Scanned([], NotFound)
  {
  }

  /** An open marker of size 1 or 2 splits a close marker of size 3 of any character: the leftover comes first. */
  lemma ScanSplitsClose(o: Tok, ch: char, rest: seq<Tok>, id: nat)
    requires o.Mark? && 1 <= o.size <= 2
    ensures Scan(o, [New(false, ch, 3)] + rest, id)
         == Push(Gone(false, ch, 3), Scan(o, [New(false, ch, 3 - o.size), New(false, ch, o.size)] + rest, id))
  {
    assert ([New(false, ch, 3)] + rest)[1..] == rest;
  }

  /** A close marker of the same character and size is taken. */
  lemma ScanTakes(o: Tok, rest: seq<Tok>, id: nat)
    requires o.Mark? && 1 <= o.size <= 3
    ensures Scan(o, [New(false, o.ch, o.size)] + rest, id)
         == Scanned([Mark(false, o.ch, o.size, id, false)] + rest, Outcome.Paired)
  {
    assert ([New(false, o.ch, o.size)] + rest)[1..] == rest;
  }

  /** An open marker of size 3 is split by a smaller close marker of any character. */
  lemma ScanSplitsOpen(o: Tok, ch: char, k: nat, rest: seq<Tok>, id: nat)
    requires o.Mark? && o.size == 3 && 1 <= k <= 2
    ensures Scan(o, [New(false, ch, k)] + rest, id) == Scanned([New(false, ch, k)] + rest, SplitOpen(k))
  {
  }

  lemma MatchPasses(t: Tok, rest: seq<Tok>, id: nat)
    requires AllSound([t] + rest) && AllSound(rest) && !t.UnmatchedOpen()
    ensures MatchAll([t] + rest, id) == Prepend(t, MatchAll(rest, id))
  {
    assert ([t] + rest)[1..] == rest;
  }

  /** The visit of an open marker: what its search left decides. */
  lemma MatchVisits(o: Tok, rest: seq<Tok>, id: nat)
    requires AllSound([o] + rest) && o.UnmatchedOpen() && 1 <= o.size <= 3
    ensures var r := Scan(o, rest, id);
            && AllSound(r.rest)
            && match r.outcome
               case NotFound => MatchAll([o] + rest, id) == Prepend(o, MatchAll(r.rest, id))
               case Paired => MatchAll([o] + rest, id) == Prepend(o.(id := id), MatchAll(r.rest, id + 1))
               case SplitOpen(k) =>
                 && 1 <= k <= 2
                 && var halves := [New(true, o.ch, 3 - k), New(true, o.ch, k)];
                    AllSound(halves + r.rest)
                    && MatchAll([o] + rest, id) == Prepend(o.(disabled := true), MatchAll(halves + r.rest, id))
               case Collision => MatchAll([o] + rest, id) == Diverges
  {
    assert ([o] + rest)[1..] == rest;
    assert forall t <- rest :: t in [o] + rest;
    ScanSound(o, rest, id);
  }

  /** The tokens that a search for `o` passes. */
  predicate Passed(o: Tok, t: Tok)
    requires o.Mark?
  {
    t.UnmatchedClose() ==> o.size != 3 && t.size != 3 && !(t.ch == o.ch && t.size == o.size)
  }

  lemma {:induction false} ScanPassesAll(o: Tok, ts: seq<Tok>, rest: seq<Tok>, id: nat)
    requires o.Mark? && 1 <= o.size <= 3 && forall t <- ts :: Passed(o, t)
    ensures Scan(o, ts + rest, id) == Scanned(ts + Scan(o, rest, id).rest, Scan(o, rest, id).outcome)
  {
    var r := Scan(o, rest, id);
    if ts == [] {
      assert ts + rest == rest && ts + r.rest == r.rest;
    } else {
      assert ts[0] in ts && forall t <- ts[1..] :: t in ts;
      assert ts + rest == [ts[0]] + (ts[1..] + rest) && ts + r.rest == [ts[0]] + (ts[1..] + r.rest);
      ScanPasses(o, ts[0], ts[1..] + rest, id);
      ScanPassesAll(o, ts[1..], rest, id);
    }
  }

  lemma {:induction false} MatchPassesAll(ts: seq<Tok>, rest: seq<Tok>, id: nat)
    requires AllSound(ts + rest) && AllSound(rest) && forall t <- ts :: !t.UnmatchedOpen()
    ensures MatchAll(ts + rest, id) == PrependAll(ts, MatchAll(rest, id))
  {
    hide MatchAll;
    var r := MatchAll(rest, id);
    if ts == [] {
      assert ts + rest == rest && (r.Resolved? ==> ts + r.list == r.list);
    } else {
      assert ts[0] in ts && forall t <- ts[1..] :: t in ts;
      assert ts + rest == [ts[0]] + (ts[1..] + rest);
      SoundPlus(ts[1..], rest);
      MatchPasses(ts[0], ts[1..] + rest, id);
      MatchPassesAll(ts[1..], rest, id);
      assert r.Resolved? ==> ts + r.list == [ts[0]] + (ts[1..] + r.list);
    }
  }

  lemma MatchQuiet(ts: seq<Tok>, id: nat)
    requires AllSound(ts) && forall t <- ts :: !t.UnmatchedOpen()
    ensures MatchAll(ts, id) == Resolved(ts, id)
  {
    assert ts + [] == ts;
    MatchPassesAll(ts, [], id);
  }

  lemma SoundPlus(a: seq<Tok>, b: seq<Tok>)
    ensures AllSound(a + b) <==> AllSound(a) && AllSound(b)
  {
    assert forall t <- a :: t in a + b;
    assert forall t <- b :: t in a + b;
  }

  /** An open marker is paired with the first fitting close marker, over tokens that its search passes. */
  lemma VisitPairs(o: Tok, mid: seq<Tok>, rest: seq<Tok>, id: nat)
    requires o.UnmatchedOpen() && 1 <= o.size <= 3 && AllSound(mid) && AllSound(rest) && forall t <- mid :: Passed(o, t)
    ensures var s := [o] + (mid + ([New(false, o.ch, o.size)] + rest));
            var r := mid + ([Paired(false, o.ch, o.size, id)] + rest);
            AllSound(s) && AllSound(r) && MatchAll(s, id) == Prepend(o.(id := id), MatchAll(r, id + 1))
  {
    hide Scan, MatchAll;
    var c := New(false, o.ch, o.size);
    SoundPlus([c], rest);
    SoundPlus(mid, [c] + rest);
    SoundPlus([o], mid + ([c] + rest));
    ScanPassesAll(o, mid, [c] + rest, id);
    ScanTakes(o, rest, id);
    MatchVisits(o, mid + ([c] + rest), id);
  }

  /** An open marker of size 1 or 2 takes its part of a close marker of size 3, the part that lies farther out. */
  lemma VisitSplitsClose(o: Tok, mid: seq<Tok>, rest: seq<Tok>, id: nat)
    requires o.UnmatchedOpen() && 1 <= o.size <= 2 && AllSound(mid) && AllSound(rest) && forall t <- mid :: Passed(o, t)
    ensures var left := [Gone(false, o.ch, 3), New(false, o.ch, 3 - o.size), Paired(false, o.ch, o.size, id)];
            var s, r := [o] + (mid + ([New(false, o.ch, 3)] + rest)), mid + (left + rest);
            AllSound(s) && AllSound(r) && MatchAll(s, id) == Prepend(o.(id := id), MatchAll(r, id + 1))
  {
    hide Scan, MatchAll;
    var c, c1, c0 := New(false, o.ch, 3), New(false, o.ch, 3 - o.size), New(false, o.ch, o.size);
    SoundPlus([c], rest);
    SoundPlus(mid, [c] + rest);
    SoundPlus([o], mid + ([c] + rest));
    ScanPassesAll(o, mid, [c] + rest, id);
    ScanSplitsClose(o, o.ch, rest, id);
    assert [c1, c0] + rest == [c1] + ([c0] + rest);
    ScanPasses(o, c1, [c0] + rest, id);
    ScanTakes(o, rest, id);
    var d := [Paired(false, o.ch, o.size, id)] + rest;
    assert [Gone(false, o.ch, 3)] + ([c1] + d)
        == [Gone(false, o.ch, 3), c1, Paired(false, o.ch, o.size, id)] + rest;
    MatchVisits(o, mid + ([c] + rest), id);
  }

  /** An open marker of size 3 leaves its part for a smaller close marker on the inside, whatever the characters. */
  lemma VisitSplitsOpen(o: Tok, mid: seq<Tok>, ch: char, k: nat, rest: seq<Tok>, id: nat)
    requires o.UnmatchedOpen() && o.size == 3 && 1 <= k <= 2
    requires AllSound(mid) && AllSound(rest) && forall t <- mid :: Passed(o, t)
    ensures var s := mid + ([New(false, ch, k)] + rest);
            var r := [New(true, o.ch, 3 - k), New(true, o.ch, k)] + s;
            && AllSound([o] + s) && AllSound(r)
            && MatchAll([o] + s, id) == Prepend(o.(disabled := true), MatchAll(r, id))
  {
    hide Scan, MatchAll;
    var c := New(false, ch, k);
    SoundPlus([c], rest);
    SoundPlus(mid, [c] + rest);
    SoundPlus([o], mid + ([c] + rest));
    ScanPassesAll(o, mid, [c] + rest, id);
    ScanSplitsOpen(o, ch, k, rest, id);
    MatchVisits(o, mid + ([c] + rest), id);
  }

  /** A close marker of size 3 is split even when the open marker has another character and takes no part of it. */
  lemma VisitSplitsOther(o: Tok, mid: seq<Tok>, ch: char, rest: seq<Tok>, id: nat)
    requires o.UnmatchedOpen() && 1 <= o.size <= 2 && ch != o.ch
    requires AllSound(mid) && AllSound(rest) && forall t <- mid + rest :: Passed(o, t)
    ensures var left := [Gone(false, ch, 3), New(false, ch, 3 - o.size), New(false, ch, o.size)];
            var s, r := [o] + (mid + ([New(false, ch, 3)] + rest)), mid + (left + rest);
            AllSound(s) && AllSound(r) && MatchAll(s, id) == Prepend(o, MatchAll(r, id))
  {
    hide Scan, MatchAll;
    var c, c1, c0 := New(false, ch, 3), New(false, ch, 3 - o.size), New(false, ch, o.size);
    SoundPlus([c], rest);
    SoundPlus(mid, [c] + rest);
    SoundPlus([o], mid + ([c] + rest));
    assert forall t <- mid :: t in mid + rest;
    assert forall t <- rest :: t in mid + rest;
    ScanPassesAll(o, mid, [c] + rest, id);
    ScanSplitsClose(o, ch, rest, id);
    ScanFindsNothing(o, [c1, c0] + rest, id);
    assert [Gone(false, ch, 3)] + ([c1, c0] + rest) == [Gone(false, ch, 3), c1, c0] + rest;
    MatchVisits(o, mid + ([c] + rest), id);
  }

  lemma ScanFindsNothing(o: Tok, ts: seq<Tok>, id: nat)
    requires o.Mark? && 1 <= o.size <= 3 && forall t <- ts :: Passed(o, t)
    ensures Scan(o, ts, id) == Scanned(ts, NotFound)
  {
    assert ts + [] == ts;
    ScanPassesAll(o, ts, [], id);
  }

  /** An open marker without a fitting close marker stays as it is. */
  lemma VisitFindsNothing(o: Tok, ts: seq<Tok>, id: nat)
    requires o.UnmatchedOpen() && 1 <= o.size <= 3 && AllSound(ts) && forall t <- ts :: Passed(o, t)
    ensures AllSound([o] + ts) && MatchAll([o] + ts, id) == Prepend(o, MatchAll(ts, id))
  {
    SoundPlus([o], ts);
    ScanFindsNothing(o, ts, id);
    MatchVisits(o, ts, id);
  }

  /** An open marker and then one that fills it up to size 3, closed by one marker of size 3. */
  lemma OpensThenTriple(x: string, ch: char, k: nat, a: string, b: string, y: string)
    requires 1 <= k <= 2
    ensures var s := [Text(x), New(true, ch, k), Text(a), New(true, ch, 3 - k), Text(b), New(false, ch, 3), Text(y)];
            && AllFresh(s) && AllSound(s)
            && MatchAll(s, 0) == Resolved(
                 [Text(x), Paired(true, ch, k, 0), Text(a), Paired(true, ch, 3 - k, 1), Text(b), Gone(false, ch, 3),
                  Paired(false, ch, 3 - k, 1), Paired(false, ch, k, 0), Text(y)], 2)
  {
    hide Scan, MatchAll;
    var o, i := New(true, ch, k), New(true, ch, 3 - k);
    var gone, c1, c0 := Gone(false, ch, 3), New(false, ch, 3 - k), Paired(false, ch, k, 0);
    var mid := [Text(a), i, Text(b)];
    VisitSplitsClose(o, mid, [Text(y)], 0);
    var u, v := [Text(b), gone], [c0, Text(y)];
    assert mid + ([gone, c1, c0] + [Text(y)]) == [Text(a)] + ([i] + (u + ([c1] + v)));
    VisitPairs(i, u, v, 1);
    MatchPasses(Text(a), [i] + (u + ([c1] + v)), 1);
    MatchQuiet(u + ([Paired(false, ch, 3 - k, 1)] + v), 2);
    var s := [o] + (mid + ([New(false, ch, 3)] + [Text(y)]));
    SoundPlus([Text(x)], s);
    MatchPasses(Text(x), s, 0);
    assert [Text(x)] + s
        == [Text(x), New(true, ch, k), Text(a), New(true, ch, 3 - k), Text(b), New(false, ch, 3), Text(y)];
  }

  /** An open marker of size 3, closed by two markers that make it up. */
  lemma TripleThenCloses(x: string, ch: char, k: nat, a: string, b: string, y: string)
    requires 1 <= k <= 2
    ensures var s := [Text(x), New(true, ch, 3), Text(a), New(false, ch, k), Text(b), New(false, ch, 3 - k), Text(y)];
            && AllFresh(s) && AllSound(s)
            && MatchAll(s, 0) == Resolved(
                 [Text(x), Gone(true, ch, 3), Paired(true, ch, 3 - k, 0), Paired(true, ch, k, 1), Text(a),
                  Paired(false, ch, k, 1), Text(b), Paired(false, ch, 3 - k, 0), Text(y)], 2)
  {
    hide Scan, MatchAll;
    var o, o1, o0 := New(true, ch, 3), New(true, ch, 3 - k), New(true, ch, k);
    var c0, c1, y' := New(false, ch, k), New(false, ch, 3 - k), [Text(y)];
    var tail := [Text(b), c1] + y';
    VisitSplitsOpen(o, [Text(a)], ch, k, tail, 0);
    var mid := [o0, Text(a), c0, Text(b)];
    assert [o1, o0] + ([Text(a)] + ([c0] + tail)) == [o1] + (mid + ([c1] + y'));
    VisitPairs(o1, mid, y', 0);
    var rest := [Text(b), Paired(false, ch, 3 - k, 0)] + y';
    assert mid + ([Paired(false, ch, 3 - k, 0)] + y') == [o0] + ([Text(a)] + ([c0] + rest));
    VisitPairs(o0, [Text(a)], rest, 1);
    MatchQuiet([Text(a)] + ([Paired(false, ch, k, 1)] + rest), 2);
    var s := [o] + ([Text(a)] + ([c0] + tail));
    SoundPlus([Text(x)], s);
    MatchPasses(Text(x), s, 0);
    assert [Text(x)] + s == [Text(x), o, Text(a), c0, Text(b), c1, Text(y)];
  }

  /**
    An open marker of size 3 is split by the first close marker, of another
    character, and the close marker of its own character fits the outer part.
   */
  lemma TripleThenOther(x: string, ch: char, other: char, k: nat, a: string, b: string, y: string)
    requires 1 <= k <= 2 && ch != other
    ensures var c0, c1 := New(false, other, k), New(false, ch, 3 - k);
            var s := [Text(x), New(true, ch, 3), Text(a), c0, Text(b), c1, Text(y)];
            && AllFresh(s) && AllSound(s)
            && MatchAll(s, 0) == Resolved(
                 [Text(x), Gone(true, ch, 3), Paired(true, ch, 3 - k, 0), New(true, ch, k), Text(a),
                  New(false, other, k), Text(b), Paired(false, ch, 3 - k, 0), Text(y)], 1)
  {
    hide Scan, MatchAll;
    var o, o1, o0 := New(true, ch, 3), New(true, ch, 3 - k), New(true, ch, k);
    var c0, c1 := New(false, other, k), New(false, ch, 3 - k);
    var tail := [Text(b), c1, Text(y)];
    VisitSplitsOpen(o, [Text(a)], other, k, tail, 0);
    OtherLeavesInner(ch, other, k, a, b, y);
    assert [o1, o0] + ([Text(a)] + ([c0] + tail)) == [o1, o0, Text(a), c0, Text(b), c1, Text(y)];
    var s := [o] + ([Text(a)] + ([c0] + tail));
    SoundPlus([Text(x)], s);
    MatchPasses(Text(x), s, 0);
    assert [Text(x)] + s == [Text(x), o, Text(a), c0, Text(b), c1, Text(y)];
  }

  lemma OtherLeavesInner(ch: char, other: char, k: nat, a: string, b: string, y: string)
    requires 1 <= k <= 2 && ch != other
    ensures var o0, c0 := New(true, ch, k), New(false, other, k);
            var u := [New(true, ch, 3 - k), o0, Text(a), c0, Text(b), New(false, ch, 3 - k), Text(y)];
            && AllSound(u)
            && MatchAll(u, 0) == Resolved(
                 [Paired(true, ch, 3 - k, 0), o0, Text(a), c0, Text(b), Paired(false, ch, 3 - k, 0), Text(y)], 1)
  {
    hide Scan, MatchAll;
    var o1, o0, c0, c1 := New(true, ch, 3 - k), New(true, ch, k), New(false, other, k), New(false, ch, 3 - k);
    var mid, y' := [o0, Text(a), c0, Text(b)], [Text(y)];
    VisitPairs(o1, mid, y', 0);
    assert [o1] + (mid + ([c1] + y')) == [o1, o0, Text(a), c0, Text(b), c1, Text(y)];
    var rest := [Text(a), c0, Text(b), Paired(false, ch, 3 - k, 0), Text(y)];
    assert mid + ([Paired(false, ch, 3 - k, 0)] + y') == [o0] + rest;
    VisitFindsNothing(o0, rest, 1);
    MatchQuiet(rest, 1);
  }

  /**
    A close marker of size 3 is split by an open marker of another character,
    which takes no part of it, and so splits the open marker it belongs to.
   */
  lemma OtherThenTriple(x: string, ch: char, other: char, k: nat, a: string, b: string, y: string)
    requires 1 <= k <= 2 && ch != other
    ensures var s := [Text(x), New(true, other, k), Text(a), New(true, ch, 3), Text(b), New(false, ch, 3), Text(y)];
            && AllFresh(s) && AllSound(s)
            && MatchAll(s, 0) == Resolved(
                 [Text(x), New(true, other, k), Text(a), Gone(true, ch, 3), Paired(true, ch, k, 0),
                  Paired(true, ch, 3 - k, 1), Text(b), Gone(false, ch, 3), Paired(false, ch, 3 - k, 1),
                  Paired(false, ch, k, 0), Text(y)], 2)
  {
    hide Scan, MatchAll;
    var o, t, gone := New(true, other, k), New(true, ch, 3), Gone(false, ch, 3);
    var c1, c0, y' := New(false, ch, 3 - k), New(false, ch, k), [Text(y)];
    VisitSplitsOther(o, [Text(a), t, Text(b)], ch, y', 0);
    var u := [t, Text(b), gone, c1, c0, Text(y)];
    assert [Text(a), t, Text(b)] + ([gone, c1, c0] + y') == [Text(a)] + u;
    TripleThenHalves(ch, k, b, y);
    MatchPasses(Text(a), u, 0);
    var s := [o] + ([Text(a), t, Text(b)] + ([New(false, ch, 3)] + y'));
    SoundPlus([Text(x)], s);
    MatchPasses(Text(x), s, 0);
    assert [Text(x)] + s == [Text(x), o, Text(a), t, Text(b), New(false, ch, 3), Text(y)];
  }

  lemma TripleThenHalves(ch: char, k: nat, b: string, y: string)
    requires 1 <= k <= 2
    ensures var gone := Gone(false, ch, 3);
            var u := [New(true, ch, 3), Text(b), gone, New(false, ch, 3 - k), New(false, ch, k), Text(y)];
            && AllSound(u)
            && MatchAll(u, 0) == Resolved(
                 [Gone(true, ch, 3), Paired(true, ch, k, 0), Paired(true, ch, 3 - k, 1), Text(b), gone,
                  Paired(false, ch, 3 - k, 1), Paired(false, ch, k, 0), Text(y)], 2)
  {
    hide Scan, MatchAll;
    var t, mid, y' := New(true, ch, 3), [Text(b), Gone(false, ch, 3)], [Text(y)];
    var o0, o1, c1, c0 := New(true, ch, k), New(true, ch, 3 - k), New(false, ch, 3 - k), New(false, ch, k);
    VisitSplitsOpen(t, mid, ch, 3 - k, [c0] + y', 0);
    assert [o0, o1] + (mid + ([c1] + ([c0] + y'))) == [o0] + (([o1] + mid + [c1]) + ([c0] + y'));
    VisitPairs(o0, [o1] + mid + [c1], y', 0);
    var p0, p1 := Paired(false, ch, k, 0), Paired(false, ch, 3 - k, 1);
    assert ([o1] + mid + [c1]) + ([p0] + y') == [o1] + (mid + ([c1] + ([p0] + y')));
    VisitPairs(o1, mid, [p0] + y', 1);
    MatchQuiet(mid + ([p1] + ([p0] + y')), 2);
    assert [t] + (mid + ([c1] + ([c0] + y'))) == [t, Text(b), Gone(false, ch, 3), c1, c0, Text(y)];
  }

  function OpenTag(size: nat): string {
    if size == 1 then "<em>" else if size == 2 then "<strong>" else "<strong><em>"
  }

  function CloseTag(size: nat): string {
    if size == 1 then "</em>" else if size == 2 then "</strong>" else "</em></strong>"
  }

  /** The matched markers are at these positions: a pair, and a pair inside it or the same one. */
  predicate PairsAt(r: seq<Tok>, p0: nat, p1: nat, q1: nat, q0: nat) {
    && p0 <= p1 < q1 <= q0 < |r|
    && (forall p :: 0 <= p < |r| && r[p].Matched() ==> p == p0 || p == p1 || p == q1 || p == q0)
    && r[p0].MatchedOpen() && r[q0].MatchedClose() && r[p0].id == r[q0].id
    && r[p1].MatchedOpen() && r[q1].MatchedClose() && r[p1].id == r[q1].id
  }

  lemma PairsAtNested(r: seq<Tok>, p0: nat, p1: nat, q1: nat, q0: nat)
    requires AllPaired(r) && PairsAt(r, p0, p1, q1, q0)
    ensures Nested(r)
  {
    PairPositions(r, p0);
    PairPositions(r, p1);
    hide AllPaired;
    forall x, y ensures !CrossedBy(r, x, y) {
    }
  }

  /** Nested pairs leave nothing to take apart. */
  lemma PairsNested(s: seq<Tok>, r: seq<Tok>, n: nat, p0: nat, p1: nat, q1: nat, q0: nat)
    requires AllFresh(s) && AllSound(s) && MatchAll(s, 0) == Resolved(r, n) && PairsAt(r, p0, p1, q1, q0)
    ensures Resolve(s) == r && AllSound(r)
  {
    hide PairsAt, MatchAll, Nested, AllPaired, WellPaired, Pending, DropUpTo, DropCrossed;
    FreshIsPending(s);
    MatchAllPairs(s, 0);
    MatchAllConserves(s, 0);
    MatchedListIsPaired(r, n);
    PairsAtNested(r, p0, p1, q1, q0);
    DropCrossedUnchanged(r);
  }

  lemma ShowFirst(t: Tok, rest: seq<Tok>)
    requires t.Mark? ==> 1 <= t.size <= 3
    ensures ShowAll(Render([t] + rest)) == ShowAll(Pieces(t)) + ShowAll(Render(rest))
  {
    assert ([t] + rest)[1..] == rest;
    ShowAllConcat(Pieces(t), Render(rest));
  }

  /** What a token writes in the end. */
  predicate Writes(t: Tok, w: string) {
    w == if t.Text? then t.text
         else if t.disabled then ""
         else if t.id < 0 then seq(t.size, _ => t.ch)
         else if t.open then OpenTag(t.size)
         else CloseTag(t.size)
  }

  function Joined(ws: seq<string>): string { if ws == [] then "" else ws[0] + Joined(ws[1..]) }

  predicate AllWrite(r: seq<Tok>, ws: seq<string>) {
    |r| == |ws| && forall i :: 0 <= i < |r| ==> Writes(r[i], ws[i])
  }

  lemma WritesShown(t: Tok, w: string)
    requires Writes(t, w) && t.Sound()
    ensures ShowAll(Pieces(t)) == w
  {
    PiecesShown(t);
  }

  lemma {:induction false} WrittenIs(r: seq<Tok>, ws: seq<string>)
    requires AllWrite(r, ws) && AllSound(r)
    ensures ShowAll(Render(r)) == Joined(ws)
  {
    hide Writes, Pieces, ShowAll;
    if r == [] {
      NothingShown();
    } else {
      assert r[0] in r && forall t <- r[1..] :: t in r;
      assert forall i :: 0 <= i < |r[1..]| ==> r[1..][i] == r[i + 1] && ws[1..][i] == ws[i + 1];
      assert r == [r[0]] + r[1..];
      WritesShown(r[0], ws[0]);
      ShowFirst(r[0], r[1..]);
      WrittenIs(r[1..], ws[1..]);
    }
  }

  lemma NothingShown()
    ensures ShowAll(Render([])) == ""
  {
  }

  /** The resolver leaves the matching of the list as it is, and this is written. */
  ghost predicate ResolvesTo(s: seq<Tok>, ws: seq<string>) {
    && AllFresh(s) && AllSound(s) && MatchAll(s, 0).Resolved?
    && Resolve(s) == MatchAll(s, 0).list
    && ShowAll(Render(Resolve(s))) == Joined(ws)
  }

  lemma Settles(s: seq<Tok>, r: seq<Tok>, n: nat, ws: seq<string>, p0: nat, p1: nat, q1: nat, q0: nat)
    requires AllFresh(s) && AllSound(s) && MatchAll(s, 0) == Resolved(r, n)
    requires PairsAt(r, p0, p1, q1, q0) && AllWrite(r, ws)
    ensures ResolvesTo(s, ws)
  {
    hide PairsAt, AllWrite, MatchAll, Render, ShowAll, Joined;
    PairsNested(s, r, n, p0, p1, q1, q0);
    WrittenIs(r, ws);
  }

  /** Two opens and one close of size 3: both pairs are kept, the first open one outside. */
  lemma OpensThenTripleWritten(x: string, ch: char, k: nat, a: string, b: string, y: string)
    requires 1 <= k <= 2
    ensures ResolvesTo(
              [Text(x), New(true, ch, k), Text(a), New(true, ch, 3 - k), Text(b), New(false, ch, 3), Text(y)],
              [x, OpenTag(k), a, OpenTag(3 - k), b, "", CloseTag(3 - k), CloseTag(k), y])
  {
    hide MatchAll, AllFresh, AllSound;
    OpensThenTriple(x, ch, k, a, b, y);
    var s := [Text(x), New(true, ch, k), Text(a), New(true, ch, 3 - k), Text(b), New(false, ch, 3), Text(y)];
    var r := MatchAll(s, 0).list;
    var ws := [x, OpenTag(k), a, OpenTag(3 - k), b, "", CloseTag(3 - k), CloseTag(k), y];
    assert PairsAt(r, 1, 3, 6, 7) by {
      hide Writes;
    }
    assert AllWrite(r, ws) by {
      hide PairsAt;
    }
    hide PairsAt, AllWrite, ResolvesTo;
    Settles(s, r, 2, ws, 1, 3, 6, 7);
  }

  /** One open of size 3 and two closes: both pairs are kept, the one closed first inside. */
  lemma TripleThenClosesWritten(x: string, ch: char, k: nat, a: string, b: string, y: string)
    requires 1 <= k <= 2
    ensures ResolvesTo(
              [Text(x), New(true, ch, 3), Text(a), New(false, ch, k), Text(b), New(false, ch, 3 - k), Text(y)],
              [x, "", OpenTag(3 - k), OpenTag(k), a, CloseTag(k), b, CloseTag(3 - k), y])
  {
    hide MatchAll, AllFresh, AllSound;
    TripleThenCloses(x, ch, k, a, b, y);
    var s := [Text(x), New(true, ch, 3), Text(a), New(false, ch, k), Text(b), New(false, ch, 3 - k), Text(y)];
    var r := MatchAll(s, 0).list;
    var ws := [x, "", OpenTag(3 - k), OpenTag(k), a, CloseTag(k), b, CloseTag(3 - k), y];
    assert PairsAt(r, 2, 3, 5, 7) by {
      hide Writes;
    }
    assert AllWrite(r, ws) by {
      hide PairsAt;
    }
    hide PairsAt, AllWrite, ResolvesTo;
    Settles(s, r, 2, ws, 2, 3, 5, 7);
  }

  /** With a first close of another character the inner part and that close show as they were written. */
  lemma TripleThenOtherWritten(x: string, ch: char, other: char, k: nat, a: string, b: string, y: string)
    requires 1 <= k <= 2 && ch != other
    ensures ResolvesTo(
              [Text(x), New(true, ch, 3), Text(a), New(false, other, k), Text(b), New(false, ch, 3 - k), Text(y)],
              [x, "", OpenTag(3 - k), seq(k, _ => ch), a, seq(k, _ => other), b, CloseTag(3 - k), y])
  {
    hide MatchAll, AllFresh, AllSound;
    TripleThenOther(x, ch, other, k, a, b, y);
    var s := [Text(x), New(true, ch, 3), Text(a), New(false, other, k), Text(b), New(false, ch, 3 - k), Text(y)];
    var r := MatchAll(s, 0).list;
    var ws := [x, "", OpenTag(3 - k), seq(k, _ => ch), a, seq(k, _ => other), b, CloseTag(3 - k), y];
    assert PairsAt(r, 2, 2, 7, 7) by {
      hide Writes;
    }
    assert AllWrite(r, ws) by {
      hide PairsAt;
    }
    hide PairsAt, AllWrite, ResolvesTo;
    Settles(s, r, 1, ws, 2, 2, 7, 7);
  }

  /** With an open of another character before them, a pair of size 3 is written as two pairs, its size first. */
  lemma OtherThenTripleWritten(x: string, ch: char, other: char, k: nat, a: string, b: string, y: string)
    requires 1 <= k <= 2 && ch != other
    ensures ResolvesTo(
              [Text(x), New(true, other, k), Text(a), New(true, ch, 3), Text(b), New(false, ch, 3), Text(y)],
              [x, seq(k, _ => other), a, "", OpenTag(k), OpenTag(3 - k), b, "", CloseTag(3 - k), CloseTag(k), y])
  {
    hide MatchAll, AllFresh, AllSound;
    OtherThenTriple(x, ch, other, k, a, b, y);
    var s := [Text(x), New(true, other, k), Text(a), New(true, ch, 3), Text(b), New(false, ch, 3), Text(y)];
    var r := MatchAll(s, 0).list;
    var ws := [x, seq(k, _ => other), a, "", OpenTag(k), OpenTag(3 - k), b, "", CloseTag(3 - k), CloseTag(k), y];
    assert PairsAt(r, 4, 5, 8, 9) by {
      hide Writes;
    }
    assert AllWrite(r, ws) by {
      hide PairsAt;
    }
    hide PairsAt, AllWrite, ResolvesTo;
    Settles(s, r, 2, ws, 4, 5, 8, 9);
  }

  /** A pair of any size is written as its tags around what lies between. */
  lemma PairWritten(x: string, ch: char, k: nat, a: string, y: string)
    requires 1 <= k <= 3
    ensures ResolvesTo([Text(x), New(true, ch, k), Text(a), New(false, ch, k), Text(y)],
                       [x, OpenTag(k), a, CloseTag(k), y])
  {
    hide Scan, MatchAll, ResolvesTo;
    var o, c, s := New(true, ch, k), New(false, ch, k), [Text(a), New(false, ch, k), Text(y)];
    VisitPairs(o, [Text(a)], [Text(y)], 0);
    assert [Text(a)] + ([c] + [Text(y)]) == s;
    MatchQuiet([Text(a)] + ([Paired(false, ch, k, 0)] + [Text(y)]), 1);
    SoundPlus([Text(x)], [o] + s);
    MatchPasses(Text(x), [o] + s, 0);
    assert [Text(x)] + ([o] + s) == [Text(x), o, Text(a), c, Text(y)];
    var all := [Text(x), o, Text(a), c, Text(y)];
    var m := MatchAll(all, 0);
    assert m.list == [Text(x), Paired(true, ch, k, 0), Text(a), Paired(false, ch, k, 0), Text(y)];
    Settles(all, m.list, 1, [x, OpenTag(k), a, CloseTag(k), y], 1, 1, 3, 3);
  }

  /** Two pairs of different characters that cross. */
  lemma CrossedMatched(ch: char, other: char, j: nat, k: nat, a: string, b: string, y: string)
    requires 1 <= j <= 2 && 1 <= k <= 2 && ch != other
    ensures var s := [New(true, ch, j), Text(a), New(true, other, k), Text(b), New(false, ch, j), Text(y),
                      New(false, other, k)];
            && AllFresh(s) && AllSound(s)
            && MatchAll(s, 0) == Resolved(
                 [Paired(true, ch, j, 0), Text(a), Paired(true, other, k, 1), Text(b), Paired(false, ch, j, 0), Text(y),
                  Paired(false, other, k, 1)], 2)
  {
    hide Scan, MatchAll;
    var o, i, c, d := New(true, ch, j), New(true, other, k), New(false, ch, j), New(false, other, k);
    var mid, p := [Text(a), i, Text(b)], Paired(false, ch, j, 0);
    VisitPairs(o, mid, [Text(y), d], 0);
    assert [o] + (mid + ([c] + [Text(y), d])) == [o, Text(a), i, Text(b), c, Text(y), d];
    var in' := [Text(b), p, Text(y)];
    assert mid + ([p] + [Text(y), d]) == [Text(a)] + ([i] + (in' + ([d] + [])));
    VisitPairs(i, in', [], 1);
    MatchQuiet(in' + ([Paired(false, other, k, 1)] + []), 2);
    MatchPasses(Text(a), [i] + (in' + ([d] + [])), 1);
  }

  /** Of two pairs that cross, the one closed first shows as it was written and the other is kept. */
  lemma CrossedWritten(ch: char, other: char, j: nat, k: nat, a: string, b: string, y: string)
    requires 1 <= j <= 2 && 1 <= k <= 2 && ch != other
    ensures var s := [New(true, ch, j), Text(a), New(true, other, k), Text(b), New(false, ch, j), Text(y),
                      New(false, other, k)];
            && AllFresh(s) && MatchAll(s, 0).Resolved?
            && ShowAll(Render(Resolve(s)))
               == Joined([seq(j, _ => ch), a, OpenTag(k), b, seq(j, _ => ch), y, CloseTag(k)])
  {
    hide MatchAll, Render, ShowAll, Joined;
    CrossedMatched(ch, other, j, k, a, b, y);
    var s := [New(true, ch, j), Text(a), New(true, other, k), Text(b), New(false, ch, j), Text(y),
              New(false, other, k)];
    var r := MatchAll(s, 0).list;
    CrossedSettles(s, r);
    assert AllWrite(Resolve(s), [seq(j, _ => ch), a, OpenTag(k), b, seq(j, _ => ch), y, CloseTag(k)]);
    hide AllWrite;
    WrittenIs(Resolve(s), [seq(j, _ => ch), a, OpenTag(k), b, seq(j, _ => ch), y, CloseTag(k)]);
  }

  lemma CrossedSettles(s: seq<Tok>, r: seq<Tok>)
    requires AllFresh(s) && AllSound(s) && MatchAll(s, 0) == Resolved(r, 2)
    requires |r| == 7 && forall p :: 0 <= p < 7 ==> (r[p].Matched() <==> p in {0, 2, 4, 6})
    requires r[0].MatchedOpen() && r[2].MatchedOpen() && r[4].MatchedClose() && r[6].MatchedClose()
    requires r[0].id == r[4].id && r[2].id == r[6].id
    ensures AllSound(Resolve(s)) && Resolve(s) == r[0 := r[0].WithId(-1)][4 := r[4].WithId(-1)]
  {
    hide MatchAll, AllPaired, WellPaired, Pending, DropUpTo;
    FreshIsPending(s);
    MatchAllPairs(s, 0);
    MatchAllConserves(s, 0);
    MatchedListIsPaired(r, 2);
    CrossedDropped(r);
    DropConserves(r, |r|);
  }

  /** Pair 0 opens first and closes first. */
  lemma CrossedDropped(r: seq<Tok>)
    requires AllPaired(r) && |r| == 7 && forall p :: 0 <= p < 7 ==> (r[p].Matched() <==> p in {0, 2, 4, 6})
    requires r[0].MatchedOpen() && r[2].MatchedOpen() && r[4].MatchedClose() && r[6].MatchedClose()
    requires r[0].id == r[4].id && r[2].id == r[6].id
    ensures DropCrossed(r) == r[0 := r[0].WithId(-1)][4 := r[4].WithId(-1)]
  {
    PairPositions(r, 0);
    PairPositions(r, 2);
    hide AllPaired;
    assert CrossedBy(r, r[0].id, r[2].id);
    forall y ensures !CrossedBy(r, r[2].id, y) {
    }
  }
}
