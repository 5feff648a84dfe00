/**
  The emphasis resolver as the renderer runs it: marker objects that point at
  each other, in a list that is spliced while it is walked.
 */
module EmphasisResolver {
  import opened EmphasisTokens
  import opened EmphasisMatching
  import opened EmphasisPairs
  import opened EmphasisNesting
  import opened EmphasisOrder
  import opened EmphasisRender

  class Marker {
    const openMarker: bool
    const tokenCharacter: char
    const size: nat
    var matchedTo: Marker?
    var cannotMatch: bool
    var disabled: bool
    var id: int

    constructor (open: bool, c: char, size: nat)
      ensures openMarker == open && tokenCharacter == c && this.size == size
      ensures matchedTo == null && !cannotMatch && !disabled && id == -1
    {
      openMarker, tokenCharacter, this.size := open, c, size;
      matchedTo, cannotMatch, disabled, id := null, false, false, -1;
    }

    predicate IsUnmatchedOpenMarker() reads this { openMarker && matchedTo == null && !cannotMatch }

    predicate IsUnmatchedCloseMarker() reads this { !openMarker && matchedTo == null && !cannotMatch }

    predicate IsMatchedOpenMarker() reads this { openMarker && matchedTo != null }

    predicate IsMatchedCloseMarker() reads this { !openMarker && matchedTo != null }

    method Matched(other: Marker?, x: int)
      modifies this`matchedTo, this`id
      ensures matchedTo == other && id == x
    {
      matchedTo, id := other, x;
    }

    method Disable()
      modifies this`cannotMatch, this`disabled
      ensures cannotMatch && disabled && !IsUnmatchedOpenMarker() && !IsUnmatchedCloseMarker()
    {
      cannotMatch, disabled := true, true;
    }

    ghost function View(): Tok
      reads this
    {
      Mark(openMarker, tokenCharacter, size, id, disabled)
    }

    /** What the marker writes is the text of its pieces. */
    method WriteAsHtml() returns (out: string)
      requires matchedTo != null <==> id >= 0
      requires 1 <= size <= 3
      ensures out == ShowAll(Pieces(View()))
    {
      out := "";
      if !disabled {
        if matchedTo != null {
          assert 1 <= size <= 3;
          if openMarker {
            out := if size == 1 then "<em>" else if size == 2 then "<strong>" else "<strong><em>";
          } else {
            out := if size == 1 then "</em>" else if size == 2 then "</strong>" else "</em></strong>";
          }
        } else {
          out := seq(size, _ => tokenCharacter);
        }
      }
      PiecesShown(View());
    }
  }

  datatype Token = RawText(text: string) | Emphasis(marker: Marker)

  ghost function Objects(ts: seq<Token>): set<Marker> {
    set t | t in ts && t.Emphasis? :: t.marker
  }

  ghost function ViewOf(t: Token): Tok
    reads if t.Emphasis? then {t.marker} else {}
  {
    match t
    case RawText(s) => Text(s)
    case Emphasis(m) => m.View()
  }

  /** The list as values. */
  ghost function View(ts: seq<Token>): (v: seq<Tok>)
    reads Objects(ts)
    ensures |v| == |ts|
  {
    seq(|ts|, i requires 0 <= i < |ts| reads Objects(ts) => ViewOf(ts[i]))
  }

  /**
    The list holds different markers, and match pointers are symmetric, stay inside
    the list and agree with the ids.
   */
  ghost predicate Consistent(ts: seq<Token>)
    reads Objects(ts)
  {
    && (forall i, j :: 0 <= i < j < |ts| && ts[i].Emphasis? && ts[j].Emphasis? ==> ts[i].marker != ts[j].marker)
    && forall m <- Objects(ts) ::
         && m.cannotMatch == m.disabled
         && (m.matchedTo != null <==> m.id >= 0)
         && (m.matchedTo != null ==>
               && m.matchedTo in Objects(ts)
               && m.matchedTo.matchedTo == m
               && m.matchedTo.id == m.id
               && m.matchedTo.openMarker != m.openMarker)
  }

  /** Nothing but the flags of the marker at `p` changes. */
  method DisableMarker(ts: seq<Token>, p: nat)
    requires Consistent(ts) && p < |ts| && ts[p].Emphasis?
    requires ts[p].marker.matchedTo == null
    modifies ts[p].marker`cannotMatch, ts[p].marker`disabled
    ensures Consistent(ts)
    ensures View(ts) == old(View(ts))[p := old(View(ts))[p].Disable()]
  {
    assert ts[p] in ts;
    ts[p].marker.Disable();
  }

  function Spliced(ts: seq<Token>, p: nat, a: Marker, b: Marker): (r: seq<Token>)
    requires p < |ts|
    ensures |r| == |ts| + 2
  {
    ts[..p + 1] + [Emphasis(a), Emphasis(b)] + ts[p + 1..]
  }

  lemma SplicedObjects(ts: seq<Token>, p: nat, a: Marker, b: Marker)
    requires p < |ts|
    ensures Objects(Spliced(ts, p, a, b)) == Objects(ts) + {a, b}
  {
    var r := Spliced(ts, p, a, b);
    assert forall i :: 0 <= i < |ts| ==> ts[i] == r[if i <= p then i else i + 2];
    assert r[p + 1] == Emphasis(a) && r[p + 2] == Emphasis(b);
    forall m | m in Objects(ts) + {a, b} ensures m in Objects(r) {
      if m in Objects(ts) {
        var i :| 0 <= i < |ts| && ts[i] == Emphasis(m);
        assert r[if i <= p then i else i + 2] in r;
      }
    }
    forall m | m in Objects(r) ensures m in Objects(ts) + {a, b} {
      var i :| 0 <= i < |r| && r[i] == Emphasis(m);
      if i <= p {
        assert ts[i] in ts;
      } else if i > p + 2 {
        assert ts[i - 2] in ts;
      }
    }
  }

  /** Two new markers may be spliced in anywhere. */
  lemma SplicedConsistent(ts: seq<Token>, p: nat, a: Marker, b: Marker)
    requires Consistent(ts) && p < |ts|
    requires a !in Objects(ts) && b !in Objects(ts) && a != b
    requires a.matchedTo == null && a.id < 0 && a.cannotMatch == a.disabled
    requires b.matchedTo == null && b.id < 0 && b.cannotMatch == b.disabled
    ensures Consistent(Spliced(ts, p, a, b))
  {
    var r := Spliced(ts, p, a, b);
    SplicedObjects(ts, p, a, b);
    forall i | 0 <= i < |ts| && ts[i].Emphasis? ensures ts[i].marker != a && ts[i].marker != b {
      assert ts[i] in ts;
    }
    forall i, j | 0 <= i < j < |r| && r[i].Emphasis? && r[j].Emphasis? ensures r[i].marker != r[j].marker {
      if i <= p && j <= p {
        assert r[i] == ts[i] && r[j] == ts[j];
      } else if i <= p && j > p + 2 {
        assert r[i] == ts[i] && r[j] == ts[j - 2];
      } else if i > p + 2 {
        assert r[i] == ts[i - 2] && r[j] == ts[j - 2];
      }
    }
  }

  lemma SplicedView(ts: seq<Token>, p: nat, a: Marker, b: Marker)
    requires p < |ts|
    ensures var v := View(ts);
            View(Spliced(ts, p, a, b)) == v[..p + 1] + [a.View(), b.View()] + v[p + 1..]
  {
  }

  method NewHalves(m: Marker, k: nat) returns (first: Marker, second: Marker)
    requires k <= 3
    ensures fresh(first) && fresh(second) && first != second
    ensures first.View() == Mark(m.openMarker, m.tokenCharacter, 3 - k, -1, false)
    ensures second.View() == Mark(m.openMarker, m.tokenCharacter, k, -1, false)
    ensures first.matchedTo == null && !first.cannotMatch && second.matchedTo == null && !second.cannotMatch
  {
    first := new Marker(m.openMarker, m.tokenCharacter, 3 - k);
    second := new Marker(m.openMarker, m.tokenCharacter, k);
  }

  /** Puts two new markers after position `p`. */
  method SpliceHalves(ts: seq<Token>, p: nat, k: nat) returns (r: seq<Token>)
    requires Consistent(ts) && p < |ts| && ts[p].Emphasis? && k <= 3
    ensures Consistent(r) && fresh(Objects(r) - Objects(ts)) && Objects(ts) <= Objects(r)
    ensures |r| == |ts| + 2 && r[..p + 1] == ts[..p + 1]
    ensures var v := View(ts);
            View(r) == v[..p + 1] + Halves(v[p].open, v[p].ch, k) + v[p + 1..]
  {
    ghost var v := View(ts);
    var first, second := NewHalves(ts[p].marker, k);
    assert Consistent(ts) && View(ts) == v;
    r := Spliced(ts, p, first, second);
    SplicedObjects(ts, p, first, second);
    SplicedConsistent(ts, p, first, second);
    SplicedView(ts, p, first, second);
  }

  /** Replaces the unmatched marker at `p` by two new ones of the same text: it stays in the list, disabled. */
  method SplitMarker(ts: seq<Token>, p: nat, k: nat) returns (r: seq<Token>)
    requires Consistent(ts) && p < |ts| && ts[p].Emphasis? && k <= 3
    requires ts[p].marker.matchedTo == null
    modifies ts[p].marker`cannotMatch, ts[p].marker`disabled
    ensures Consistent(r) && fresh(Objects(r) - Objects(ts)) && Objects(ts) <= Objects(r)
    ensures |r| == |ts| + 2 && r[..p + 1] == ts[..p + 1]
    ensures var v := old(View(ts));
            var first := Mark(v[p].open, v[p].ch, 3 - k, -1, false);
            var second := Mark(v[p].open, v[p].ch, k, -1, false);
            View(r) == v[..p] + [v[p].(disabled := true), first, second] + v[p + 1..]
  {
    hide Consistent;
    ghost var v := View(ts);
    DisableMarker(ts, p);
    assert View(ts)[..p + 1] == v[..p] + [v[p].Disable()];
    assert View(ts)[p + 1..] == v[p + 1..];
    r := SpliceHalves(ts, p, k);
  }

  /** Points two unmatched markers at each other. */
  method PairMarkers(ts: seq<Token>, p: nat, q: nat, x: nat)
    requires Consistent(ts) && p < q < |ts| && ts[p].Emphasis? && ts[q].Emphasis?
    requires ts[p].marker.IsUnmatchedOpenMarker() && ts[q].marker.IsUnmatchedCloseMarker()
    modifies ts[p].marker, ts[q].marker
    ensures Consistent(ts)
    ensures View(ts) == old(View(ts))[p := old(View(ts))[p].WithId(x)][q := old(View(ts))[q].WithId(x)]
  {
    var open, close := ts[p].marker, ts[q].marker;
    assert ts[p] in ts && ts[q] in ts;
    open.Matched(close, x);
    close.Matched(open, x);
  }

  lemma PairHasTwo(v: seq<Tok>, q: nat, k: nat)
    requires AllPaired(v) && q < |v| && k < |v| && q != k
    requires v[q].Matched() && v[k].Matched() && v[q].id == v[k].id
    ensures forall p :: 0 <= p < |v| && v[p].Matched() && v[p].id == v[k].id ==> p == q || p == k
  {
    hide HasOpen, HasClose;
  }

  /** Clears both pointers of a matched pair. */
  method Unlink(ts: seq<Token>, ghost q: nat, k: nat)
    requires Consistent(ts) && q < |ts| && k < |ts| && ts[q].Emphasis? && ts[k].Emphasis?
    requires ts[k].marker.matchedTo == ts[q].marker
    modifies ts[q].marker, ts[k].marker
    ensures Consistent(ts)
    ensures View(ts) == old(View(ts))[q := old(View(ts))[q].WithId(-1)][k := old(View(ts))[k].WithId(-1)]
  {
    assert ts[q] in ts && ts[k] in ts;
    ghost var v := View(ts);
    var close := ts[k].marker;
    var open := close.matchedTo;
    assert forall p :: 0 <= p < |ts| && p != q && p != k && ts[p].Emphasis? ==> ts[p].marker !in {open, close};
    assert open in Objects(ts) && close in Objects(ts) && open.matchedTo == close;
    forall m | m in Objects(ts) && m != open && m != close ensures m.matchedTo != open && m.matchedTo != close {
      assert m.matchedTo != null ==> m.matchedTo.matchedTo == m;
    }
    open.Matched(null, -1);
    close.Matched(null, -1);
    assert Consistent(ts);
    assert View(ts) == v[q := v[q].WithId(-1)][k := v[k].WithId(-1)] by {
      hide Consistent;
      forall p | 0 <= p < |ts| ensures View(ts)[p] == v[q := v[q].WithId(-1)][k := v[k].WithId(-1)][p] {
        if p == q || p == k {
          assert View(ts)[p] == v[p].WithId(-1);
        }
      }
    }
  }

  /** The position of the partner of a matched marker. */
  lemma PartnerAt(ts: seq<Token>, k: nat) returns (q: nat)
    requires Consistent(ts) && k < |ts| && ts[k].Emphasis? && ts[k].marker.matchedTo != null
    ensures q < |ts| && q != k && ts[q] == Emphasis(ts[k].marker.matchedTo)
    ensures View(ts)[q].Matched() && View(ts)[k].Matched() && View(ts)[q].id == View(ts)[k].id
  {
    assert ts[k] in ts && ts[k].marker.matchedTo in Objects(ts);
    q :| 0 <= q < |ts| && ts[q] == Emphasis(ts[k].marker.matchedTo);
  }

  /** Takes the pair of the close marker at `k` apart; no other marker carries its id. */
  method UnpairMarkers(ts: seq<Token>, k: nat)
    requires Consistent(ts) && AllPaired(View(ts)) && k < |ts| && ts[k].Emphasis?
    requires ts[k].marker.IsMatchedCloseMarker()
    modifies Objects(ts)
    ensures Consistent(ts)
    ensures var v := old(View(ts));
            forall p :: 0 <= p < |ts| ==>
              View(ts)[p] == if v[p].Matched() && v[p].id == v[k].id then v[p].WithId(-1) else v[p]
  {
    hide AllPaired, Consistent;
    ghost var v := View(ts);
    ghost var q := PartnerAt(ts, k);
    assert ts[q] in ts && ts[k] in ts;
    PairHasTwo(v, q, k);
    Unlink(ts, q, k);
  }

  lemma PrefixOfPrefix<T>(a: seq<T>, b: seq<T>, n: nat, m: nat)
    requires n <= m <= |a| && m <= |b| && a[..m] == b[..m]
    ensures a[..n] == b[..n]
  {
    assert a[..m][..n] == a[..n] && b[..m][..n] == b[..n];
  }

  lemma ViewAgrees(ts: seq<Token>, i: nat)
    requires Consistent(ts) && i < |ts|
    ensures View(ts)[i].UnmatchedOpen() <==> ts[i].Emphasis? && ts[i].marker.IsUnmatchedOpenMarker()
    ensures View(ts)[i].UnmatchedClose() <==> ts[i].Emphasis? && ts[i].marker.IsUnmatchedCloseMarker()
    ensures View(ts)[i].MatchedOpen() <==> ts[i].Emphasis? && ts[i].marker.IsMatchedOpenMarker()
    ensures View(ts)[i].MatchedClose() <==> ts[i].Emphasis? && ts[i].marker.IsMatchedCloseMarker()
  {
    assert ts[i] in ts;
  }

  /** The inner loop stands at `iii`: finishing the search from there gives the search from `ii` on. */
  ghost predicate Searching(v0: seq<Tok>, v: seq<Tok>, ii: nat, iii: nat, id: nat) {
    && ii < iii <= |v| && ii < |v0|
    && v0[ii].UnmatchedOpen() && 1 <= v0[ii].size <= 3
    && v[..ii + 1] == v0[..ii + 1]
    && var rest := Scan(v0[ii], v[iii..], id);
       Scan(v0[ii], v0[ii + 1..], id) == Scanned(v[ii + 1..iii] + rest.rest, rest.outcome)
  }

  lemma SearchStarts(v0: seq<Tok>, ii: nat, id: nat)
    requires ii < |v0| && v0[ii].UnmatchedOpen() && 1 <= v0[ii].size <= 3
    ensures Searching(v0, v0, ii, ii + 1, id)
  {
    assert v0[ii + 1..ii + 1] == [];
    var rest := Scan(v0[ii], v0[ii + 1..], id);
    assert [] + rest.rest == rest.rest;
  }

  lemma SearchingAt(v0: seq<Tok>, v: seq<Tok>, ii: nat, iii: nat, id: nat)
    requires Searching(v0, v, ii, iii, id)
    ensures ii < iii <= |v| && ii < |v0| && v[ii] == v0[ii]
    ensures v[ii].UnmatchedOpen() && 1 <= v[ii].size <= 3
  {
    PrefixElement(v, v0, ii);
  }

  lemma SearchSkips(v0: seq<Tok>, v: seq<Tok>, ii: nat, iii: nat, id: nat)
    requires Searching(v0, v, ii, iii, id) && iii < |v|
    requires v[iii].UnmatchedClose() ==> v0[ii].size != 3 && v[iii].size != 3 && !SameKind(v[iii], v0[ii])
    ensures Searching(v0, v, ii, iii + 1, id)
    ensures Triples(v[iii + 1..]) <= Triples(v[iii..])
  {
    assert v[iii..][1..] == v[iii + 1..];
    var rest := Scan(v0[ii], v[iii + 1..], id).rest;
    assert v[ii + 1..iii] + ([v[iii]] + rest) == v[ii + 1..iii + 1] + rest;
  }

  lemma SearchSplits(v0: seq<Tok>, v: seq<Tok>, w: seq<Tok>, ii: nat, iii: nat, id: nat)
    requires Searching(v0, v, ii, iii, id) && iii < |v|
    requires v[iii].UnmatchedClose() && v[iii].size == 3 && v0[ii].size != 3
    requires w == v[..iii] + [v[iii].Disable()] + Halves(false, v[iii].ch, v0[ii].size) + v[iii + 1..]
    ensures Searching(v0, w, ii, iii + 1, id)
    ensures Triples(w[iii + 1..]) < Triples(v[iii..])
  {
    hide Halves, Triples;
    var h := Halves(false, v[iii].ch, v0[ii].size);
    assert v[iii..][1..] == v[iii + 1..];
    SplicedSlices(v, w, v[iii].Disable(), h, ii, iii);
    TriplesConcat(h, v[iii + 1..]);
    NoTriplesInHalves(false, v[iii].ch, v0[ii].size);
    TriplesHead(v[iii..]);
    var rest := Scan(v0[ii], h + v[iii + 1..], id).rest;
    assert v[ii + 1..iii] + ([v[iii].Disable()] + rest) == (v[ii + 1..iii] + [v[iii].Disable()]) + rest;
  }

  lemma SplicedSlices<T>(v: seq<T>, w: seq<T>, x: T, h: seq<T>, ii: nat, iii: nat)
    requires ii < iii < |v| && w == v[..iii] + [x] + h + v[iii + 1..]
    ensures |w| == |v| + |h| && w[iii + 1..] == h + v[iii + 1..]
    ensures w[..ii + 1] == v[..ii + 1] && w[ii + 1..iii + 1] == v[ii + 1..iii] + [x]
  {
    assert w[..iii + 1] == v[..iii] + [x];
    assert w[..ii + 1] == v[..ii + 1];
    assert w[ii + 1..iii + 1] == w[..iii + 1][ii + 1..];
  }

  lemma SearchPairs(v0: seq<Tok>, v: seq<Tok>, w: seq<Tok>, ii: nat, iii: nat, id: nat)
    requires Searching(v0, v, ii, iii, id) && iii < |v|
    requires v[iii].UnmatchedClose() && SameKind(v[iii], v0[ii])
    requires w == v[ii := v[ii].WithId(id)][iii := v[iii].WithId(id)]
    ensures Scan(v0[ii], v0[ii + 1..], id) == Scanned(w[ii + 1..], Paired)
    ensures w[..ii] == v0[..ii] && w[ii] == v0[ii].WithId(id)
  {
    assert v[iii..][1..] == v[iii + 1..];
    SearchingAt(v0, v, ii, iii, id);
    PrefixOfPrefix(v, v0, ii, ii + 1);
    PairSlices(v, w, v[ii].WithId(id), v[iii].WithId(id), ii, iii);
  }

  lemma PairSlices<T>(v: seq<T>, w: seq<T>, x: T, y: T, ii: nat, iii: nat)
    requires ii < iii < |v| && w == v[ii := x][iii := y]
    ensures w[ii + 1..] == v[ii + 1..iii] + ([y] + v[iii + 1..]) && w[..ii] == v[..ii] && w[ii] == x
  {
  }

  lemma SearchStops(v0: seq<Tok>, v: seq<Tok>, ii: nat, iii: nat, id: nat)
    requires Searching(v0, v, ii, iii, id)
    requires iii < |v| ==> v0[ii].size == 3 && v[iii].UnmatchedClose() && !SameKind(v[iii], v0[ii])
    ensures Scan(v0[ii], v0[ii + 1..], id) ==
      Scanned(v[ii + 1..],
              if iii == |v| then NotFound else if v[iii].size == 3 then Collision else SplitOpen(v[iii].size))
    ensures v[..ii] == v0[..ii] && v[ii] == v0[ii]
  {
    assert v[ii + 1..iii] + v[iii..] == v[ii + 1..];
    assert v[..ii + 1][..ii] == v0[..ii + 1][..ii];
    assert v[..ii + 1][ii] == v0[..ii + 1][ii];
  }

  /**
    What happens at token `iii`: `w` is the list afterwards, `stop` tells whether
    the search is over, with `outcome`.
   */
  ghost predicate Visited(v: seq<Tok>, w: seq<Tok>, ii: nat, iii: nat, id: nat, stop: bool, outcome: Outcome)
    requires ii < iii < |v| && v[ii].Mark? && v[ii].size <= 3
  {
    var o, c := v[ii], v[iii];
    if !c.UnmatchedClose() then !stop && w == v
    else if c.size == 3 && o.size != 3 then
      !stop && w == v[..iii] + [c.Disable()] + Halves(false, c.ch, o.size) + v[iii + 1..]
    else if SameKind(c, o) then
      stop && outcome == Paired && w == v[ii := o.WithId(id)][iii := c.WithId(id)]
    else if o.size == 3 then
      stop && outcome == (if c.size == 3 then Collision else SplitOpen(c.size)) && w == v
    else !stop && w == v
  }

  lemma VisitedAdvances(v0: seq<Tok>, v: seq<Tok>, w: seq<Tok>, ii: nat, iii: nat, id: nat, stop: bool,
                        outcome: Outcome)
    requires Searching(v0, v, ii, iii, id) && iii < |v| && v[ii] == v0[ii]
    requires Visited(v, w, ii, iii, id, stop, outcome)
    ensures !stop ==> Searching(v0, w, ii, iii + 1, id)
    ensures !stop ==>
      Triples(w[iii + 1..]) < Triples(v[iii..]) || (Triples(w[iii + 1..]) <= Triples(v[iii..]) && |w| == |v|)
    ensures stop ==> Scan(v0[ii], v0[ii + 1..], id) == Scanned(w[ii + 1..], outcome) && w[..ii] == v0[..ii]
    ensures stop ==> w[ii] == if outcome.Paired? then v0[ii].WithId(id) else v0[ii]
  {
    if !stop && w == v {
      SearchSkips(v0, v, ii, iii, id);
    } else if !stop {
      SearchSplits(v0, v, w, ii, iii, id);
    } else if outcome.Paired? {
      SearchPairs(v0, v, w, ii, iii, id);
    } else {
      SearchStops(v0, v, ii, iii, id);
    }
  }

  /** One turn of the inner loop. */
  method VisitToken(tgt: seq<Token>, ii: nat, iii: nat, id: nat) returns (r: seq<Token>, stop: bool, outcome: Outcome)
    requires Consistent(tgt) && ii < iii < |tgt| && tgt[ii].Emphasis? && tgt[ii].marker.IsUnmatchedOpenMarker()
    requires tgt[ii].marker.size <= 3
    modifies Objects(tgt)
    ensures Consistent(r) && fresh(Objects(r) - Objects(tgt))
    ensures |tgt| <= |r| && r[..iii + 1] == tgt[..iii + 1]
    ensures Visited(old(View(tgt)), View(r), ii, iii, id, stop, outcome)
  {
    r, stop, outcome := tgt, false, NotFound;
    assert tgt[iii] in tgt && tgt[ii] in tgt;
    if tgt[iii].Emphasis? && tgt[iii].marker.IsUnmatchedCloseMarker() {
      var openToken, closeToken := tgt[ii].marker, tgt[iii].marker;
      if closeToken.size == 3 && openToken.size != 3 {
        r := SplitMarker(tgt, iii, openToken.size);
      } else if closeToken.tokenCharacter == openToken.tokenCharacter && closeToken.size == openToken.size {
        PairMarkers(tgt, ii, iii, id);
        stop, outcome := true, Paired;
      } else if openToken.size == 3 {
        stop, outcome := true, if closeToken.size == 3 then Collision else SplitOpen(closeToken.size);
      }
    }
  }

  /**
    The inner loop: the search for the partner of the open marker at `ii`,
    splitting close markers on the way. Only the tokens after `ii` change,
    apart from the pointer and id of a paired open marker.
   */
  method FindClose(tgt: seq<Token>, ii: nat, id: nat) returns (r: seq<Token>, outcome: Outcome)
    requires Consistent(tgt) && ii < |tgt| && tgt[ii].Emphasis? && tgt[ii].marker.IsUnmatchedOpenMarker()
    requires 1 <= tgt[ii].marker.size <= 3
    modifies Objects(tgt)
    ensures Consistent(r) && fresh(Objects(r) - Objects(tgt)) && ii < |r| && r[..ii + 1] == tgt[..ii + 1]
    ensures var v := old(View(tgt));
            && Scan(v[ii], v[ii + 1..], id) == Scanned(View(r)[ii + 1..], outcome)
            && View(r)[..ii] == v[..ii]
            && View(r)[ii] == if outcome.Paired? then v[ii].WithId(id) else v[ii]
  {
    hide Consistent, Searching, Visited, Scan, Triples;
    ghost var v0 := View(tgt);
    r := tgt;
    var iii: nat := ii + 1;
    ViewAgrees(tgt, ii);
    SearchStarts(v0, ii, id);
    while iii < |r|
      invariant Consistent(r) && fresh(Objects(r) - Objects(tgt)) && ii < |r| && r[..ii + 1] == tgt[..ii + 1]
      invariant ii < iii <= |r| && Searching(v0, View(r), ii, iii, id)
      decreases Triples(View(r)[iii..]), |r| - iii
    {
      ghost var before, v := r, View(r);
      PrefixElement(r, tgt, ii);
      SearchingAt(v0, v, ii, iii, id);
      ViewAgrees(r, ii);
      var stop: bool;
      r, stop, outcome := VisitToken(r, ii, iii, id);
      VisitedAdvances(v0, v, View(r), ii, iii, id, stop, outcome);
      PrefixOfPrefix(r, before, ii + 1, iii + 1);
      if stop {
        return;
      }
      iii := iii + 1;
    }
    SearchStops(v0, View(r), ii, iii, id);
    outcome := NotFound;
  }

  lemma PrefixElement<T>(a: seq<T>, b: seq<T>, i: nat)
    requires i < |a| && i < |b| && a[..i + 1] == b[..i + 1]
    ensures a[i] == b[i]
  {
    assert a[..i + 1][i] == b[..i + 1][i];
  }

  /** The outer loop stands at `ii`: finishing the pass from there gives the pass over `v0`. */
  ghost predicate Matching(v0: seq<Tok>, v: seq<Tok>, ii: nat, id: nat) {
    && ii <= |v| && AllSound(v0) && AllSound(v)
    && MatchAll(v0, 0) == PrependAll(v[..ii], MatchAll(v[ii..], id))
  }

  /** One turn of the outer loop on values: from `v` to `w`, the next free id going from `id` to `id2`. */
  ghost predicate Turned(v: seq<Tok>, w: seq<Tok>, ii: nat, id: nat, id2: nat)
    requires ii < |v| && AllSound(v) && AllSound(w)
  {
    && ii < |w| && w[..ii] == v[..ii]
    && MatchAll(v[ii..], id) == Prepend(w[ii], MatchAll(w[ii + 1..], id2))
    && (Triples(w[ii + 1..]) < Triples(v[ii..]) || (Triples(w[ii + 1..]) <= Triples(v[ii..]) && |w| == |v|))
  }

  lemma TurnedAdvances(v0: seq<Tok>, v: seq<Tok>, w: seq<Tok>, ii: nat, id: nat, id2: nat)
    requires Matching(v0, v, ii, id) && ii < |v| && AllSound(w) && Turned(v, w, ii, id, id2)
    ensures Matching(v0, w, ii + 1, id2)
  {
    var m := MatchAll(w[ii + 1..], id2);
    if m.Resolved? {
      assert v[..ii] + ([w[ii]] + m.list) == w[..ii + 1] + m.list;
    }
  }

  lemma TurnWithoutOpen(v: seq<Tok>, ii: nat, id: nat)
    requires ii < |v| && AllSound(v) && !v[ii].UnmatchedOpen()
    ensures Turned(v, v, ii, id, id)
  {
    assert v[ii..][0] == v[ii] && v[ii..][1..] == v[ii + 1..];
  }

  /** The list after the search for the open marker at `ii`, before a split of that marker. */
  ghost predicate Searched(v: seq<Tok>, u: seq<Tok>, ii: nat, id: nat, outcome: Outcome)
    requires ii < |v| && v[ii].Mark? && 1 <= v[ii].size <= 3
  {
    && ii < |u| && u[..ii] == v[..ii]
    && Scan(v[ii], v[ii + 1..], id) == Scanned(u[ii + 1..], outcome)
    && u[ii] == if outcome.Paired? then v[ii].WithId(id) else v[ii]
  }

  lemma SearchedSound(v: seq<Tok>, u: seq<Tok>, ii: nat, id: nat, outcome: Outcome)
    requires ii < |v| && AllSound(v) && v[ii].UnmatchedOpen() && 1 <= v[ii].size <= 3
    requires Searched(v, u, ii, id, outcome)
    ensures AllSound(u)
    ensures outcome.SplitOpen? ==> 1 <= outcome.closeSize <= 2 && u[ii].size == 3
  {
    ScanSound(v[ii], v[ii + 1..], id);
    forall t | t in u ensures t.Sound() {
      var p :| 0 <= p < |u| && u[p] == t;
      if p < ii {
        assert u[..ii][p] == v[..ii][p] && v[p] in v;
      } else if p == ii {
        assert v[ii] in v;
      } else {
        assert u[ii + 1..][p - ii - 1] in u[ii + 1..];
      }
    }
  }

  lemma TurnWithOpen(v: seq<Tok>, u: seq<Tok>, w: seq<Tok>, ii: nat, id: nat, outcome: Outcome)
    requires ii < |v| && AllSound(v) && v[ii].UnmatchedOpen() && 1 <= v[ii].size <= 3
    requires Searched(v, u, ii, id, outcome) && AllSound(w)
    requires match outcome
             case SplitOpen(k) => k <= 3 && w == u[..ii] + [u[ii].Disable()] + Halves(true, u[ii].ch, k) + u[ii + 1..]
             case _ => w == u
    ensures if outcome.Collision? then MatchAll(v[ii..], id) == Diverges
            else Turned(v, w, ii, id, if outcome.Paired? then id + 1 else id)
  {
    var o, tail := v[ii], v[ii + 1..];
    assert v[ii..][0] == o && v[ii..][1..] == tail;
    ScanSound(o, tail, id);
    match outcome
    case SplitOpen(k) =>
      var h := Halves(true, o.ch, k);
      TriplesConcat(h, u[ii + 1..]);
      NoTriplesInHalves(true, o.ch, k);
      assert w[ii + 1..] == h + u[ii + 1..];
      assert w[..ii] == u[..ii];
    case _ =>
  }

  /**
    One turn of the outer loop; `ok` is false where the original would split a
    marker into sizes 0 and 3 and never come back.
   */
  method MatchToken(tgt: seq<Token>, ii: nat, id: nat) returns (r: seq<Token>, ok: bool, nextId: nat)
    requires Consistent(tgt) && AllSound(View(tgt)) && ii < |tgt|
    modifies Objects(tgt)
    ensures Consistent(r) && fresh(Objects(r) - Objects(tgt)) && AllSound(View(r))
    ensures ok ==> Turned(old(View(tgt)), View(r), ii, id, nextId)
    ensures !ok ==> MatchAll(old(View(tgt))[ii..], id) == Diverges
  {
    hide Scan, MatchAll, Turned;
    r, ok, nextId := tgt, true, id;
    ghost var v := View(tgt);
    assert tgt[ii] in tgt && v[ii] in v;
    if tgt[ii].Emphasis? && tgt[ii].marker.IsUnmatchedOpenMarker() {
      var outcome;
      r, outcome := FindClose(tgt, ii, id);
      ghost var u := View(r);
      SearchedSound(v, u, ii, id, outcome);
      match outcome {
        case NotFound =>
        case Paired => nextId := id + 1;
        case SplitOpen(closeSize) =>
          PrefixElement(r, tgt, ii);
          assert r[ii] in r;
          r := SplitMarker(r, ii, closeSize);
          SplitSound(u, View(r), ii, closeSize);
        case Collision => ok := false;
      }
      TurnWithOpen(v, u, View(r), ii, id, outcome);
    } else {
      TurnWithoutOpen(v, ii, id);
    }
  }

  lemma SplitSound(u: seq<Tok>, w: seq<Tok>, ii: nat, k: nat)
    requires AllSound(u) && ii < |u| && u[ii].Mark? && u[ii].id < 0 && 1 <= k <= 2
    requires w == u[..ii] + [u[ii].Disable()] + Halves(u[ii].open, u[ii].ch, k) + u[ii + 1..]
    ensures AllSound(w)
  {
    forall t | t in w ensures t.Sound() {
      assert u[ii] in u;
      assert t in u || t == u[ii].Disable() || t in Halves(u[ii].open, u[ii].ch, k);
    }
  }

  /** The matching pass on the marker objects does what `MatchAll` does on values. */
  method MatchMarkers(tgt: seq<Token>) returns (r: seq<Token>, ok: bool, nextId: nat)
    requires Consistent(tgt) && AllSound(View(tgt))
    modifies Objects(tgt)
    ensures Consistent(r) && fresh(Objects(r) - Objects(tgt))
    ensures ok <==> MatchAll(old(View(tgt)), 0).Resolved?
    ensures ok ==> MatchAll(old(View(tgt)), 0) == Resolved(View(r), nextId)
  {
    ghost var v0 := View(tgt);
    r, nextId := tgt, 0;
    var ii: nat := 0;
    MatchingStarts(v0);
    while ii < |r|
      invariant Consistent(r) && fresh(Objects(r) - Objects(tgt))
      invariant Matching(v0, View(r), ii, nextId)
      decreases Triples(View(r)[ii..]), |r| - ii
    {
      ghost var v, id := View(r), nextId;
      r, ok, nextId := MatchToken(r, ii, nextId);
      if !ok {
        return;
      }
      TurnedAdvances(v0, v, View(r), ii, id, nextId);
      ii := ii + 1;
    }
    ok := true;
    assert View(r)[..ii] + [] == View(r);
  }

  lemma MatchingStarts(v0: seq<Tok>)
    requires AllSound(v0)
    ensures Matching(v0, v0, 0, 0)
  {
    assert v0[0..] == v0;
    var m := MatchAll(v0, 0);
    if m.Resolved? {
      assert v0[..0] + m.list == m.list;
    }
  }

  /**
    The unmatching pass: taking pairs apart at close markers that do not fit the top
    of the stack leaves `DropCrossed`.
   */
  method UnmatchCrossings(tgt: seq<Token>)
    requires Consistent(tgt) && AllPaired(View(tgt))
    modifies Objects(tgt)
    ensures Consistent(tgt) && View(tgt) == DropCrossed(old(View(tgt)))
  {
    hide Consistent, AllPaired, StackInv, DropUpTo;
    ghost var v0 := View(tgt);
    StackStarts(v0);
    var openMatches: seq<Marker> := [];
    ghost var stack: seq<nat> := [];
    var ii: nat := 0;
    while ii < |tgt|
      invariant ii <= |tgt| && Consistent(tgt)
      invariant View(tgt) == DropUpTo(v0, ii) && StackInv(v0, ii, stack)
      invariant Stacked(tgt, stack, openMatches)
    {
      openMatches, stack := UnmatchToken(tgt, ii, openMatches, stack, v0);
      ii := ii + 1;
    }
  }

  /** The stack of the pass holds the markers at the given positions. */
  ghost predicate Stacked(tgt: seq<Token>, stack: seq<nat>, openMatches: seq<Marker>) {
    && |openMatches| == |stack|
    && forall i :: 0 <= i < |stack| ==> stack[i] < |tgt| && tgt[stack[i]] == Emphasis(openMatches[i])
  }

  /** One turn of the unmatching loop. */
  method UnmatchToken(tgt: seq<Token>, ii: nat, openMatches: seq<Marker>, ghost stack: seq<nat>, ghost v0: seq<Tok>)
    returns (matches: seq<Marker>, ghost left: seq<nat>)
    requires Consistent(tgt) && AllPaired(v0) && ii < |tgt| == |v0|
    requires View(tgt) == DropUpTo(v0, ii) && StackInv(v0, ii, stack) && Stacked(tgt, stack, openMatches)
    modifies Objects(tgt)
    ensures Consistent(tgt) && View(tgt) == DropUpTo(v0, ii + 1)
    ensures StackInv(v0, ii + 1, left) && Stacked(tgt, left, matches)
  {
    hide AllPaired, StackBody, OpenPast, Crossed, IdsUnique, DropUpTo;
    matches, left := openMatches, stack;
    assert tgt[ii] in tgt;
    CurrentUntouched(v0, ii);
    if tgt[ii].Emphasis? && tgt[ii].marker.IsMatchedOpenMarker() {
      StackPush(v0, ii, stack);
      DropNext(v0, ii, View(tgt));
      matches, left := matches + [tgt[ii].marker], left + [ii];
    } else if tgt[ii].Emphasis? && tgt[ii].marker.IsMatchedCloseMarker() {
      var close := tgt[ii].marker;
      StackTop(v0, ii, stack);
      TopIsUntouched(v0, ii, stack);
      if close.id != matches[|matches| - 1].id {
        DropUpToPaired(v0, ii);
        UnpairMarkers(tgt, ii);
        StackMiss(v0, ii, stack);
        DropNext(v0, ii, View(tgt));
      } else {
        StackHit(v0, ii, stack);
        DropNext(v0, ii, View(tgt));
        matches, left := PopDead(tgt, ii, matches[..|matches| - 1], left[..|left| - 1], v0);
      }
    } else {
      StackSkip(v0, ii, stack);
      DropNext(v0, ii, View(tgt));
    }
  }

  /** Pops the open markers whose pair has been taken apart. */
  method PopDead(tgt: seq<Token>, ii: nat, openMatches: seq<Marker>, ghost stack: seq<nat>, ghost v0: seq<Tok>)
    returns (matches: seq<Marker>, ghost left: seq<nat>)
    requires Consistent(tgt) && ii < |tgt| == |v0|
    requires View(tgt) == DropUpTo(v0, ii + 1) && StackBody(v0, ii + 1, stack) && Stacked(tgt, stack, openMatches)
    ensures StackInv(v0, ii + 1, left) && Stacked(tgt, left, matches)
  {
    hide StackBody, OpenPast;
    matches, left := openMatches, stack;
    while matches != [] && matches[|matches| - 1].matchedTo == null
      invariant StackBody(v0, ii + 1, left) && Stacked(tgt, left, matches)
      decreases |matches|
    {
      assert tgt[left[|left| - 1]] in tgt;
      DeadIffUnmatched(v0, ii + 1, left, |left| - 1);
      StackDrop(v0, ii + 1, left);
      matches, left := matches[..|matches| - 1], left[..|left| - 1];
    }
    if left != [] {
      assert tgt[left[|left| - 1]] in tgt;
      DeadIffUnmatched(v0, ii + 1, left, |left| - 1);
    }
  }

  /** The resolved list: pairs made by the matching pass, less the crossed ones. */
  ghost function Resolve(s: seq<Tok>): seq<Tok>
    requires AllFresh(s) && MatchAll(s, 0).Resolved?
  {
    DropCrossed(MatchAll(s, 0).list)
  }

  lemma FreshIsPending(s: seq<Tok>)
    requires AllFresh(s)
    ensures Pending(s, 0)
  {
    assert forall p :: 0 <= p < |s| ==> s[p] in s;
  }

  /**
    What resolving a freshly tokenized list guarantees: the markers still
    matched are pairs of one kind that are nested or disjoint, the tags written
    for the whole list are balanced, and the text it stands for is the same.
   */
  lemma ResolveGuarantees(s: seq<Tok>)
    requires AllFresh(s) && MatchAll(s, 0).Resolved?
    ensures var r := Resolve(s);
            && AllPaired(r) && Nested(r) && AllSound(r)
            && Balanced(Render(r), [])
            && Literal(r) == Literal(s)
    ensures var m := MatchAll(s, 0);
            WellPaired(m.list, 0, m.nextId) && NoneMissed(m.list) && InOrder(m.list, 0, m.nextId)
  {
    hide WellPaired, AllPaired, Nested, NoneMissed, InOrder, DropUpTo, Balanced, Pending, MatchAll;
    var m := MatchAll(s, 0);
    FreshIsPending(s);
    MatchAllPairs(s, 0);
    MatchAllMissesNone(s, 0);
    MatchAllInOrder(s, 0);
    MatchAllConserves(s, 0);
    MatchedListIsPaired(m.list, m.nextId);
    DropUpToPaired(m.list, |m.list|);
    DropCrossedNested(m.list);
    DropConserves(m.list, |m.list|);
    ResolvedRendersBalanced(m.list);
  }

  /** Both passes over the tokenized list; `ok` is false exactly when the matching pass of the original never ends. */
  method ProcessBoldAndItalicSpans(tgt: seq<Token>) returns (r: seq<Token>, ok: bool)
    requires Consistent(tgt) && AllFresh(View(tgt))
    modifies Objects(tgt)
    ensures Consistent(r) && fresh(Objects(r) - Objects(tgt))
    ensures ok <==> MatchAll(old(View(tgt)), 0).Resolved?
    ensures ok ==> View(r) == Resolve(old(View(tgt)))
  {
    hide WellPaired, AllPaired, DropUpTo, Pending, MatchAll, Consistent;
    ghost var v := View(tgt);
    var nextId;
    r, ok, nextId := MatchMarkers(tgt);
    if ok {
      FreshIsPending(v);
      MatchAllPairs(v, 0);
      MatchedListIsPaired(View(r), nextId);
      UnmatchCrossings(r);
    }
  }

  /** Writing the tokens in turn gives the pieces of the list. */
  method WriteAsHtml(ts: seq<Token>) returns (out: string)
    requires Consistent(ts) && AllSound(View(ts))
    ensures out == ShowAll(Render(View(ts)))
  {
    hide Render, ShowAll, Pieces;
    out := "";
    ghost var v := View(ts);
    ShowNothing(v);
    for i := 0 to |ts|
      invariant out == ShowAll(Render(v[..i]))
    {
      assert ts[i] in ts && v[i] in v;
      ShowNext(v, i);
      match ts[i] {
        case RawText(text) =>
          ShowText(text);
          out := out + text;
        case Emphasis(m) =>
          var s := m.WriteAsHtml();
          out := out + s;
      }
    }
    assert v[..|ts|] == v;
  }

  lemma ShowNothing(v: seq<Tok>)
    ensures ShowAll(Render(v[..0])) == ""
  {
  }

  lemma ShowText(text: string)
    ensures ShowAll(Pieces(Text(text))) == text
  {
    assert Pieces(Text(text))[1..] == [];
  }

  lemma ShowNext(v: seq<Tok>, i: nat)
    requires i < |v|
    ensures ShowAll(Render(v[..i + 1])) == ShowAll(Render(v[..i])) + ShowAll(Pieces(v[i]))
  {
    assert v[..i + 1] == v[..i] + [v[i]];
    RenderSnoc(v[..i], v[i]);
    ShowAllConcat(Render(v[..i]), Pieces(v[i]));
  }
}
