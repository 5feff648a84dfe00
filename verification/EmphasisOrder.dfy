/**
  Which close marker an open marker gets: the first one that fits. Pairs of one
  kind therefore close in the order in which they open.
 */
module EmphasisOrder {
  import opened EmphasisTokens
  import opened EmphasisMatching
  import opened EmphasisPairs
  import opened EmphasisNesting

  /**
    The close marker of pair `x` is the first of the kind of `o` that was free
    for it: those before it belong to earlier pairs, and nothing before it is
    left to be split.
   */
  predicate Leads(s: seq<Tok>, o: Tok, x: int)
    requires o.Mark?
  {
    s != [] &&
    (var c := s[0];
     (c.MatchedClose() && c.id == x) ||
     (&& (c.UnmatchedClose() ==> !SameKind(c, o) && c.size != 3)
      && (c.MatchedClose() && SameKind(c, o) ==> c.id < x)
      && Leads(s[1..], o, x)))
  }

  lemma {:induction false} ScanLeads(o: Tok, rest: seq<Tok>, id: nat)
    requires o.UnmatchedOpen() && 1 <= o.size <= 3 && Scan(o, rest, id).outcome.Paired?
    requires forall t <- rest :: t.MatchedClose() ==> t.id < id
    ensures Leads(Scan(o, rest, id).rest, o, id)
    decreases Triples(rest), |rest|
  {
    var c, tail := rest[0], rest[1..];
    assert c in rest;
    if c.UnmatchedClose() && c.size == 3 && o.size != 3 {
      var h := Halves(false, c.ch, o.size);
      TriplesConcat(h, tail);
      NoTriplesInHalves(false, c.ch, o.size);
      ScanLeads(o, h + tail, id);
    } else if !c.UnmatchedClose() || !SameKind(c, o) {
      ScanLeads(o, tail, id);
    }
  }

  lemma {:induction false} ScanKeepsLeads(o: Tok, x: int, o2: Tok, rest: seq<Tok>, id: nat)
    requires o.Mark? && o2.Mark? && 1 <= o2.size <= 3 && x >= 0 && Leads(rest, o, x)
    ensures Leads(Scan(o2, rest, id).rest, o, x)
    decreases |rest|
  {
    var c := rest[0];
    if !(c.MatchedClose() && c.id == x) {
      ScanKeepsLeads(o, x, o2, rest[1..], id);
    } else {
      assert Scan(o2, rest, id).rest[0] == c;
    }
  }

  lemma {:induction false} MatchAllKeepsLeads(o: Tok, x: int, rest: seq<Tok>, id: nat)
    requires AllSound(rest) && o.Mark? && x >= 0 && Leads(rest, o, x)
    ensures var r := MatchAll(rest, id); r.Resolved? ==> Leads(r.list, o, x)
    decreases Triples(rest), |rest|
  {
    var o2, tail := rest[0], rest[1..];
    assert o2 in rest;
    if !o2.UnmatchedOpen() {
      if !(o2.MatchedClose() && o2.id == x) {
        MatchAllKeepsLeads(o, x, tail, id);
      }
    } else {
      var r := Scan(o2, tail, id);
      ScanSound(o2, tail, id);
      ScanKeepsLeads(o, x, o2, tail, id);
      match r.outcome
      case NotFound => MatchAllKeepsLeads(o, x, r.rest, id);
      case Paired => MatchAllKeepsLeads(o, x, r.rest, id + 1);
      case SplitOpen(k) =>
        var h := Halves(true, o2.ch, k);
        TriplesConcat(h, r.rest);
        NoTriplesInHalves(true, o2.ch, k);
        OpensKeepLeads(o, x, h, r.rest);
        MatchAllKeepsLeads(o, x, h + r.rest, id);
      case Collision =>
    }
  }

  lemma OpensKeepLeads(o: Tok, x: int, h: seq<Tok>, s: seq<Tok>)
    requires o.Mark? && Leads(s, o, x) && |h| == 2 && forall t <- h :: t.UnmatchedOpen()
    ensures Leads(h + s, o, x)
  {
    assert h[0] in h && h[1] in h;
    assert (h + s)[1..] == [h[1]] + s && ([h[1]] + s)[1..] == s;
    assert Leads([h[1]] + s, o, x);
  }

  /** Pair `x` opens before pair `y`, and if they are of one kind it closes before it too. */
  predicate OrderedPair(s: seq<Tok>, x: int, y: int) {
    && OpenAt(s, x) < OpenAt(s, y) < |s|
    && CloseAt(s, x) < |s| && CloseAt(s, y) < |s|
    && (SameKind(s[CloseAt(s, x)], s[CloseAt(s, y)]) ==> CloseAt(s, x) < CloseAt(s, y))
  }

  /** Pairs of one kind close in the order of their ids, which is the order in which they open. */
  ghost predicate InOrder(s: seq<Tok>, lo: nat, hi: nat) {
    forall x, y :: lo <= x < y < hi ==> OrderedPair(s, x, y)
  }

  lemma {:induction false} LeadsIsFirst(s: seq<Tok>, o: Tok, x: int, y: int)
    requires o.Mark? && Leads(s, o, x) && x < y
    ensures CloseAt(s, x) < |s|
    ensures CloseAt(s, y) < |s| && SameKind(s[CloseAt(s, y)], o) ==> CloseAt(s, x) < CloseAt(s, y)
  {
    if !(s[0].MatchedClose() && s[0].id == x) {
      LeadsIsFirst(s[1..], o, x, y);
    }
  }

  /** Putting a token in front moves all positions by one. */
  lemma AtCons(t: Tok, r: seq<Tok>, x: int)
    ensures !(t.MatchedOpen() && t.id == x) ==> OpenAt([t] + r, x) == 1 + OpenAt(r, x)
    ensures !(t.MatchedClose() && t.id == x) ==> CloseAt([t] + r, x) == 1 + CloseAt(r, x)
  {
    assert ([t] + r)[1..] == r;
  }

  lemma OrderedPairCons(t: Tok, r: seq<Tok>, x: int, y: int)
    requires OrderedPair(r, x, y) && (t.Matched() ==> t.id != x && t.id != y)
    ensures OrderedPair([t] + r, x, y)
  {
    AtCons(t, r, x);
    AtCons(t, r, y);
  }

  lemma InOrderCons(t: Tok, r: seq<Tok>, lo: nat, hi: nat)
    requires InOrder(r, lo, hi)
    requires t.Matched() ==> t.id < lo
    ensures InOrder([t] + r, lo, hi)
  {
    forall x, y | lo <= x < y < hi ensures OrderedPair([t] + r, x, y) {
      OrderedPairCons(t, r, x, y);
    }
  }

  lemma NewPairIsFirst(o: Tok, r: seq<Tok>, id: nat, y: int)
    requires o.UnmatchedOpen() && Leads(r, o, id) && id < y && HasOpen(r, y) && HasClose(r, y)
    requires forall t <- r :: t.MatchedClose() && t.id == id ==> SameKind(t, o)
    ensures OrderedPair([o.WithId(id)] + r, id, y)
  {
    AtCons(o.WithId(id), r, id);
    AtCons(o.WithId(id), r, y);
    LeadsIsFirst(r, o, id, y);
    assert r[CloseAt(r, id)] in r;
  }

  lemma InOrderOpen(o: Tok, r: seq<Tok>, id: nat, hi: nat)
    requires o.UnmatchedOpen() && InOrder(r, id + 1, hi) && WellPaired(r, id + 1, hi) && Leads(r, o, id)
    requires forall t <- r :: t.MatchedClose() && t.id == id ==> SameKind(t, o)
    ensures InOrder([o.WithId(id)] + r, id, hi)
  {
    hide Leads, IdsUnique;
    var t := o.WithId(id);
    forall x, y | id <= x < y < hi ensures OrderedPair([t] + r, x, y) {
      if x == id {
        assert HasOpen(r, y) && HasClose(r, y);
        NewPairIsFirst(o, r, id, y);
      } else {
        OrderedPairCons(t, r, x, y);
      }
    }
  }

  /** The matching pass pairs first come, first served. */
  lemma {:induction false} MatchAllInOrder(rest: seq<Tok>, id: nat)
    requires AllSound(rest) && Pending(rest, id)
    ensures var r := MatchAll(rest, id); r.Resolved? ==> InOrder(r.list, id, r.nextId)
    decreases Triples(rest), |rest|, 1
  {
    hide InOrder, WellPaired, Pending, SameOldCloses, Leads;
    if rest == [] {
      NothingInOrder(id);
    } else {
      var o, tail := rest[0], rest[1..];
      assert o in rest;
      PendingTail(rest, id);
      PendingIds(rest, id);
      if !o.UnmatchedOpen() {
        MatchAllInOrder(tail, id);
        var m := MatchAll(tail, id);
        if m.Resolved? {
          InOrderCons(o, m.list, id, m.nextId);
        }
      } else {
        MatchAllInOrderOpen(rest, id);
      }
    }
  }

  lemma NothingInOrder(id: nat)
    ensures InOrder([], id, id)
  {
  }

  lemma {:induction false} MatchAllInOrderOpen(rest: seq<Tok>, id: nat)
    requires AllSound(rest) && Pending(rest, id) && rest != [] && rest[0].UnmatchedOpen()
    ensures var r := MatchAll(rest, id); r.Resolved? ==> InOrder(r.list, id, r.nextId)
    decreases Triples(rest), |rest|, 0
  {
    hide InOrder, WellPaired, Pending, SameOldCloses, Leads, Scan, Triples;
    TriplesHead(rest);
    var o, tail := rest[0], rest[1..];
    assert o in rest;
    PendingTail(rest, id);
    var r := Scan(o, tail, id);
    ScanSound(o, tail, id);
    ScanPairs(o, tail, id);
    match r.outcome
    case NotFound =>
      MatchAllInOrder(r.rest, id);
      var m := MatchAll(r.rest, id);
      if m.Resolved? {
        InOrderCons(o, m.list, id, m.nextId);
      }
    case Paired =>
      MatchAllInOrder(r.rest, id + 1);
      PairedInOrder(o, tail, id);
    case SplitOpen(k) =>
      var h := Halves(true, o.ch, k);
      TriplesConcat(h, r.rest);
      NoTriplesInHalves(true, o.ch, k);
      PendingConcat(h, r.rest, id);
      MatchAllInOrder(h + r.rest, id);
      var m := MatchAll(h + r.rest, id);
      if m.Resolved? {
        InOrderCons(o.Disable(), m.list, id, m.nextId);
      }
    case Collision =>
  }

  lemma PairedInOrder(o: Tok, tail: seq<Tok>, id: nat)
    requires AllSound(tail) && Pending(tail, id) && o.UnmatchedOpen() && 1 <= o.size <= 3
    requires var r := Scan(o, tail, id);
             && r.outcome.Paired? && AllSound(r.rest)
             && var m := MatchAll(r.rest, id + 1); m.Resolved? ==> InOrder(m.list, id + 1, m.nextId)
    ensures var m := MatchAll(Scan(o, tail, id).rest, id + 1);
            m.Resolved? ==> InOrder([o.WithId(id)] + m.list, id, m.nextId)
  {
    hide InOrder, WellPaired, Pending, SameOldCloses, Leads, Scan, MatchAll, AllSound;
    var r := Scan(o, tail, id);
    PendingIds(tail, id);
    ScanLeads(o, tail, id);
    ScanPairs(o, tail, id);
    MatchAllKeepsLeads(o, id, r.rest, id + 1);
    MatchAllPairs(r.rest, id + 1);
    var m := MatchAll(r.rest, id + 1);
    if m.Resolved? {
      PairedCloseFits(o, r.rest, m.list, id, m.nextId);
      InOrderOpen(o, m.list, id, m.nextId);
    }
  }

  lemma PendingIds(s: seq<Tok>, id: nat)
    requires Pending(s, id)
    ensures forall t <- s :: t.MatchedClose() ==> t.id < id
    ensures s != [] ==> !s[0].MatchedOpen() && (s[0].MatchedClose() ==> s[0].id < id)
  {
    if s != [] {
      assert s[0] in s;
    }
  }

  /** The only close marker with the new id is the one the search found. */
  lemma PairedCloseFits(o: Tok, rest: seq<Tok>, list: seq<Tok>, id: nat, hi: nat)
    requires o.Mark? && Pending(rest, id + 1) && SameOldCloses(rest, list, id + 1)
    requires exists t :: t in rest && t.MatchedClose() && t.id == id && SameKind(t, o)
    ensures forall t <- list :: t.MatchedClose() && t.id == id ==> SameKind(t, o)
  {
    var c :| c in rest && c.MatchedClose() && c.id == id && SameKind(c, o);
    forall t | t in list && t.MatchedClose() && t.id == id ensures SameKind(t, o) {
      assert t in rest;
      var p :| 0 <= p < |rest| && rest[p] == t;
      var q :| 0 <= q < |rest| && rest[q] == c;
    }
  }
}
