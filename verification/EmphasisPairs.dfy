/**
  What the matching pass guarantees about the pairs it makes: ids are shared by
  exactly one open marker and one later close marker of the same kind, and no
  possible pair is missed.
 */
module EmphasisPairs {
  import opened EmphasisTokens
  import opened EmphasisMatching

  /** Two markers with one id are an open marker and a later close marker of the same character and size. */
  ghost predicate IdsUnique(s: seq<Tok>) {
    forall p, q :: 0 <= p < q < |s| && s[p].Matched() && s[q].Matched() && s[p].id == s[q].id ==>
      s[p].open && !s[q].open && SameKind(s[p], s[q])
  }

  ghost predicate HasOpen(s: seq<Tok>, x: int) { exists t :: t in s && t.MatchedOpen() && t.id == x }

  ghost predicate HasClose(s: seq<Tok>, x: int) { exists t :: t in s && t.MatchedClose() && t.id == x }

  /**
    The ids in `lo..hi` each name one pair of `s`; smaller ids are left to closes
    whose open marker lies before `s`.
   */
  ghost predicate WellPaired(s: seq<Tok>, lo: nat, hi: nat) {
    && IdsUnique(s)
    && (forall t <- s :: (t.MatchedOpen() ==> lo <= t.id < hi) && (t.MatchedClose() ==> t.id < hi))
    && (forall x :: lo <= x < hi ==> HasOpen(s, x) && HasClose(s, x))
  }

  /** The tokens not visited yet: all they can hold of earlier pairs is the close markers. */
  ghost predicate Pending(s: seq<Tok>, id: nat) {
    && IdsUnique(s)
    && forall t <- s :: !t.MatchedOpen() && (t.MatchedClose() ==> t.id < id)
  }

  ghost predicate SameOldCloses(a: seq<Tok>, b: seq<Tok>, id: nat) {
    forall t: Tok :: t.MatchedClose() && t.id < id ==> (t in a <==> t in b)
  }

  lemma PendingTail(s: seq<Tok>, id: nat)
    requires s != [] && Pending(s, id)
    ensures Pending(s[1..], id)
    ensures s[0].MatchedClose() ==> forall t <- s[1..] :: t.MatchedClose() ==> t.id != s[0].id
  {
    var tail := s[1..];
    forall p, q | 0 <= p < q < |tail| && tail[p].Matched() && tail[q].Matched() && tail[p].id == tail[q].id
      ensures tail[p].open && !tail[q].open && SameKind(tail[p], tail[q])
    {
      assert tail[p] == s[p + 1] && tail[q] == s[q + 1];
    }
    if s[0].MatchedClose() {
      forall t | t in tail && t.MatchedClose() ensures t.id != s[0].id {
        var q :| 0 <= q < |tail| && tail[q] == t;
        assert s[q + 1] == t;
      }
    }
  }

  lemma IdsUniqueCons(c: Tok, r: seq<Tok>)
    requires IdsUnique(r)
    requires c.Matched() ==> forall t <- r :: t.Matched() && t.id == c.id ==> c.open && !t.open && SameKind(c, t)
    ensures IdsUnique([c] + r)
  {
    var s := [c] + r;
    forall p, q | 0 <= p < q < |s| && s[p].Matched() && s[q].Matched() && s[p].id == s[q].id
      ensures s[p].open && !s[q].open && SameKind(s[p], s[q])
    {
      assert s[q] == r[q - 1] && r[q - 1] in r;
      if p > 0 {
        assert s[p] == r[p - 1];
      }
    }
  }

  lemma PendingCons(c: Tok, r: seq<Tok>, id: nat)
    requires Pending(r, id) && !c.MatchedOpen()
    requires c.MatchedClose() ==> c.id < id && forall t <- r :: t.MatchedClose() ==> t.id != c.id
    ensures Pending([c] + r, id)
  {
    IdsUniqueCons(c, r);
  }

  lemma PendingConcat(a: seq<Tok>, r: seq<Tok>, id: nat)
    requires Pending(r, id)
    requires forall t <- a :: !t.Matched()
    ensures Pending(a + r, id)
    ensures SameOldCloses(r, a + r, id)
  {
    var s := a + r;
    forall p | 0 <= p < |a| ensures !s[p].Matched() {
      assert s[p] in a;
    }
    forall p, q | 0 <= p < q < |s| && s[p].Matched() && s[q].Matched() && s[p].id == s[q].id
      ensures s[p].open && !s[q].open && SameKind(s[p], s[q])
    {
      assert s[p] == r[p - |a|] && s[q] == r[q - |a|];
    }
  }

  lemma {:induction false} ScanPairs(o: Tok, rest: seq<Tok>, id: nat)
    requires o.Mark? && 1 <= o.size <= 3 && Pending(rest, id)
    ensures var r := Scan(o, rest, id);
            && SameOldCloses(rest, r.rest, id)
            && (!r.outcome.Paired? ==> Pending(r.rest, id))
            && (r.outcome.Paired? ==>
                  && Pending(r.rest, id + 1)
                  && exists t :: t in r.rest && t.MatchedClose() && t.id == id && SameKind(t, o))
    decreases Triples(rest), |rest|
  {
    hide IdsUnique, Triples;
    TriplesHead(rest);
    if rest != [] {
      var c, tail := rest[0], rest[1..];
      assert c in rest && rest == [c] + tail;
      PendingTail(rest, id);
      if c.UnmatchedClose() && c.size == 3 && o.size != 3 {
        var h := Halves(false, c.ch, o.size);
        TriplesConcat(h, tail);
        NoTriplesInHalves(false, c.ch, o.size);
        PendingConcat(h, tail, id);
        ScanPairs(o, h + tail, id);
        var r := Scan(o, h + tail, id);
        PendingCons(c.Disable(), r.rest, if r.outcome.Paired? then id + 1 else id);
      } else if c.UnmatchedClose() && SameKind(c, o) {
        PendingCons(c.WithId(id), tail, id + 1);
        assert c.WithId(id) in [c.WithId(id)] + tail;
      } else if !c.UnmatchedClose() || o.size != 3 {
        ScanPairs(o, tail, id);
        var r := Scan(o, tail, id);
        PendingCons(c, r.rest, if r.outcome.Paired? then id + 1 else id);
      }
    }
  }

  lemma WellPairedCons(c: Tok, r: seq<Tok>, lo: nat, hi: nat)
    requires WellPaired(r, lo, hi) && lo <= hi && !c.MatchedOpen()
    requires c.MatchedClose() ==> c.id < lo && forall t <- r :: t.MatchedClose() ==> t.id != c.id
    ensures WellPaired([c] + r, lo, hi)
  {
    var s := [c] + r;
    IdsUniqueCons(c, r);
    forall x | lo <= x < hi ensures HasOpen(s, x) && HasClose(s, x) {
      assert HasOpen(r, x) && HasClose(r, x);
      var a :| a in r && a.MatchedOpen() && a.id == x;
      var b :| b in r && b.MatchedClose() && b.id == x;
      assert a in s && b in s;
    }
  }

  /** Putting the open marker of pair `id` in front of the rest completes that pair. */
  lemma WellPairedOpen(o: Tok, c: Tok, r: seq<Tok>, id: nat, hi: nat)
    requires WellPaired(r, id + 1, hi) && id < hi && o.UnmatchedOpen()
    requires c in r && c.MatchedClose() && c.id == id && SameKind(c, o)
    ensures WellPaired([o.WithId(id)] + r, id, hi)
  {
    var o' := o.WithId(id);
    var s := [o'] + r;
    forall t | t in r && t.Matched() && t.id == id ensures !t.open && SameKind(o', t) {
      var p :| 0 <= p < |r| && r[p] == t;
      var q :| 0 <= q < |r| && r[q] == c;
    }
    IdsUniqueCons(o', r);
    assert o' in s && c in s;
    forall x | id < x < hi ensures HasOpen(s, x) && HasClose(s, x) {
      assert HasOpen(r, x) && HasClose(r, x);
      var a :| a in r && a.MatchedOpen() && a.id == x;
      var b :| b in r && b.MatchedClose() && b.id == x;
      assert a in s && b in s;
    }
  }

  /**
    The pairs made by the matching pass are exactly the ids handed out, each an open
    marker and a later close of its kind.
   */
  lemma {:induction false} MatchAllPairs(rest: seq<Tok>, id: nat)
    requires AllSound(rest) && Pending(rest, id)
    ensures var r := MatchAll(rest, id);
            r.Resolved? ==> id <= r.nextId && WellPaired(r.list, id, r.nextId) && SameOldCloses(rest, r.list, id)
    decreases Triples(rest), |rest|
  {
    if rest != [] {
      var o, tail := rest[0], rest[1..];
      assert o in rest && rest == [o] + tail;
      PendingTail(rest, id);
      if !o.UnmatchedOpen() {
        MatchAllPairs(tail, id);
        var r := MatchAll(tail, id);
        if r.Resolved? {
          WellPairedCons(o, r.list, id, r.nextId);
        }
      } else {
        ScanPairs(o, tail, id);
        MatchAllPairsOpen(o, tail, id);
      }
    }
  }

  lemma OldClosesCons(o: Tok, o2: Tok, a: seq<Tok>, b: seq<Tok>, id: nat)
    requires SameOldCloses(a, b, id) && !o.MatchedClose() && !o2.MatchedClose()
    ensures SameOldCloses([o] + a, [o2] + b, id)
  {
  }

  lemma OldClosesHave(a: seq<Tok>, b: seq<Tok>, id: nat, c: Tok)
    requires SameOldCloses(a, b, id) && c in a && c.MatchedClose() && c.id < id
    ensures c in b
  {
  }

  lemma OldClosesTrans(a: seq<Tok>, b: seq<Tok>, c: seq<Tok>, id: nat, id2: nat)
    requires SameOldCloses(a, b, id) && SameOldCloses(b, c, id2) && id <= id2
    ensures SameOldCloses(a, c, id)
  {
  }

  lemma {:induction false} MatchAllPairsOpen(o: Tok, tail: seq<Tok>, id: nat)
    requires AllSound([o] + tail) && Pending([o] + tail, id) && o.UnmatchedOpen() && o.Sound()
    requires var r := Scan(o, tail, id);
            && SameOldCloses(tail, r.rest, id)
            && (!r.outcome.Paired? ==> Pending(r.rest, id))
            && (r.outcome.Paired? ==>
                  && Pending(r.rest, id + 1)
                  && exists t :: t in r.rest && t.MatchedClose() && t.id == id && SameKind(t, o))
    ensures var r := MatchAll([o] + tail, id);
            r.Resolved? ==> id <= r.nextId && WellPaired(r.list, id, r.nextId) && SameOldCloses([o] + tail, r.list, id)
    decreases Triples([o] + tail), |[o] + tail|, 0
  {
    hide WellPaired, Pending, IdsUnique, SameOldCloses;
    var r := Scan(o, tail, id);
    assert ([o] + tail)[1..] == tail;
    assert AllSound(tail);
    ScanSound(o, tail, id);
    match r.outcome
    case NotFound =>
      MatchAllPairs(r.rest, id);
      var m := MatchAll(r.rest, id);
      if m.Resolved? {
        WellPairedCons(o, m.list, id, m.nextId);
        OldClosesTrans(tail, r.rest, m.list, id, id);
        OldClosesCons(o, o, tail, m.list, id);
      }
    case Paired =>
      MatchAllPairs(r.rest, id + 1);
      var m := MatchAll(r.rest, id + 1);
      if m.Resolved? {
        var c :| c in r.rest && c.MatchedClose() && c.id == id && SameKind(c, o);
        OldClosesHave(r.rest, m.list, id + 1, c);
        WellPairedOpen(o, c, m.list, id, m.nextId);
        OldClosesTrans(tail, r.rest, m.list, id, id + 1);
        OldClosesCons(o, o.WithId(id), tail, m.list, id);
      }
    case SplitOpen(k) =>
      var h := Halves(true, o.ch, k);
      TriplesConcat(h, r.rest);
      NoTriplesInHalves(true, o.ch, k);
      PendingConcat(h, r.rest, id);
      MatchAllPairs(h + r.rest, id);
      var m := MatchAll(h + r.rest, id);
      if m.Resolved? {
        WellPairedCons(o.Disable(), m.list, id, m.nextId);
        OldClosesTrans(tail, r.rest, h + r.rest, id, id);
        OldClosesTrans(tail, h + r.rest, m.list, id, id);
        OldClosesCons(o, o.Disable(), tail, m.list, id);
      }
    case Collision =>
  }

  /** `o` could still be paired with `c`. */
  predicate Pairable(o: Tok, c: Tok) {
    o.UnmatchedOpen() && c.UnmatchedClose() && SameKind(o, c)
  }

  /** No open marker that stayed unmatched has a fitting unmatched close marker after it. */
  ghost predicate NoneMissed(s: seq<Tok>) {
    forall p, q :: 0 <= p < q < |s| ==> !Pairable(s[p], s[q])
  }

  /** Nothing in `s` could be paired with `o` or be split by it. */
  ghost predicate Exhausted(o: Tok, s: seq<Tok>)
    requires o.Mark?
  {
    forall c <- s :: c.UnmatchedClose() ==> !SameKind(o, c) && c.size != 3
  }

  lemma {:induction false} ScanExhausts(o: Tok, rest: seq<Tok>, id: nat)
    requires o.UnmatchedOpen() && 1 <= o.size <= 3
    requires Scan(o, rest, id).outcome.NotFound?
    ensures Exhausted(o, Scan(o, rest, id).rest)
    decreases Triples(rest), |rest|
  {
    if rest != [] {
      var c, tail := rest[0], rest[1..];
      if c.UnmatchedClose() && c.size == 3 && o.size != 3 {
        var h := Halves(false, c.ch, o.size);
        TriplesConcat(h, tail);
        NoTriplesInHalves(false, c.ch, o.size);
        ScanExhausts(o, h + tail, id);
      } else {
        ScanExhausts(o, tail, id);
      }
    }
  }

  /** A later search leaves an exhausted list exhausted: it can only take close markers away. */
  lemma {:induction false} ScanKeepsExhausted(o: Tok, o2: Tok, rest: seq<Tok>, id: nat)
    requires o.UnmatchedOpen() && o2.Mark? && 1 <= o2.size <= 3
    requires Exhausted(o, rest)
    ensures Exhausted(o, Scan(o2, rest, id).rest)
    decreases |rest|
  {
    if rest != [] {
      assert rest[0] in rest;
      ScanKeepsExhausted(o, o2, rest[1..], id);
    }
  }

  lemma {:induction false} MatchAllKeepsExhausted(o: Tok, rest: seq<Tok>, id: nat)
    requires AllSound(rest) && o.UnmatchedOpen() && Exhausted(o, rest)
    ensures var r := MatchAll(rest, id); r.Resolved? ==> Exhausted(o, r.list)
    decreases Triples(rest), |rest|
  {
    if rest != [] {
      var o2, tail := rest[0], rest[1..];
      assert o2 in rest;
      if !o2.UnmatchedOpen() {
        MatchAllKeepsExhausted(o, tail, id);
      } else {
        var r := Scan(o2, tail, id);
        ScanSound(o2, tail, id);
        ScanKeepsExhausted(o, o2, tail, id);
        match r.outcome
        case NotFound => MatchAllKeepsExhausted(o, r.rest, id);
        case Paired => MatchAllKeepsExhausted(o, r.rest, id + 1);
        case SplitOpen(k) =>
          var h := Halves(true, o2.ch, k);
          TriplesConcat(h, r.rest);
          NoTriplesInHalves(true, o2.ch, k);
          MatchAllKeepsExhausted(o, h + r.rest, id);
        case Collision =>
      }
    }
  }

  lemma NoneMissedCons(o: Tok, r: seq<Tok>)
    requires NoneMissed(r)
    requires o.UnmatchedOpen() ==> Exhausted(o, r)
    ensures NoneMissed([o] + r)
  {
    var s := [o] + r;
    forall p, q | 0 <= p < q < |s| ensures !Pairable(s[p], s[q]) {
      assert s[q] == r[q - 1] && r[q - 1] in r;
      if p > 0 {
        assert s[p] == r[p - 1];
      }
    }
  }

  /** The matching is maximal. */
  lemma {:induction false} MatchAllMissesNone(rest: seq<Tok>, id: nat)
    requires AllSound(rest)
    ensures var r := MatchAll(rest, id); r.Resolved? ==> NoneMissed(r.list)
    decreases Triples(rest), |rest|
  {
    if rest != [] {
      var o, tail := rest[0], rest[1..];
      assert o in rest;
      if !o.UnmatchedOpen() {
        MatchAllMissesNone(tail, id);
        var m := MatchAll(tail, id);
        if m.Resolved? {
          NoneMissedCons(o, m.list);
        }
      } else {
        var r := Scan(o, tail, id);
        ScanSound(o, tail, id);
        match r.outcome
        case NotFound =>
          ScanExhausts(o, tail, id);
          MatchAllKeepsExhausted(o, r.rest, id);
          MatchAllMissesNone(r.rest, id);
          var m := MatchAll(r.rest, id);
          if m.Resolved? {
            NoneMissedCons(o, m.list);
          }
        case Paired =>
          MatchAllMissesNone(r.rest, id + 1);
          var m := MatchAll(r.rest, id + 1);
          if m.Resolved? {
            NoneMissedCons(o.WithId(id), m.list);
          }
        case SplitOpen(k) =>
          var h := Halves(true, o.ch, k);
          TriplesConcat(h, r.rest);
          NoTriplesInHalves(true, o.ch, k);
          MatchAllMissesNone(h + r.rest, id);
          var m := MatchAll(h + r.rest, id);
          if m.Resolved? {
            NoneMissedCons(o.Disable(), m.list);
          }
        case Collision =>
      }
    }
  }
}
