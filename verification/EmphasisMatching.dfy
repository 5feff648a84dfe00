/**
  The matching pass: for each unmatched open marker, in list order, the list is
  searched for a close marker to pair it with, splitting markers of size 3 on
  the way. `Scan` is the search for one open marker over the tokens after it,
  and `MatchAll` is the whole pass over the tokens not visited yet.
 */
module EmphasisMatching {
  import opened EmphasisTokens

  /**
    How the search for one open marker ended. `Collision` is the point where an
    open marker of size 3 meets a close marker of size 3 with another character.
   */
  datatype Outcome = NotFound | Paired | SplitOpen(closeSize: nat) | Collision

  datatype Scanned = Scanned(rest: seq<Tok>, outcome: Outcome)

  function Push(t: Tok, r: Scanned): Scanned { r.(rest := [t] + r.rest) }

  function Halves(open: bool, ch: char, k: nat): seq<Tok>
    requires k <= 3
  {
    [NewMark(open, ch, 3 - k), NewMark(open, ch, k)]
  }

  /** The search for a partner of the open marker `o` among the tokens `rest` after it. */
  function Scan(o: Tok, rest: seq<Tok>, id: nat): (r: Scanned)
    requires o.Mark? && 1 <= o.size <= 3
    ensures Triples(r.rest) < Triples(rest)
         || (Triples(r.rest) == Triples(rest) && |r.rest| == |rest|)
    decreases Triples(rest), |rest|
  {
    if rest == [] then Scanned([], NotFound)
    else
      var c := rest[0];
      if !c.UnmatchedClose() then Push(c, Scan(o, rest[1..], id))
      else if c.size == 3 && o.size != 3 then
        var spliced := Halves(false, c.ch, o.size) + rest[1..];
        TriplesConcat(Halves(false, c.ch, o.size), rest[1..]);
        NoTriplesInHalves(false, c.ch, o.size);
        Push(c.Disable(), Scan(o, spliced, id))
      else if SameKind(c, o) then Scanned([c.WithId(id)] + rest[1..], Paired)
      else if o.size == 3 then Scanned(rest, if c.size == 3 then Collision else SplitOpen(c.size))
      else Push(c, Scan(o, rest[1..], id))
  }

  lemma NoTriplesInHalves(open: bool, ch: char, k: nat)
    requires k == 1 || k == 2
    ensures Triples(Halves(open, ch, k)) == 0
  {
    var h := Halves(open, ch, k);
    assert h[1..] == [h[1]];
    assert Triples([h[1]]) == 0;
  }

  datatype Result = Resolved(list: seq<Tok>, nextId: nat) | Diverges

  function Prepend(t: Tok, r: Result): Result {
    match r
    case Resolved(list, n) => Resolved([t] + list, n)
    case Diverges => Diverges
  }

  function PrependAll(ts: seq<Tok>, r: Result): Result {
    match r
    case Resolved(list, n) => Resolved(ts + list, n)
    case Diverges => Diverges
  }

  /** The matching pass over the tokens from the current one on; `id` is the next free pair id. */
  function MatchAll(rest: seq<Tok>, id: nat): Result
    requires AllSound(rest)
    decreases Triples(rest), |rest|
  {
    if rest == [] then Resolved([], id)
    else
      var o := rest[0];
      if !o.UnmatchedOpen() then Prepend(o, MatchAll(rest[1..], id))
      else
        assert o in rest;
        var r := Scan(o, rest[1..], id);
        ScanSound(o, rest[1..], id);
        match r.outcome
        case NotFound => Prepend(o, MatchAll(r.rest, id))
        case Paired => Prepend(o.WithId(id), MatchAll(r.rest, id + 1))
        case SplitOpen(k) =>
          TriplesConcat(Halves(true, o.ch, k), r.rest);
          NoTriplesInHalves(true, o.ch, k);
          Prepend(o.Disable(), MatchAll(Halves(true, o.ch, k) + r.rest, id))
        case Collision => Diverges
  }

  /** Searching keeps every marker at a size between 1 and 3; an open marker is split only by a close of size 1 or 2. */
  lemma {:induction false} ScanSound(o: Tok, rest: seq<Tok>, id: nat)
    requires o.Mark? && 1 <= o.size <= 3 && AllSound(rest)
    ensures AllSound(Scan(o, rest, id).rest)
    ensures var out := Scan(o, rest, id).outcome;
            out.SplitOpen? ==> 1 <= out.closeSize <= 2 && o.size == 3
    decreases Triples(rest), |rest|
  {
    if rest != [] {
      var c := rest[0];
      assert c in rest;
      if c.UnmatchedClose() && c.size == 3 && o.size != 3 {
        var h := Halves(false, c.ch, o.size);
        TriplesConcat(h, rest[1..]);
        NoTriplesInHalves(false, c.ch, o.size);
        ScanSound(o, h + rest[1..], id);
      } else {
        ScanSound(o, rest[1..], id);
      }
    }
  }

  /** Searching, splitting close markers on the way, stands for the same text. */
  lemma {:induction false} ScanKeepsLiteral(o: Tok, rest: seq<Tok>, id: nat)
    requires o.Mark? && 1 <= o.size <= 3
    ensures Literal(Scan(o, rest, id).rest) == Literal(rest)
    decreases Triples(rest), |rest|
  {
    if rest != [] {
      var c, tail := rest[0], rest[1..];
      if c.UnmatchedClose() && c.size == 3 && o.size != 3 {
        var h := Halves(false, c.ch, o.size);
        TriplesConcat(h, tail);
        NoTriplesInHalves(false, c.ch, o.size);
        ScanKeepsLiteral(o, h + tail, id);
        SplitKeepsLiteral(false, c.ch, o.size);
        LiteralConcat(h, tail);
      } else {
        ScanKeepsLiteral(o, tail, id);
      }
    }
  }

  /** The matching pass conserves the literal text of the list and keeps every marker at a size between 1 and 3. */
  lemma {:induction false} MatchAllConserves(rest: seq<Tok>, id: nat)
    requires AllSound(rest)
    ensures var r := MatchAll(rest, id);
            r.Resolved? ==> Literal(r.list) == Literal(rest) && AllSound(r.list)
    decreases Triples(rest), |rest|
  {
    if rest != [] {
      var o, tail := rest[0], rest[1..];
      assert o in rest;
      if !o.UnmatchedOpen() {
        MatchAllConserves(tail, id);
      } else {
        var r := Scan(o, tail, id);
        ScanSound(o, tail, id);
        ScanKeepsLiteral(o, tail, id);
        match r.outcome
        case NotFound => MatchAllConserves(r.rest, id);
        case Paired => MatchAllConserves(r.rest, id + 1);
        case SplitOpen(k) =>
          var h := Halves(true, o.ch, k);
          TriplesConcat(h, r.rest);
          NoTriplesInHalves(true, o.ch, k);
          SplitKeepsLiteral(true, o.ch, k);
          LiteralConcat(h, r.rest);
          MatchAllConserves(h + r.rest, id);
        case Collision =>
      }
    }
  }
}
