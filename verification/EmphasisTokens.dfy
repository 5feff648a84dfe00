/**
  The list of text, open and close markers that the emphasis resolver of the
  markdown renderer works on, seen as values: a marker's match pointer is
  represented by the id that the two markers of a pair share.
 */
module EmphasisTokens {

  /** `id` is negative while a marker is unmatched; `size` is 1 for italics, 2 for bold, 3 for both. */
  datatype Tok =
    | Text(text: string)
    | Mark(open: bool, ch: char, size: nat, id: int, disabled: bool)
  {
    predicate UnmatchedOpen() { Mark? && open && id < 0 && !disabled }
    predicate UnmatchedClose() { Mark? && !open && id < 0 && !disabled }
    predicate MatchedOpen() { Mark? && open && id >= 0 }
    predicate MatchedClose() { Mark? && !open && id >= 0 }
    predicate Matched() { Mark? && id >= 0 }
    predicate Triple() { Mark? && id < 0 && !disabled && size == 3 }

    /** A marker that takes part in the output has one of the three sizes; a disabled one is never matched. */
    predicate Sound() { Mark? ==> 1 <= size <= 3 && (disabled ==> id < 0) }

    /** A marker as the tokenizer makes it. */
    predicate Fresh() { Mark? ==> 1 <= size <= 3 && id == -1 && !disabled }

    /** The characters of the source text that the token stands for. */
    function Literal(): string {
      if Text? then text else if disabled then "" else seq(size, _ => ch)
    }

    function WithId(x: int): Tok
      requires Mark?
    {
      this.(id := x)
    }

    function Disable(): Tok
      requires Mark?
    {
      this.(disabled := true)
    }
  }

  function NewMark(open: bool, ch: char, size: nat): Tok {
    Mark(open, ch, size, -1, false)
  }

  predicate SameKind(a: Tok, b: Tok)
    requires a.Mark? && b.Mark?
  {
    a.ch == b.ch && a.size == b.size
  }

  predicate AllSound(s: seq<Tok>) { forall t <- s :: t.Sound() }

  predicate AllFresh(s: seq<Tok>) { forall t <- s :: t.Fresh() }

  /** The literal text of a whole list. */
  function Literal(s: seq<Tok>): string {
    if s == [] then "" else s[0].Literal() + Literal(s[1..])
  }

  /** How many markers may still be split: the unmatched, enabled ones of size 3. */
  function Triples(s: seq<Tok>): nat {
    if s == [] then 0 else (if s[0].Triple() then 1 else 0) + Triples(s[1..])
  }

  lemma TriplesHead(s: seq<Tok>)
    ensures s != [] ==> Triples(s) == (if s[0].Triple() then 1 else 0) + Triples(s[1..])
  {
  }

  lemma {:induction false} TriplesConcat(a: seq<Tok>, b: seq<Tok>)
    ensures Triples(a + b) == Triples(a) + Triples(b)
  {
    if a == [] {
      assert a + b == b;
    } else {
      assert (a + b)[1..] == a[1..] + b;
      TriplesConcat(a[1..], b);
    }
  }

  lemma {:induction false} LiteralConcat(a: seq<Tok>, b: seq<Tok>)
    ensures Literal(a + b) == Literal(a) + Literal(b)
  {
    if a == [] {
      assert a + b == b;
    } else {
      assert (a + b)[1..] == a[1..] + b;
      LiteralConcat(a[1..], b);
    }
  }

  /** Splitting a marker of size 3 in two keeps the text it stands for. */
  lemma SplitKeepsLiteral(open: bool, ch: char, k: nat)
    requires k <= 3
    ensures Literal([NewMark(open, ch, 3 - k), NewMark(open, ch, k)]) == seq(3, _ => ch)
  {
    var pair := [NewMark(open, ch, 3 - k), NewMark(open, ch, k)];
    assert pair[1..] == [pair[1]];
    assert Literal([pair[1]]) == pair[1].Literal();
  }
}
