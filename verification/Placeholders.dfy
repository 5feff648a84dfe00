/**
  The working text of the span passes: characters and placeholders that stand
  for entries of a replacement table or for escaped characters.
 */
module Placeholders {
  import opened Wrappers
  import opened Entities

  const MARK: char := 1 as char

  const ESCAPED_CHARACTERS := "\\`*_{}[]()#+-.!>"

  /** The index of a character that a backslash escapes. */
  function EscapeIndex(c: char): (r: Option<nat>)
    ensures r.Some? ==> r.value < |ESCAPED_CHARACTERS| && ESCAPED_CHARACTERS[r.value] == c
    ensures r.None? <==> c !in ESCAPED_CHARACTERS
  {
    FindIn(ESCAPED_CHARACTERS, c, 0)
  }

  function FindIn(s: string, c: char, i: nat): (r: Option<nat>)
    requires i <= |s| && c !in s[..i]
    ensures r.Some? ==> r.value < |s| && s[r.value] == c
    ensures r.None? <==> c !in s
    decreases |s| - i
  {
    if i == |s| then assert s[..i] == s; None
    else if s[i] == c then Some(i)
    else
      assert s[..i + 1] == s[..i] + [s[i]];
      FindIn(s, c, i + 1)
  }

  /** The text of a placeholder. */
  function Placeholder(ref: string, tag: string): string {
    [MARK] + "@" + ref + "@" + tag + [MARK]
  }

  datatype Match = NoMatch | Match(ref: string, length: nat)

  /** The length of the text up to the first mark at or after index `i`; the whole length when there is none. */
  function UpToMark(s: string, i: nat): (p: nat)
    ensures p <= |s| && (p < |s| ==> i <= p && s[p] == MARK)
    ensures forall k :: i <= k < p ==> s[k] != MARK
    decreases |s| - i
  {
    if i >= |s| then |s| else if s[i] == MARK then i else UpToMark(s, i + 1)
  }

  /**
    The placeholder expression matched at the start of a text: a mark, an at
    sign, an optional hash and digits, another at sign, at least one character,
    and then the nearest mark.
   */
  function MatchAt(s: string): (m: Match)
    ensures m.Match? ==> 0 < m.length <= |s|
  {
    if |s| < 3 || s[0] != MARK || s[1] != '@' then NoMatch
    else
      var start := if s[2] == '#' then 3 else 2;
      var k := start + DigitRun(s[start..], 10);
      if k >= |s| || s[k] != '@' then NoMatch
      else
        var q := UpToMark(s, k + 2);
        if q >= |s| then NoMatch else Match(s[2..k], q + 1)
  }

  /** What a reference is restored to; none where the original's assertion or cast fails. */
  function Original(ref: string, originals: seq<string>): Option<string> {
    if ref == "" then Some("")
    else if ref[0] == '#' then
      var digits := ref[1..];
      if digits == "" || exists c <- digits :: !IsDigit(c, 10) then None
      else
        var n := Value(digits, 10);
        if n < |ESCAPED_CHARACTERS| then Some(['\\', ESCAPED_CHARACTERS[n]]) else None
    else if exists c <- ref :: !IsDigit(c, 10) then None
    else
      var n := Value(ref, 10);
      if n < |originals| then Some(originals[n]) else None
  }

  function Append(a: Option<string>, b: Option<string>): Option<string> {
    if a.Some? && b.Some? then Some(a.value + b.value) else None
  }

  /** A text with its placeholders replaced by what they stand for; none when some placeholder stands for nothing. */
  function Restore(s: string, originals: seq<string>): Option<string>
    decreases |s|
  {
    if s == "" then Some("")
    else
      var m := MatchAt(s);
      if m.Match? then Append(Original(m.ref, originals), Restore(s[m.length..], originals))
      else Append(Some([s[0]]), Restore(s[1..], originals))
  }

  /** The position of the first placeholder at or after `from`; the length of the text when there is none. */
  method FindPlaceholder(s: string, from: nat) returns (p: nat)
    requires from <= |s|
    ensures from <= p <= |s| && (p < |s| ==> MatchAt(s[p..]).Match?)
    ensures forall k :: from <= k < p ==> MatchAt(s[k..]).NoMatch?
  {
    p := from;
    while p < |s| && MatchAt(s[p..]).NoMatch?
      invariant from <= p <= |s|
      invariant forall k :: from <= k < p ==> MatchAt(s[k..]).NoMatch?
    {
      p := p + 1;
    }
  }

  method RestoreProcessedItems(src: string, originals: seq<string>) returns (r: Option<string>)
    ensures r == Restore(src, originals)
  {
    hide Restore, Original, MatchAt;
    var out := "";
    var prev := 0;
    assert src[0..] == src;
    AppendNothing(Restore(src, originals));
    while true
      invariant 0 <= prev <= |src|
      invariant Restore(src, originals) == Append(Some(out), Restore(src[prev..], originals))
      decreases |src| - prev
    {
      var at := FindPlaceholder(src, prev);
      CharsAreRestored(src, prev, at, originals);
      AppendAppend(out, src[prev..at], Restore(src[at..], originals));
      out := out + src[prev..at];
      if at == |src| {
        assert src[at..] == "" == src[|src|..];
        break;
      }
      var m := MatchAt(src[at..]);
      var item := Original(m.ref, originals);
      RestoreMatch(src, at, originals);
      if item == None {
        return None;
      }
      AppendAppend(out, item.value, Restore(src[at + m.length..], originals));
      out := out + item.value;
      prev := at + m.length;
    }
    RestoreEmpty(originals);
    assert src[|src|..] == "" && out + "" == out;
    return Some(out);
  }

  lemma RestoreMatch(src: string, at: nat, originals: seq<string>)
    requires at < |src| && MatchAt(src[at..]).Match?
    ensures var m := MatchAt(src[at..]);
            Restore(src[at..], originals)
              == Append(Original(m.ref, originals), Restore(src[at + m.length..], originals))
  {
    var m := MatchAt(src[at..]);
    assert src[at..][m.length..] == src[at + m.length..];
  }

  lemma RestoreEmpty(originals: seq<string>)
    ensures Restore("", originals) == Some("")
  {
  }

  lemma AppendNothing(r: Option<string>)
    ensures Append(Some(""), r) == r
  {
    if r.Some? {
      assert "" + r.value == r.value;
    }
  }

  lemma AppendAppend(a: string, b: string, r: Option<string>)
    ensures Append(Some(a), Append(Some(b), r)) == Append(Some(a + b), r)
  {
    if r.Some? {
      assert a + (b + r.value) == a + b + r.value;
    }
  }

  lemma {:induction false} CharsAreRestored(s: string, p: nat, q: nat, originals: seq<string>)
    requires p <= q <= |s| && forall k :: p <= k < q ==> MatchAt(s[k..]).NoMatch?
    ensures Restore(s[p..], originals) == Append(Some(s[p..q]), Restore(s[q..], originals))
    decreases q - p
  {
    if p == q {
      AppendNothing(Restore(s[q..], originals));
    } else {
      CharsAreRestored(s, p + 1, q, originals);
      assert s[p..][0] == s[p] && s[p..][1..] == s[p + 1..];
      AppendAppend([s[p]], s[p + 1..q], Restore(s[q..], originals));
      assert [s[p]] + s[p + 1..q] == s[p..q];
    }
  }

  /** What the escape pass writes for the backslash at `i` and the character after it. */
  function EscapePair(c: char): string {
    var e := EscapeIndex(c);
    if e.Some? then Placeholder("#" + Numeral(e.value, 10), "escaped") else ['\\', c]
  }

  /** The escape pass: a backslash and a character that can be escaped become a placeholder. */
  function Escape(s: string): string
    decreases |s|
  {
    if s == "" then ""
    else if s[0] != '\\' then [s[0]] + Escape(s[1..])
    else if |s| == 1 then "\\"
    else EscapePair(s[1]) + Escape(s[2..])
  }

  lemma EscapeNext(src: string, i: nat)
    requires i <= |src|
    ensures i == |src| ==> Escape(src[i..]) == ""
    ensures i < |src| && src[i] != '\\' ==> Escape(src[i..]) == [src[i]] + Escape(src[i + 1..])
    ensures i + 1 == |src| && src[i] == '\\' ==> Escape(src[i..]) == "\\"
    ensures i + 1 < |src| && src[i] == '\\' ==> Escape(src[i..]) == EscapePair(src[i + 1]) + Escape(src[i + 2..])
  {
    if i < |src| {
      assert src[i..][0] == src[i] && src[i..][1..] == src[i + 1..];
      if i + 1 < |src| {
        assert src[i..][1] == src[i + 1] && src[i..][2..] == src[i + 2..] && src[i..][..2] == [src[i], src[i + 1]];
      }
    }
  }

  method FindBackslash(src: string, prev: nat) returns (i: nat)
    requires prev <= |src|
    ensures prev <= i <= |src| && (i < |src| ==> src[i] == '\\')
    ensures Escape(src[prev..]) == src[prev..i] + Escape(src[i..])
  {
    hide Escape;
    i := prev;
    assert "" + Escape(src[i..]) == Escape(src[i..]) && src[i..i] == "";
    while i < |src| && src[i] != '\\'
      invariant prev <= i <= |src| && Escape(src[prev..]) == src[prev..i] + Escape(src[i..])
    {
      EscapeNext(src, i);
      assert src[prev..i + 1] == src[prev..i] + [src[i]];
      assert src[prev..i] + ([src[i]] + Escape(src[i + 1..])) == src[prev..i] + [src[i]] + Escape(src[i + 1..]);
      i := i + 1;
    }
  }

  method ProcessEscapedCharacters(src: string) returns (tgt: string)
    ensures tgt == Escape(src)
  {
    hide Escape, EscapePair;
    tgt := "";
    var prev := 0;
    assert src[0..] == src && "" + Escape(src) == Escape(src);
    while true
      invariant 0 <= prev <= |src| && Escape(src) == tgt + Escape(src[prev..])
      decreases |src| - prev
    {
      var i := FindBackslash(src, prev);
      assert tgt + (src[prev..i] + Escape(src[i..])) == tgt + src[prev..i] + Escape(src[i..]);
      tgt := tgt + src[prev..i];
      EscapeNext(src, i);
      if i == |src| {
        assert tgt + "" == tgt;
        return;
      }
      i := i + 1;
      if i == |src| {
        tgt := tgt + "\\";
        return;
      }
      var add := EscapePair(src[i]);
      assert i - 1 + 2 == i + 1;
      assert tgt + (add + Escape(src[i + 1..])) == tgt + add + Escape(src[i + 1..]);
      tgt := tgt + add;
      prev := i + 1;
    }
  }

  /** The working text in pieces. */
  datatype Piece = Lit(c: char) | Hold(ref: string, tag: string)

  const TAGS := {"htmlTagAttr", "codeSpan", "escaped", "links&Images1", "links&Images2"}

  /** A reference to the escape table or to one of `n` entries of the replacement table. */
  ghost predicate RefOk(ref: string, n: nat) {
    || (exists k: nat :: k < |ESCAPED_CHARACTERS| && ref == "#" + Numeral(k, 10))
    || (exists k: nat :: k < n && ref == Numeral(k, 10))
  }

  ghost predicate PieceOk(p: Piece, n: nat) {
    match p
    case Lit(c) => c != MARK
    case Hold(ref, tag) => RefOk(ref, n) && tag in TAGS
  }

  ghost predicate PiecesOk(ps: seq<Piece>, n: nat) { forall p <- ps :: PieceOk(p, n) }

  function Text(p: Piece): string {
    match p
    case Lit(c) => [c]
    case Hold(ref, tag) => Placeholder(ref, tag)
  }

  function Flatten(ps: seq<Piece>): string {
    if ps == [] then "" else Text(ps[0]) + Flatten(ps[1..])
  }

  /** All placeholders of the text are whole and refer to something: `n` is the length of the replacement table. */
  ghost predicate Sound(s: string, n: nat) { exists ps :: PiecesOk(ps, n) && Flatten(ps) == s }

  lemma {:induction false} FlattenConcat(a: seq<Piece>, b: seq<Piece>)
    ensures Flatten(a + b) == Flatten(a) + Flatten(b)
  {
    if a == [] {
      assert a + b == b;
    } else {
      assert (a + b)[1..] == a[1..] + b;
      FlattenConcat(a[1..], b);
    }
  }

  lemma SoundConcat(s: string, t: string, n: nat)
    requires Sound(s, n) && Sound(t, n)
    ensures Sound(s + t, n)
  {
    var a :| PiecesOk(a, n) && Flatten(a) == s;
    var b :| PiecesOk(b, n) && Flatten(b) == t;
    FlattenConcat(a, b);
    assert PiecesOk(a + b, n);
  }

  lemma SoundMore(s: string, n: nat, m: nat)
    requires Sound(s, n) && n <= m
    ensures Sound(s, m)
  {
    var a :| PiecesOk(a, n) && Flatten(a) == s;
    assert PiecesOk(a, m);
  }

  /** Text without a mark has no placeholder to go wrong. */
  lemma {:induction false} MarkFreeIsSound(s: string)
    requires MARK !in s
    ensures Sound(s, 0)
  {
    if s == "" {
      assert PiecesOk([], 0) && Flatten([]) == "";
    } else {
      MarkFreeIsSound(s[1..]);
      var ps :| PiecesOk(ps, 0) && Flatten(ps) == s[1..];
      var qs := [Lit(s[0])] + ps;
      assert qs[1..] == ps && PiecesOk(qs, 0);
      assert Flatten(qs) == s;
    }
  }

  lemma PlaceholderIsSound(k: nat, tag: string, n: nat)
    requires k < n && tag in TAGS
    ensures Sound(Placeholder(Numeral(k, 10), tag), n)
  {
    var p := Hold(Numeral(k, 10), tag);
    assert PiecesOk([p], n);
    assert [p][1..] == [];
    assert Flatten([p]) == Text(p) + "" == Text(p);
  }
}
