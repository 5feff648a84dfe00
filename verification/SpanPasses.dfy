/**
  The passes that put placeholders into the working text. Where an expression
  matches is left to the caller; all that is asked of a match is that it ends
  on the delimiters of its pass.
 */
module SpanPasses {
  import opened Wrappers
  import opened Entities
  import opened Placeholders
  import opened EscapeRestore

  /** A match of `src[first..last]`, with the captured contents `src[begin..end]`. */
  datatype Span = Span(first: nat, last: nat, begin: nat, end: nat)

  /** A place between two characters at which the text may be cut. */
  predicate CutAt(s: string, i: nat) {
    i <= |s| && (i == 0 || i == |s| || Delimiter(s[i]) || Delimiter(s[i - 1]))
  }

  predicate SpanOk(s: string, prev: nat, m: Span) {
    && prev <= m.first <= m.begin <= m.end <= m.last <= |s| && m.first < m.last
    && CutAt(s, m.first) && CutAt(s, m.last) && CutAt(s, m.begin) && CutAt(s, m.end)
  }

  /** Successive matches found by searching on from the end of the one before. */
  predicate SpansOk(s: string, prev: nat, ms: seq<Span>)
    decreases |ms|
  {
    ms == [] || (SpanOk(s, prev, ms[0]) && SpansOk(s, ms[0].last, ms[1..]))
  }

  /** Cutting sound text at a delimiter leaves sound parts. */
  lemma {:induction false} CutPieces(ps: seq<Piece>, n: nat, i: nat)
    requires PiecesOk(ps, n) && CutAt(Flatten(ps), i)
    ensures Sound(Flatten(ps)[..i], n) && Sound(Flatten(ps)[i..], n)
  {
    hide Sound, Text, CutAt, PieceOk;
    var s := Flatten(ps);
    WholeIsSound(ps, n);
    EmptyIsSound(n);
    if i == 0 || ps == [] {
      CutInEmpty(s, i);
      assert s[..0] == "" && s[0..] == s;
    } else {
      var p, rest := ps[0], Flatten(ps[1..]);
      assert p in ps && s == Text(p) + rest;
      var k := |Text(p)|;
      if i < k {
        InsidePlaceholder(p, rest, n, i);
        assert false;
      } else {
        ShiftedCut(Text(p), rest, i);
        CutPieces(ps[1..], n, i - k);
        CutInEmpty(rest, i - k);
        assert s[..i] == Text(p) + rest[..i - k] && s[i..] == rest[i - k..];
        PieceIsSound(p, n);
        SoundConcat(Text(p), rest[..i - k], n);
      }
    }
  }

  lemma WholeIsSound(ps: seq<Piece>, n: nat)
    requires PiecesOk(ps, n)
    ensures Sound(Flatten(ps), n)
  {
  }

  lemma CutInEmpty(s: string, i: nat)
    requires CutAt(s, i)
    ensures i <= |s|
  {
  }

  lemma EmptyIsSound(n: nat)
    ensures Sound("", n)
  {
    assert PiecesOk([], n) && Flatten([]) == "";
  }

  lemma PieceIsSound(p: Piece, n: nat)
    requires PieceOk(p, n)
    ensures Sound(Text(p), n)
  {
    assert PiecesOk([p], n) && [p][1..] == [] && Flatten([p]) == Text(p) + "" == Text(p);
  }

  lemma ShiftedCut(h: string, t: string, i: nat)
    requires |h| <= i && CutAt(h + t, i)
    ensures CutAt(t, i - |h|)
  {
  }

  /** No cut falls inside a placeholder. */
  lemma InsidePlaceholder(p: Piece, rest: string, n: nat, i: nat)
    requires PieceOk(p, n) && 0 < i < |Text(p)|
    ensures !CutAt(Text(p) + rest, i)
  {
    var h := Text(p);
    PlaceholderIsPlain(p.ref, p.tag, n);
    assert h[i] in h && h[i - 1] in h;
    assert (h + rest)[i] == h[i] && (h + rest)[i - 1] == h[i - 1];
  }

  lemma SoundCut(s: string, n: nat, i: nat)
    requires Sound(s, n) && CutAt(s, i)
    ensures Sound(s[..i], n) && Sound(s[i..], n)
  {
    var ps :| PiecesOk(ps, n) && Flatten(ps) == s;
    CutPieces(ps, n, i);
  }

  /** The part of sound text between two cuts is sound. */
  lemma SoundSlice(s: string, n: nat, i: nat, j: nat)
    requires Sound(s, n) && i <= j && CutAt(s, i) && CutAt(s, j)
    ensures Sound(s[i..j], n)
  {
    SoundCut(s, n, j);
    var t := s[..j];
    assert CutAt(t, i);
    SoundCut(t, n, i);
    assert t[i..] == s[i..j];
  }

  /** The text with each match replaced by a placeholder, numbered from `n`. */
  function Replaced(s: string, prev: nat, ms: seq<Span>, n: nat, tag: string): string
    requires SpansOk(s, prev, ms) && prev <= |s|
    decreases |ms|
  {
    if ms == [] then s[prev..]
    else s[prev..ms[0].first] + Placeholder(Numeral(n, 10), tag) + Replaced(s, ms[0].last, ms[1..], n + 1, tag)
  }

  /** Replacing matches keeps the text sound for the longer table. */
  lemma {:induction false} ReplacedIsSound(s: string, prev: nat, ms: seq<Span>, n: nat, tag: string)
    requires SpansOk(s, prev, ms) && CutAt(s, prev) && Sound(s, n) && tag in TAGS
    ensures Sound(Replaced(s, prev, ms, n, tag), n + |ms|)
    decreases |ms|
  {
    if ms == [] {
      SoundSlice(s, n, prev, |s|);
      assert s[prev..] == s[prev..|s|];
    } else {
      var m, all := ms[0], n + |ms|;
      SoundMore(s, n, n + 1);
      ReplacedIsSound(s, m.last, ms[1..], n + 1, tag);
      SoundSlice(s, n, prev, m.first);
      SoundMore(s[prev..m.first], n, all);
      PlaceholderIsSound(n, tag, all);
      SoundConcat(s[prev..m.first], Placeholder(Numeral(n, 10), tag), all);
      SoundConcat(s[prev..m.first] + Placeholder(Numeral(n, 10), tag), Replaced(s, m.last, ms[1..], n + 1, tag), all);
    }
  }

  /** How an entry for a piece of the text is written as original, when it is not a code span. */
  type Writer = string -> string

  /** The entries made for the matches of a pass that keeps each match as it is. */
  function Kept(s: string, prev: nat, ms: seq<Span>, write: Writer): (r: seq<string>)
    requires SpansOk(s, prev, ms)
    ensures |r| == |ms|
    decreases |ms|
  {
    if ms == [] then [] else [write(s[ms[0].first..ms[0].last])] + Kept(s, ms[0].last, ms[1..], write)
  }

  /** The pass over the attribute strings of tags. */
  method ProcessHtmlTagAttributes(src: string, ms: seq<Span>, write: Writer, table: seq<string>)
    returns (tgt: string, originals: seq<string>)
    requires SpansOk(src, 0, ms)
    ensures tgt == Replaced(src, 0, ms, |table|, "htmlTagAttr")
    ensures originals == table + Kept(src, 0, ms, write)
  {
    hide Replaced, Kept, Placeholder, Numeral, CutAt;
    tgt, originals := "", table;
    var prev: nat := 0;
    ghost var whole, kept := Replaced(src, 0, ms, |table|, "htmlTagAttr"), table + Kept(src, 0, ms, write);
    assert ms[0..] == ms && "" + whole == whole;
    for i := 0 to |ms|
      invariant prev <= |src| && SpansOk(src, prev, ms[i..])
      invariant originals + Kept(src, prev, ms[i..], write) == kept
      invariant tgt + Replaced(src, prev, ms[i..], |originals|, "htmlTagAttr") == whole
    {
      var m := ms[i];
      assert ms[i..][0] == m && ms[i..][1..] == ms[i + 1..];
      ReplaceNext(tgt, src, prev, ms[i..], |originals|, "htmlTagAttr");
      KeptNext(originals, src, prev, ms[i..], write);
      tgt := tgt + src[prev..m.first];
      tgt := tgt + Placeholder(Numeral(|originals|, 10), "htmlTagAttr");
      prev := m.last;
      originals := originals + [write(src[m.first..m.last])];
    }
    assert ms[|ms|..] == [];
    ReplaceLast(src, prev, |originals|, "htmlTagAttr");
    KeptNothing(src, prev, write);
    tgt := tgt + src[prev..];
  }

  lemma KeptNothing(s: string, prev: nat, write: Writer)
    ensures Kept(s, prev, [], write) == []
  {
  }

  lemma KeptNext(originals: seq<string>, s: string, prev: nat, ms: seq<Span>, write: Writer)
    requires SpansOk(s, prev, ms) && ms != []
    ensures originals + Kept(s, prev, ms, write) ==
      originals + [write(s[ms[0].first..ms[0].last])] + Kept(s, ms[0].last, ms[1..], write)
  {
  }

  lemma ReplaceNext(tgt: string, s: string, prev: nat, ms: seq<Span>, n: nat, tag: string)
    requires SpansOk(s, prev, ms) && prev <= |s| && ms != []
    ensures tgt + Replaced(s, prev, ms, n, tag) ==
      tgt + s[prev..ms[0].first] + Placeholder(Numeral(n, 10), tag) + Replaced(s, ms[0].last, ms[1..], n + 1, tag)
  {
  }

  /** Taking one code span out: its contents are restored from the entries so far, which never fails. */
  method CodeSpanEntry(src: string, prev: nat, m: Span, n: nat, originals: seq<string>) returns (entry: string)
    requires SpanOk(src, prev, m) && Sound(src, n) && n <= |originals|
    ensures CodeOriginal(src, m, originals, entry)
  {
    hide Sound, Restore, CutAt;
    SoundSlice(src, n, m.begin, m.end);
    SoundMore(src[m.begin..m.end], n, |originals|);
    SoundRestores(src[m.begin..m.end], originals);
    var contents := RestoreProcessedItems(src[m.begin..m.end], originals);
    entry := "`" + contents.value + "`";
  }

  /** The entries of the matches `ms`, added to `table` one after the other. */
  predicate CodeEntries(src: string, ms: seq<Span>, table: seq<string>, originals: seq<string>) {
    && table <= originals && |originals| == |table| + |ms|
    && forall i :: 0 <= i < |ms| ==> CodeOriginal(src, ms[i], originals[..|table| + i], originals[|table| + i])
  }

  lemma CodeEntriesSnoc(src: string, ms: seq<Span>, table: seq<string>, originals: seq<string>, m: Span, entry: string)
    requires CodeEntries(src, ms, table, originals) && CodeOriginal(src, m, originals, entry)
    ensures CodeEntries(src, ms + [m], table, originals + [entry])
  {
    hide CodeOriginal;
    var more := originals + [entry];
    assert more[..|originals|] == originals;
    forall i | 0 <= i < |ms| + 1 ensures CodeOriginal(src, (ms + [m])[i], more[..|table| + i], more[|table| + i]) {
      if i < |ms| {
        assert more[..|table| + i] == originals[..|table| + i];
      }
    }
  }

  /** One of the two passes over code spans. */
  method CodeSpanPass(src: string, ms: seq<Span>, table: seq<string>) returns (tgt: string, originals: seq<string>)
    requires SpansOk(src, 0, ms) && Sound(src, |table|)
    ensures tgt == Replaced(src, 0, ms, |table|, "codeSpan") && Sound(tgt, |originals|)
    ensures CodeEntries(src, ms, table, originals)
  {
    hide Sound, CodeEntries, Replaced, CutAt;
    tgt, originals := "", table;
    var prev: nat := 0;
    assert ms[0..] == ms && "" + Replaced(src, 0, ms, |table|, "codeSpan") == Replaced(src, 0, ms, |table|, "codeSpan");
    assert CodeEntries(src, ms[..0], table, table) by {
      NoEntries(src, ms, table);
    }
    for i := 0 to |ms|
      invariant prev <= |src| && SpansOk(src, prev, ms[i..]) && |originals| == |table| + i
      invariant CodeEntries(src, ms[..i], table, originals)
      invariant tgt + Replaced(src, prev, ms[i..], |originals|, "codeSpan") == Replaced(src, 0, ms, |table|, "codeSpan")
    {
      var m := ms[i];
      assert ms[i..][0] == m && ms[i..][1..] == ms[i + 1..] && ms[..i] + [m] == ms[..i + 1];
      ReplaceNext(tgt, src, prev, ms[i..], |originals|, "codeSpan");
      tgt := tgt + src[prev..m.first];
      tgt := tgt + Placeholder(Numeral(|originals|, 10), "codeSpan");
      var entry := CodeSpanEntry(src, prev, m, |table|, originals);
      prev := m.last;
      CodeEntriesSnoc(src, ms[..i], table, originals, m, entry);
      originals := originals + [entry];
    }
    ReplaceLast(src, prev, |originals|, "codeSpan");
    assert ms[|ms|..] == [] && ms[..|ms|] == ms;
    tgt := tgt + src[prev..];
    StartIsCut(src);
    ReplacedIsSound(src, 0, ms, |table|, "codeSpan");
  }

  lemma NoEntries(src: string, ms: seq<Span>, table: seq<string>)
    ensures CodeEntries(src, ms[..0], table, table)
  {
  }

  lemma StartIsCut(s: string)
    ensures CutAt(s, 0)
  {
  }

  lemma ReplaceLast(s: string, prev: nat, n: nat, tag: string)
    requires prev <= |s|
    ensures Replaced(s, prev, [], n, tag) == s[prev..]
  {
  }

  /** The entry of a code span is its restored contents between backticks. */
  predicate CodeOriginal(src: string, m: Span, before: seq<string>, entry: string) {
    && m.begin <= m.end <= |src|
    && Append(Append(Some("`"), Restore(src[m.begin..m.end], before)), Some("`")) == Some(entry)
  }

  /** Restoring sound text goes part by part. */
  lemma SoundRestoreConcat(a: string, b: string, n: nat, originals: seq<string>)
    requires Sound(a, n) && Sound(b, n)
    ensures Restore(a + b, originals) == Append(Restore(a, originals), Restore(b, originals))
  {
    var ps :| PiecesOk(ps, n) && Flatten(ps) == a;
    var qs :| PiecesOk(qs, n) && Flatten(qs) == b;
    FlattenConcat(ps, qs);
    assert PiecesOk(ps + qs, n);
    RestoreFlatten(ps, n, originals);
    RestoreFlatten(qs, n, originals);
    RestoreFlatten(ps + qs, n, originals);
    RestorePiecesConcat(ps, qs, originals);
  }

  lemma {:induction false} RestorePiecesConcat(ps: seq<Piece>, qs: seq<Piece>, originals: seq<string>)
    ensures RestorePieces(ps + qs, originals) == Append(RestorePieces(ps, originals), RestorePieces(qs, originals))
  {
    if ps == [] {
      assert ps + qs == qs;
      AppendNothing(RestorePieces(qs, originals));
    } else {
      assert (ps + qs)[0] == ps[0] && (ps + qs)[1..] == ps[1..] + qs;
      RestorePiecesConcat(ps[1..], qs, originals);
      var h := if ps[0].Lit? then Some([ps[0].c]) else Original(ps[0].ref, originals);
      AppendIsAssociative(h, RestorePieces(ps[1..], originals), RestorePieces(qs, originals));
    }
  }

  lemma AppendIsAssociative(a: Option<string>, b: Option<string>, c: Option<string>)
    ensures Append(Append(a, b), c) == Append(a, Append(b, c))
  {
    if a.Some? && b.Some? && c.Some? {
      assert a.value + b.value + c.value == a.value + (b.value + c.value);
    }
  }

  /** New entries do not change what earlier text is restored to. */
  lemma RestoreWithMore(s: string, table: seq<string>, originals: seq<string>)
    requires Sound(s, |table|) && table <= originals
    ensures Restore(s, originals) == Restore(s, table)
  {
    var ps :| PiecesOk(ps, |table|) && Flatten(ps) == s;
    RestoreFlatten(ps, |table|, table);
    RestoreFlatten(ps, |table|, originals);
    PiecesWithMore(ps, table, originals);
  }

  lemma {:induction false} PiecesWithMore(ps: seq<Piece>, table: seq<string>, originals: seq<string>)
    requires PiecesOk(ps, |table|) && table <= originals
    ensures RestorePieces(ps, originals) == RestorePieces(ps, table)
  {
    if ps != [] {
      assert ps[0] in ps;
      PiecesWithMore(ps[1..], table, originals);
      if ps[0].Hold? {
        RefHasOriginal(ps[0].ref, |table|, table);
      }
    }
  }

  lemma PlaceholderRestores(k: nat, tag: string, originals: seq<string>)
    requires k < |originals| && tag in TAGS
    ensures Restore(Placeholder(Numeral(k, 10), tag), originals) == Some(originals[k])
  {
    var p := Hold(Numeral(k, 10), tag);
    assert PiecesOk([p], |originals|) && [p][1..] == [];
    assert Flatten([p]) == Text(p) + "" == Text(p);
    RestoreFlatten([p], |originals|, originals);
    NumeralValue(k, 10);
    assert Numeral(k, 10)[0] in Numeral(k, 10);
    assert originals[k] + "" == originals[k];
  }

  /** The text with each match filled in by the entry made for it. */
  function Filled(s: string, prev: nat, ms: seq<Span>, es: seq<string>, table: seq<string>): Option<string>
    requires SpansOk(s, prev, ms) && prev <= |s| && |es| == |ms|
    decreases |ms|
  {
    if ms == [] then Restore(s[prev..], table)
    else
      Append(Append(Restore(s[prev..ms[0].first], table), Some(es[0])),
             Filled(s, ms[0].last, ms[1..], es[1..], table))
  }

  /** Restoring the text after a pass gives, match by match, the text before the match and its entry. */
  lemma {:induction false} ReplacedRestores(s: string, prev: nat, ms: seq<Span>, tag: string, table: seq<string>,
                                            before: seq<string>, es: seq<string>, originals: seq<string>)
    requires SpansOk(s, prev, ms) && CutAt(s, prev) && Sound(s, |table|) && tag in TAGS
    requires table <= before && |es| == |ms| && before + es <= originals
    ensures prev <= |s|
    ensures Restore(Replaced(s, prev, ms, |before|, tag), originals) == Filled(s, prev, ms, es, table)
    decreases |ms|
  {
    hide Sound, CutAt, Restore, Placeholder, Numeral;
    CutInEmpty(s, prev);
    if ms == [] {
      CutFacts(s, |table|, prev);
      RestoreWithMore(s[prev..], table, originals);
    } else {
      var m, n, all := ms[0], |before|, |originals|;
      assert before + es == (before + [es[0]]) + es[1..];
      ReplacedRestores(s, m.last, ms[1..], tag, table, before + [es[0]], es[1..], originals);
      var pre, hold := s[prev..m.first], Placeholder(Numeral(n, 10), tag);
      var rest := Replaced(s, m.last, ms[1..], n + 1, tag);
      SoundSlice(s, |table|, prev, m.first);
      RestoreWithMore(pre, table, originals);
      SoundMore(pre, |table|, all);
      EntryRestores(n, tag, originals);
      SoundMore(s, |table|, n + 1);
      ReplacedIsSound(s, m.last, ms[1..], n + 1, tag);
      SoundMore(rest, n + 1 + |ms[1..]|, all);
      SoundConcat(pre, hold, all);
      SoundRestoreConcat(pre, hold, all, originals);
      SoundRestoreConcat(pre + hold, rest, all, originals);
      FilledFirst(s, prev, ms, es, table);
    }
  }

  lemma FilledFirst(s: string, prev: nat, ms: seq<Span>, es: seq<string>, table: seq<string>)
    requires SpansOk(s, prev, ms) && prev <= |s| && |es| == |ms| && ms != []
    ensures Filled(s, prev, ms, es, table)
      == Append(Append(Restore(s[prev..ms[0].first], table), Some(es[0])),
                Filled(s, ms[0].last, ms[1..], es[1..], table))
  {
  }

  /** Each entry is what is written for its match. */
  predicate EachWritten(s: string, ms: seq<Span>, es: seq<string>, write: Writer) {
    |es| == |ms| && forall i :: 0 <= i < |ms| ==> EntryWritten(s, ms[i], es[i], write)
  }

  predicate EntryWritten(s: string, m: Span, e: string, write: Writer) {
    m.first <= m.last <= |s| && e == write(s[m.first..m.last])
  }

  lemma {:induction false} KeptAre(s: string, prev: nat, ms: seq<Span>, write: Writer)
    requires SpansOk(s, prev, ms)
    ensures EachWritten(s, ms, Kept(s, prev, ms, write), write)
    decreases |ms|
  {
    if ms != [] {
      KeptAre(s, ms[0].last, ms[1..], write);
      var es := Kept(s, prev, ms, write);
      forall i | 0 <= i < |ms| ensures EntryWritten(s, ms[i], es[i], write) {
        if i > 0 {
          assert ms[i] == ms[1..][i - 1] && es[i] == es[1..][i - 1];
        }
      }
    }
  }

  lemma AttributeTag()
    ensures "htmlTagAttr" in TAGS
  {
  }

  /** The text after the attribute pass, restored, is the source with each attribute string as it is written. */
  lemma AttributesRestore(s: string, ms: seq<Span>, write: Writer, table: seq<string>)
    requires SpansOk(s, 0, ms) && Sound(s, |table|)
    ensures var es := Kept(s, 0, ms, write);
            && EachWritten(s, ms, es, write)
            && Restore(Replaced(s, 0, ms, |table|, "htmlTagAttr"), table + es) == Filled(s, 0, ms, es, table)
  {
    AttributeTag();
    hide *;
    var es := Kept(s, 0, ms, write);
    StartIsCut(s);
    KeptAre(s, 0, ms, write);
    ReplacedRestores(s, 0, ms, "htmlTagAttr", table, table, es, table + es);
  }

  /**
    The text after a code span pass, restored, is the source with each span as a
    backtick, its contents restored, and a backtick.
   */
  lemma CodeSpansMean(s: string, ms: seq<Span>, table: seq<string>, originals: seq<string>)
    requires SpansOk(s, 0, ms) && Sound(s, |table|) && CodeEntries(s, ms, table, originals)
    ensures var es := originals[|table|..];
            && |es| == |ms|
            && Restore(Replaced(s, 0, ms, |table|, "codeSpan"), originals) == Filled(s, 0, ms, es, table)
            && forall i :: 0 <= i < |ms| ==>
                 && ms[i].begin <= ms[i].end <= |s|
                 && Some(es[i]) == Append(Append(Some("`"), Restore(s[ms[i].begin..ms[i].end], table)), Some("`"))
  {
    hide Sound, Restore, CutAt, Replaced, Filled;
    var es := originals[|table|..];
    assert table + es == originals;
    StartIsCut(s);
    ReplacedRestores(s, 0, ms, "codeSpan", table, table, es, originals);
    forall i | 0 <= i < |ms|
      ensures ms[i].begin <= ms[i].end <= |s|
      ensures Some(es[i]) == Append(Append(Some("`"), Restore(s[ms[i].begin..ms[i].end], table)), Some("`"))
    {
      var before := originals[..|table| + i];
      assert CodeOriginal(s, ms[i], before, es[i]) && table <= before;
      SpanAt(s, 0, ms, i);
      SoundSlice(s, |table|, ms[i].begin, ms[i].end);
      RestoreWithMore(s[ms[i].begin..ms[i].end], table, before);
    }
  }

  lemma {:induction false} SpanAt(s: string, prev: nat, ms: seq<Span>, i: nat)
    requires SpansOk(s, prev, ms) && i < |ms|
    ensures ms[i].begin <= ms[i].end <= |s| && CutAt(s, ms[i].begin) && CutAt(s, ms[i].end)
    decreases |ms|
  {
    if i > 0 {
      SpanAt(s, ms[0].last, ms[1..], i - 1);
    }
  }

  /** A match of a single-backtick code span: a backtick, the contents, a backtick. */
  predicate SingleQuoted(s: string, m: Span) {
    && m.begin == m.first + 1 && m.end + 1 == m.last && m.last <= |s| && m.first < m.end
    && s[m.first] == '`' && s[m.end] == '`'
  }

  lemma SingleSpanRestores(s: string, prev: nat, m: Span, table: seq<string>, before: seq<string>, entry: string)
    requires SpanOk(s, prev, m) && SingleQuoted(s, m) && Sound(s, |table|) && table <= before
    requires CodeOriginal(s, m, before, entry)
    ensures Restore(s[m.first..m.last], table) == Some(entry)
  {
    hide Sound, Restore;
    var n, inner := |table|, s[m.begin..m.end];
    SoundSlice(s, n, m.begin, m.end);
    MarkFreeIsSound("`");
    SoundMore("`", 0, n);
    assert s[m.first..m.last] == "`" + inner + "`";
    SoundConcat("`", inner, n);
    SoundRestoreConcat("`", inner, n, table);
    SoundRestoreConcat("`" + inner, "`", n, table);
    MarkFreeRestores("`", table);
    RestoreWithMore(inner, table, before);
  }

  /** The pass over single-backtick code spans is undone by restoring with its own entries. */
  lemma {:induction false} CodeSpansRestore(s: string, prev: nat, ms: seq<Span>, table: seq<string>, k: nat,
                                            originals: seq<string>)
    requires Sound(s, |table|) && CutAt(s, prev) && table <= originals && |originals| == |table| + k + |ms|
    requires SpansOk(s, prev, ms) && forall m <- ms :: SingleQuoted(s, m)
    requires forall i :: 0 <= i < |ms| ==>
      CodeOriginal(s, ms[i], originals[..|table| + k + i], originals[|table| + k + i])
    ensures Restore(Replaced(s, prev, ms, |table| + k, "codeSpan"), originals) == Restore(s[prev..], table)
    decreases |ms|
  {
    hide Sound, Restore, CodeOriginal, SpanOk, SingleQuoted, CutAt;
    if ms == [] {
      CutFacts(s, |table|, prev);
      RestoreWithMore(s[prev..], table, originals);
    } else {
      var m, n := ms[0], |table| + k;
      assert m in ms && SpanOk(s, prev, m);
      forall i | 0 <= i < |ms[1..]|
        ensures CodeOriginal(s, ms[1..][i], originals[..|table| + (k + 1) + i], originals[|table| + (k + 1) + i])
      {
        assert ms[1..][i] == ms[i + 1];
      }
      SpanFacts(s, |table|, prev, m);
      CodeSpansRestore(s, m.last, ms[1..], table, k + 1, originals);
      OneSpanRestores(s, prev, m, ms[1..], table, k, originals);
    }
  }

  lemma CutFacts(s: string, n: nat, prev: nat)
    requires Sound(s, n) && CutAt(s, prev)
    ensures prev <= |s| && Sound(s[prev..], n)
  {
    SoundCut(s, n, prev);
  }

  lemma SpanFacts(s: string, n: nat, prev: nat, m: Span)
    requires Sound(s, n) && CutAt(s, prev) && SpanOk(s, prev, m)
    ensures prev <= m.first < m.last <= |s| && CutAt(s, m.last)
    ensures Sound(s[prev..m.first], n) && Sound(s[m.first..m.last], n) && Sound(s[m.last..], n)
  {
    SoundSlice(s, n, prev, m.first);
    SoundSlice(s, n, m.first, m.last);
    SoundCut(s, n, m.last);
  }

  lemma OneSpanRestores(s: string, prev: nat, m: Span, ms: seq<Span>, table: seq<string>, k: nat,
                        originals: seq<string>)
    requires Sound(s, |table|) && CutAt(s, prev) && SpanOk(s, prev, m) && SingleQuoted(s, m)
    requires SpansOk(s, m.last, ms) && table <= originals && |originals| == |table| + k + 1 + |ms|
    requires CodeOriginal(s, m, originals[..|table| + k], originals[|table| + k])
    requires Restore(Replaced(s, m.last, ms, |table| + k + 1, "codeSpan"), originals) == Restore(s[m.last..], table)
    ensures Restore(Replaced(s, prev, [m] + ms, |table| + k, "codeSpan"), originals) == Restore(s[prev..], table)
  {
    hide Sound, Restore, CodeOriginal, SingleQuoted, CutAt;
    var n, all := |table| + k, |originals|;
    var pre, hold := s[prev..m.first], Placeholder(Numeral(n, 10), "codeSpan");
    var rest := Replaced(s, m.last, ms, n + 1, "codeSpan");
    SpanFacts(s, |table|, prev, m);
    SoundMore(pre, |table|, all);
    PlaceholderIsSound(n, "codeSpan", all);
    SoundMore(s, |table|, n + 1);
    ReplacedIsSound(s, m.last, ms, n + 1, "codeSpan");
    assert ([m] + ms)[1..] == ms && Replaced(s, prev, [m] + ms, n, "codeSpan") == pre + hold + rest;
    SoundConcat(pre, hold, all);
    SoundRestoreConcat(pre, hold, all, originals);
    SoundRestoreConcat(pre + hold, rest, all, originals);
    RestoreWithMore(pre, table, originals);
    PlaceholderRestores(n, "codeSpan", originals);
    assert table <= originals[..n];
    SingleSpanRestores(s, prev, m, table, originals[..n], originals[n]);
    var span, tail := s[m.first..m.last], s[m.last..];
    assert s[prev..] == pre + span + tail;
    SoundConcat(pre, span, |table|);
    SoundRestoreConcat(pre, span, |table|, table);
    SoundRestoreConcat(pre + span, tail, |table|, table);
  }

  /** What the pass over links, images and tags makes of a match. */
  datatype LinkMatch =
    | Unresolved(first: nat)
    | Image(first: nat, last: nat)
    | Link(first: nat, last: nat, begin: nat, end: nat)
    | HtmlTag(first: nat, last: nat, begin: nat, end: nat)
    | Other(first: nat, last: nat)
  {
    /** The search goes on after an unresolved match's first character, else after the match. */
    function Next(): nat { if Unresolved? then first + 1 else last }

    function Entries(): nat { if Link? then 2 else 1 }

    predicate Ok(s: string, prev: nat) {
      && prev <= first < Next() <= |s| && CutAt(s, first) && CutAt(s, Next())
      && ((Link? || HtmlTag?) ==> first <= begin <= end <= last && CutAt(s, begin) && CutAt(s, end))
    }

    function Written(s: string, n: nat): string
      requires first < Next() <= |s| && (Link? ==> begin <= end <= |s|)
    {
      Placeholder(Numeral(n, 10), "links&Images1")
      + (if Link? then s[begin..end] + Placeholder(Numeral(n + 1, 10), "links&Images2") else "")
    }
  }

  predicate LinksOk(s: string, prev: nat, ms: seq<LinkMatch>)
    decreases |ms|
  {
    ms == [] || (ms[0].Ok(s, prev) && LinksOk(s, ms[0].Next(), ms[1..]))
  }

  lemma LinkIsSound(s: string, prev: nat, m: LinkMatch, k: nat, n: nat)
    requires Sound(s, k) && m.Ok(s, prev) && CutAt(s, prev) && k <= n
    ensures Sound(s[prev..m.first] + m.Written(s, n), n + m.Entries())
  {
    hide Sound;
    var all := n + m.Entries();
    SoundSlice(s, k, prev, m.first);
    SoundMore(s[prev..m.first], k, all);
    var one := Placeholder(Numeral(n, 10), "links&Images1");
    PlaceholderIsSound(n, "links&Images1", all);
    if m.Link? {
      SoundSlice(s, k, m.begin, m.end);
      SoundMore(s[m.begin..m.end], k, all);
      var two := Placeholder(Numeral(n + 1, 10), "links&Images2");
      PlaceholderIsSound(n + 1, "links&Images2", all);
      SoundConcat(s[m.begin..m.end], two, all);
      SoundConcat(one, s[m.begin..m.end] + two, all);
    } else {
      assert one + "" == one;
    }
    SoundConcat(s[prev..m.first], m.Written(s, n), all);
  }

  /** The text with each match replaced by its placeholders, numbered from `n`. */
  function Linked(s: string, prev: nat, ms: seq<LinkMatch>, n: nat): string
    requires LinksOk(s, prev, ms) && prev <= |s|
    decreases |ms|
  {
    if ms == [] then s[prev..]
    else s[prev..ms[0].first] + ms[0].Written(s, n) + Linked(s, ms[0].Next(), ms[1..], n + ms[0].Entries())
  }

  /** The entries made for a match when the table holds `table`: the contents of a tag are restored from it. */
  function EntriesOf(s: string, m: LinkMatch, write: Writer, table: seq<string>): seq<string>
    requires m.first < m.Next() <= |s| && (m.HtmlTag? ==> m.begin <= m.end <= |s|)
  {
    match m
    case Link(first, last, _, _) => [write(s[first..last]), write("/a")]
    case HtmlTag(_, _, begin, end) =>
      (match Restore(s[begin..end], table)
       case Some(contents) => [write(contents)]
       case None => [])
    case _ => [write(s[m.first..m.Next()])]
  }

  function LinkTable(s: string, prev: nat, ms: seq<LinkMatch>, write: Writer, table: seq<string>): (r: seq<string>)
    requires LinksOk(s, prev, ms)
    ensures table <= r
    decreases |ms|
  {
    if ms == [] then table
    else LinkTable(s, ms[0].Next(), ms[1..], write, table + EntriesOf(s, ms[0], write, table))
  }

  function EntryCount(ms: seq<LinkMatch>): nat {
    if ms == [] then 0 else ms[0].Entries() + EntryCount(ms[1..])
  }

  /** Replacing links, images and tags keeps the text sound for the longer table. */
  lemma {:induction false} LinkedIsSound(s: string, prev: nat, ms: seq<LinkMatch>, k: nat, n: nat)
    requires LinksOk(s, prev, ms) && CutAt(s, prev) && Sound(s, k) && k <= n
    ensures Sound(Linked(s, prev, ms, n), n + EntryCount(ms))
    decreases |ms|
  {
    hide Sound, CutAt;
    if ms == [] {
      CutFacts(s, k, prev);
      SoundMore(s[prev..], k, n);
    } else {
      var m, all := ms[0], n + EntryCount(ms);
      LinkedIsSound(s, m.Next(), ms[1..], k, n + m.Entries());
      LinkIsSound(s, prev, m, k, n);
      SoundMore(s[prev..m.first] + m.Written(s, n), n + m.Entries(), all);
      SoundConcat(s[prev..m.first] + m.Written(s, n), Linked(s, m.Next(), ms[1..], n + m.Entries()), all);
    }
  }

  /** Taking the contents of a tag out never fails. */
  method TakeOut(src: string, m: LinkMatch, k: nat, write: Writer, table: seq<string>) returns (entries: seq<string>)
    requires m.Ok(src, 0) && Sound(src, k) && k <= |table|
    ensures entries == EntriesOf(src, m, write, table) && |entries| == m.Entries()
  {
    hide Sound, CutAt, Restore;
    match m {
      case Link(first, last, _, _) => entries := [write(src[first..last]), write("/a")];
      case HtmlTag(_, _, begin, end) =>
        SoundSlice(src, k, begin, end);
        SoundMore(src[begin..end], k, |table|);
        SoundRestores(src[begin..end], table);
        var contents := RestoreProcessedItems(src[begin..end], table);
        entries := [write(contents.value)];
      case _ => entries := [write(src[m.first..m.Next()])];
    }
  }

  /** The pass over links, images and tags. */
  method ProcessLinksImagesAndTags(src: string, ms: seq<LinkMatch>, write: Writer, table: seq<string>)
    returns (tgt: string, originals: seq<string>)
    requires LinksOk(src, 0, ms) && Sound(src, |table|)
    ensures tgt == Linked(src, 0, ms, |table|) && Sound(tgt, |originals|)
    ensures originals == LinkTable(src, 0, ms, write, table) && |originals| == |table| + EntryCount(ms)
    ensures Restore(tgt, originals) == Meaning(src, 0, ms, write, table)
  {
    hide Sound, CutAt, Restore, EntriesOf, LinkMatch.Written, Meaning;
    tgt, originals := "", table;
    var prev: nat := 0;
    ghost var whole := Linked(src, 0, ms, |table|);
    assert ms[0..] == ms && "" + whole == whole;
    for i := 0 to |ms|
      invariant prev <= |src| && LinksOk(src, prev, ms[i..]) && |table| <= |originals|
      invariant tgt + Linked(src, prev, ms[i..], |originals|) == whole
      invariant LinkTable(src, prev, ms[i..], write, originals) == LinkTable(src, 0, ms, write, table)
      invariant |originals| + EntryCount(ms[i..]) == |table| + EntryCount(ms)
    {
      var m := ms[i];
      assert ms[i..][0] == m && ms[i..][1..] == ms[i + 1..];
      LinkNext(tgt, src, prev, ms[i..], |originals|);
      tgt := tgt + src[prev..m.first];
      tgt := tgt + m.Written(src, |originals|);
      var entries := TakeOut(src, m, |table|, write, originals);
      originals := originals + entries;
      prev := m.Next();
    }
    assert ms[|ms|..] == [];
    tgt := tgt + src[prev..];
    StartIsCut(src);
    LinkedIsSound(src, 0, ms, |table|, |table|);
    LinkedRestores(src, 0, ms, write, table, table);
  }

  /** What one match means: its entries, and for a link its contents between them. */
  function MatchMeaning(s: string, m: LinkMatch, write: Writer, table: seq<string>): Option<string>
    requires m.Ok(s, 0)
  {
    match m
    case Unresolved(first) => Some(write([s[first]]))
    case Image(first, last) => Some(write(s[first..last]))
    case Link(first, last, begin, end) =>
      Append(Some(write(s[first..last])), Append(Restore(s[begin..end], table), Some(write("/a"))))
    case HtmlTag(_, _, begin, end) =>
      (match Restore(s[begin..end], table)
       case Some(contents) => Some(write(contents))
       case None => None)
    case Other(first, last) => Some(write(s[first..last]))
  }

  /**
    What the text means after the pass, match by match: the text before the
    match, what the match means, and so on from the end of the match, or from
    its second character when it was not resolved.
   */
  function Meaning(s: string, prev: nat, ms: seq<LinkMatch>, write: Writer, table: seq<string>): Option<string>
    requires LinksOk(s, prev, ms) && prev <= |s|
    decreases |ms|
  {
    if ms == [] then Restore(s[prev..], table)
    else
      var m := ms[0];
      Append(Append(Restore(s[prev..m.first], table), MatchMeaning(s, m, write, table)),
             Meaning(s, if m.Unresolved? then m.first + 1 else m.last, ms[1..], write, table))
  }

  /** The placeholders written for a match are restored to what the match means. */
  lemma WrittenRestores(s: string, m: LinkMatch, write: Writer, table: seq<string>, before: seq<string>,
                        originals: seq<string>)
    requires m.Ok(s, 0) && Sound(s, |table|) && table <= before && before + EntriesOf(s, m, write, before) <= originals
    ensures |EntriesOf(s, m, write, before)| == m.Entries()
    ensures Restore(m.Written(s, |before|), originals) == MatchMeaning(s, m, write, table)
    ensures Sound(m.Written(s, |before|), |originals|)
  {
    hide Sound, CutAt, Restore, Placeholder, Numeral, LinkMatch.Ok;
    ContentsRestore(s, m, table, before, originals);
    MatchBounds(s, m);
    if m.Link? {
      LinkRestores(s[m.begin..m.end], |before|, originals);
    } else {
      OneRestores(s, m, write, table, before, originals);
    }
  }

  lemma OneRestores(s: string, m: LinkMatch, write: Writer, table: seq<string>, before: seq<string>,
                    originals: seq<string>)
    requires m.Ok(s, 0) && !m.Link? && before + EntriesOf(s, m, write, before) <= originals
    requires m.HtmlTag? ==>
      Restore(s[m.begin..m.end], before) == Restore(s[m.begin..m.end], table) && Restore(s[m.begin..m.end], table).Some?
    ensures |EntriesOf(s, m, write, before)| == m.Entries()
    ensures Restore(m.Written(s, |before|), originals) == MatchMeaning(s, m, write, table)
    ensures Sound(m.Written(s, |before|), |originals|)
  {
    hide Sound, Restore, Placeholder, Numeral, EntriesOf, MatchMeaning, LinkMatch.Ok;
    MatchBounds(s, m);
    EntryIsMeaning(s, m, write, table, before);
    assert originals[|before|] == EntriesOf(s, m, write, before)[0];
    EntryRestores(|before|, "links&Images1", originals);
    var one := Placeholder(Numeral(|before|, 10), "links&Images1");
    assert one + "" == one;
  }

  lemma EntryIsMeaning(s: string, m: LinkMatch, write: Writer, table: seq<string>, before: seq<string>)
    requires m.Ok(s, 0) && !m.Link?
    requires m.HtmlTag? ==>
      Restore(s[m.begin..m.end], before) == Restore(s[m.begin..m.end], table) && Restore(s[m.begin..m.end], table).Some?
    ensures var es := EntriesOf(s, m, write, before);
            |es| == 1 && m.Entries() == 1 && MatchMeaning(s, m, write, table) == Some(es[0])
  {
    hide Restore, CutAt;
    assert m.Unresolved? ==> s[m.first..m.first + 1] == [s[m.first]];
  }

  lemma MatchBounds(s: string, m: LinkMatch)
    requires m.Ok(s, 0)
    ensures m.first < m.Next() <= |s| && (m.Link? || m.HtmlTag? ==> m.begin <= m.end <= |s|)
  {
  }

  lemma EntryRestores(k: nat, tag: string, originals: seq<string>)
    requires k < |originals| && tag in TAGS
    ensures Sound(Placeholder(Numeral(k, 10), tag), |originals|)
    ensures Restore(Placeholder(Numeral(k, 10), tag), originals) == Some(originals[k])
  {
    PlaceholderIsSound(k, tag, |originals|);
    PlaceholderRestores(k, tag, originals);
  }

  lemma LinkRestores(inner: string, n: nat, originals: seq<string>)
    requires Sound(inner, |originals|) && n + 1 < |originals|
    ensures var text := Placeholder(Numeral(n, 10), "links&Images1")
                        + (inner + Placeholder(Numeral(n + 1, 10), "links&Images2"));
            && Sound(text, |originals|)
            && Restore(text, originals)
               == Append(Some(originals[n]), Append(Restore(inner, originals), Some(originals[n + 1])))
  {
    hide Sound, Restore, Placeholder, Numeral;
    var one, two := Placeholder(Numeral(n, 10), "links&Images1"), Placeholder(Numeral(n + 1, 10), "links&Images2");
    EntryRestores(n, "links&Images1", originals);
    EntryRestores(n + 1, "links&Images2", originals);
    SoundConcat(inner, two, |originals|);
    SoundRestoreConcat(inner, two, |originals|, originals);
    SoundConcat(one, inner + two, |originals|);
    SoundRestoreConcat(one, inner + two, |originals|, originals);
  }

  /** Contents of a match are restored alike from the tables before, during and after the pass. */
  lemma ContentsRestore(s: string, m: LinkMatch, table: seq<string>, before: seq<string>, originals: seq<string>)
    requires m.Ok(s, 0) && Sound(s, |table|) && table <= before <= originals
    ensures m.Link? || m.HtmlTag? ==>
      var inner := s[m.begin..m.end];
      && Sound(inner, |originals|) && Restore(inner, table).Some?
      && Restore(inner, before) == Restore(inner, table) == Restore(inner, originals)
  {
    hide Sound, CutAt, Restore;
    if m.Link? || m.HtmlTag? {
      var inner := s[m.begin..m.end];
      SoundSlice(s, |table|, m.begin, m.end);
      SoundRestores(inner, table);
      RestoreWithMore(inner, table, before);
      RestoreWithMore(inner, table, originals);
      SoundMore(inner, |table|, |originals|);
    }
  }

  /** The text after the pass, restored from the final table, is what it means. */
  lemma {:induction false} LinkedRestores(s: string, prev: nat, ms: seq<LinkMatch>, write: Writer,
                                          table: seq<string>, before: seq<string>)
    requires LinksOk(s, prev, ms) && CutAt(s, prev) && Sound(s, |table|) && table <= before
    ensures |LinkTable(s, prev, ms, write, before)| == |before| + EntryCount(ms)
    ensures prev <= |s| && Restore(Linked(s, prev, ms, |before|), LinkTable(s, prev, ms, write, before))
                           == Meaning(s, prev, ms, write, table)
    decreases |ms|
  {
    hide Sound, CutAt, Restore, EntriesOf, LinkMatch.Written, MatchMeaning;
    CutInEmpty(s, prev);
    var originals := LinkTable(s, prev, ms, write, before);
    if ms == [] {
      CutFacts(s, |table|, prev);
      RestoreWithMore(s[prev..], table, originals);
    } else {
      var m := ms[0];
      var next := before + EntriesOf(s, m, write, before);
      WrittenRestores(s, m, write, table, before, originals);
      LinkedRestores(s, m.Next(), ms[1..], write, table, next);
      var pre, mid, rest := s[prev..m.first], m.Written(s, |before|), Linked(s, m.Next(), ms[1..], |next|);
      SoundSlice(s, |table|, prev, m.first);
      RestoreWithMore(pre, table, originals);
      SoundMore(pre, |table|, |originals|);
      LinkedIsSound(s, m.Next(), ms[1..], |table|, |next|);
      SoundConcat(pre, mid, |originals|);
      SoundRestoreConcat(pre, mid, |originals|, originals);
      SoundRestoreConcat(pre + mid, rest, |originals|, originals);
    }
  }

  lemma LinkNext(tgt: string, s: string, prev: nat, ms: seq<LinkMatch>, n: nat)
    requires LinksOk(s, prev, ms) && prev <= |s| && ms != []
    ensures tgt + Linked(s, prev, ms, n) ==
      tgt + s[prev..ms[0].first] + ms[0].Written(s, n) + Linked(s, ms[0].Next(), ms[1..], n + ms[0].Entries())
  {
  }

  /** Expressions whose matches end on delimiters, whatever the text. */
  ghost predicate Matchers(html: string -> seq<Span>, code: (string, nat) -> seq<Span>,
                           links: string -> seq<LinkMatch>) {
    && (forall s :: SpansOk(s, 0, html(s)))
    && (forall s, pass :: SpansOk(s, 0, code(s, pass)))
    && forall s :: LinksOk(s, 0, links(s))
  }

  /** The text after both passes over code spans; `n` is the number of entries before them. */
  ghost function CodeReplaced(src: string, code: (string, nat) -> seq<Span>, n: nat): string
    requires forall s, pass :: SpansOk(s, 0, code(s, pass))
  {
    var s := Replaced(src, 0, code(src, 0), n, "codeSpan");
    Replaced(s, 0, code(s, 1), n + |code(src, 0)|, "codeSpan")
  }

  /** Both passes over code spans; the table only grows. */
  method ProcessCodeSpans(src: string, code: (string, nat) -> seq<Span>, table: seq<string>)
    returns (tgt: string, originals: seq<string>)
    requires Sound(src, |table|) && forall s, pass :: SpansOk(s, 0, code(s, pass))
    ensures tgt == CodeReplaced(src, code, |table|) && Sound(tgt, |originals|)
    ensures table <= originals && |originals| == |table| + CodeEntryCount(src, code, |table|)
  {
    hide Sound, CutAt, SpansOk, Replaced, CodeOriginal;
    tgt, originals := CodeSpanPass(src, code(src, 0), table);
    tgt, originals := CodeSpanPass(tgt, code(tgt, 1), originals);
  }

  /** The working text after the passes, each seeing what the ones before it left. */
  ghost function Passes(src: string, html: string -> seq<Span>, code: (string, nat) -> seq<Span>,
                        links: string -> seq<LinkMatch>): string
    requires Matchers(html, code, links)
  {
    var s1 := Replaced(src, 0, html(src), 0, "htmlTagAttr");
    var s2 := Escape(CodeReplaced(s1, code, |html(src)|));
    Linked(s2, 0, links(s2), |html(src)| + CodeEntryCount(s1, code, |html(src)|))
  }

  /** How many code spans the two passes take out. */
  ghost function CodeEntryCount(src: string, code: (string, nat) -> seq<Span>, n: nat): nat
    requires forall s, pass :: SpansOk(s, 0, code(s, pass))
  {
    |code(src, 0)| + |code(Replaced(src, 0, code(src, 0), n, "codeSpan"), 1)|
  }

  /**
    The passes one after the other, for any expressions whose matches end on
    delimiters: the placeholders of the final text are whole and refer to
    entries of the final table.
   */
  method ProcessSpanElements(src: string, html: string -> seq<Span>, code: (string, nat) -> seq<Span>,
                             links: string -> seq<LinkMatch>, write: Writer)
    returns (w: string, originals: seq<string>)
    requires MARK !in src && Matchers(html, code, links)
    ensures w == Passes(src, html, code, links) && Sound(w, |originals|)
  {
    hide Sound, CutAt, SpansOk, LinksOk, Replaced, Linked, LinkTable, CodeReplaced, CodeEntryCount, Restore;
    MarkFreeIsSound(src);
    StartIsCut(src);
    w, originals := ProcessHtmlTagAttributes(src, html(src), write, []);
    ReplacedIsSound(src, 0, html(src), 0, "htmlTagAttr");
    w, originals := ProcessCodeSpans(w, code, originals);
    EscapeThenRestore(w, originals);
    w := ProcessEscapedCharacters(w);
    w, originals := ProcessLinksImagesAndTags(w, links(w), write, originals);
  }
}
