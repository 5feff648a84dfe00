/**
  Splitting the final working text into tokens, and what that makes of escaped
  characters: the text is seen as characters, escaped characters and entries.
 */
module InlineTokens {
  import opened Wrappers
  import opened Entities
  import opened Placeholders
  import opened EscapeRestore
  import opened SpanPasses

  datatype Item = Raw(text: string) | Escaped(c: char) | Entry(n: nat)

  /** What items write as original. */
  function Originals(items: seq<Item>, originals: seq<string>): Option<string> {
    if items == [] then Some("")
    else
      Append(Originals(items[..|items| - 1], originals),
             match items[|items| - 1]
             case Raw(t) => Some(t)
             case Escaped(c) => Some(['\\', c])
             case Entry(n) => if n < |originals| then Some(originals[n]) else None)
  }

  predicate DigitsOnly(ref: string) {
    ref != "" ==> forall c <- (if ref[0] == '#' then ref[1..] else ref) :: IsDigit(c, 10) && IsDigit(c, 16)
  }

  /** The token that a reference stands for. */
  function ItemOf(ref: string): seq<Item>
    requires DigitsOnly(ref)
  {
    if ref == "" then []
    else if ref[0] == '#' then
      var n := Value(ref[1..], 10);
      if n < |ESCAPED_CHARACTERS| then [Escaped(ESCAPED_CHARACTERS[n])] else []
    else [Entry(Value(ref, 10))]
  }

  /** The smallest parts of a text: a character as it is, an escaped one, a reference to an entry of the table. */
  datatype Atom = Plainly(c: char) | Literally(c: char) | Ref(n: nat)

  function Chars(t: string): seq<Atom> { seq(|t|, i requires 0 <= i < |t| => Plainly(t[i])) }

  function Atoms(items: seq<Item>): seq<Atom> {
    if items == [] then []
    else
      Atoms(items[..|items| - 1]) +
      (match items[|items| - 1]
       case Raw(t) => Chars(t)
       case Escaped(c) => [Literally(c)]
       case Entry(n) => [Ref(n)])
  }

  function AtomsOfRef(ref: string): seq<Atom> {
    if ref == "" || !DigitsOnly(ref) then []
    else if ref[0] == '#' then
      var n := Value(ref[1..], 10);
      if n < |ESCAPED_CHARACTERS| then [Literally(ESCAPED_CHARACTERS[n])] else []
    else [Ref(Value(ref, 10))]
  }

  /** The atoms of a text with placeholders. */
  function AtomsOf(s: string): seq<Atom>
    decreases |s|
  {
    if s == "" then []
    else
      var m := MatchAt(s);
      if m.Match? then AtomsOfRef(m.ref) + AtomsOf(s[m.length..]) else [Plainly(s[0])] + AtomsOf(s[1..])
  }

  lemma CharAtom(s: string, p: nat, q: nat)
    requires p < q <= |s| && MatchAt(s[p..]).NoMatch?
    ensures AtomsOf(s[p..]) == [Plainly(s[p])] + AtomsOf(s[p + 1..])
    ensures Chars(s[p..q]) == [Plainly(s[p])] + Chars(s[p + 1..q])
  {
    hide MatchAt;
    assert s[p..][0] == s[p] && s[p..][1..] == s[p + 1..];
  }

  lemma NoChars(t: string)
    requires t == ""
    ensures Chars(t) == []
  {
  }

  lemma {:induction false} CharsAreAtoms(s: string, p: nat, q: nat)
    requires p <= q <= |s| && forall k :: p <= k < q ==> MatchAt(s[k..]).NoMatch?
    ensures AtomsOf(s[p..]) == Chars(s[p..q]) + AtomsOf(s[q..])
    decreases q - p
  {
    hide MatchAt, AtomsOf, Chars;
    if p == q {
      NoChars(s[p..q]);
    } else {
      CharAtom(s, p, q);
      CharsAreAtoms(s, p + 1, q);
      Regroup([Plainly(s[p])], Chars(s[p + 1..q]), AtomsOf(s[q..]));
    }
  }

  lemma AtomsSnoc(items: seq<Item>, i: Item)
    ensures Atoms(items + [i]) ==
      Atoms(items) + (match i case Raw(t) => Chars(t) case Escaped(c) => [Literally(c)] case Entry(n) => [Ref(n)])
    ensures i == Raw("") ==> Atoms(items) + Chars("") == Atoms(items)
  {
    assert (items + [i])[..|items|] == items;
  }

  lemma AtomsFirst(s: string)
    requires MatchAt(s).Match?
    ensures AtomsOf(s) == AtomsOfRef(MatchAt(s).ref) + AtomsOf(s[MatchAt(s).length..])
  {
    hide MatchAt, AtomsOfRef;
  }

  lemma AtomsMatch(src: string, at: nat)
    requires at < |src| && MatchAt(src[at..]).Match?
    ensures var m := MatchAt(src[at..]); AtomsOf(src[at..]) == AtomsOfRef(m.ref) + AtomsOf(src[at + m.length..])
  {
    AtomsFirst(src[at..]);
    hide AtomsOf, MatchAt, AtomsOfRef;
    var m := MatchAt(src[at..]);
    assert src[at..][m.length..] == src[at + m.length..];
  }

  lemma ReferenceAtoms(items: seq<Item>, ref: string)
    requires DigitsOnly(ref)
    ensures Atoms(items + ItemOf(ref)) == Atoms(items) + AtomsOfRef(ref)
  {
    var more := ItemOf(ref);
    if more == [] {
      assert items + more == items && Atoms(items) + [] == Atoms(items);
    } else {
      assert items + more == items + [more[0]];
      AtomsSnoc(items, more[0]);
    }
  }

  lemma NothingLeft(s: string)
    requires s == ""
    ensures AtomsOf(s) == []
  {
  }

  /**
    Splits a text into tokens at its placeholders. It fails exactly where
    restoring the text fails, and otherwise its tokens written as originals are
    the restored text.
   */
  method EncodeProcessedItems(src: string, originals: seq<string>) returns (r: Option<seq<Item>>)
    ensures r.None? <==> Restore(src, originals).None?
    ensures r.Some? ==> Originals(r.value, originals) == Restore(src, originals)
    ensures r.Some? ==> Atoms(r.value) == AtomsOf(src) && forall i <- r.value :: i.Raw? ==> i.text != ""
  {
    hide Restore, Original, Originals, MatchAt, Atoms, AtomsOf, SplitAt;
    var items: seq<Item> := [];
    var prev := 0;
    assert src[0..] == src;
    NoItems(originals);
    SplitStarts(src);
    AppendNothing(Restore(src, originals));
    while true
      invariant 0 <= prev <= |src|
      invariant Restore(src, originals) == Append(Originals(items, originals), Restore(src[prev..], originals))
      invariant Originals(items, originals).Some?
      invariant SplitAt(src, items, prev)
      decreases |src| - prev
    {
      var at := FindPlaceholder(src, prev);
      CharsAreRestored(src, prev, at, originals);
      AppendIsAssociative(Originals(items, originals), Some(src[prev..at]), Restore(src[at..], originals));
      RawItem(items, src[prev..at], originals);
      SplitChars(src, items, prev, at);
      if prev != at {
        items := items + [Raw(src[prev..at])];
      }
      if at == |src| {
        RestoreNothing(src, at, originals);
        AppendEmpty(Originals(items, originals));
        SplitEnds(src, items);
        return Some(items);
      }
      var m := MatchAt(src[at..]);
      RestoreMatch(src, at, originals);
      if Original(m.ref, originals).None? {
        return None;
      }
      ReferenceItem(items, m.ref, originals);
      ghost var rest := Restore(src[at + m.length..], originals);
      AppendIsAssociative(Originals(items, originals), Original(m.ref, originals), rest);
      SplitRef(src, items, at);
      items := items + ItemOf(m.ref);
      prev := at + m.length;
    }
  }

  /** The tokens so far are the text up to `prev`; no text token is empty. */
  predicate SplitAt(src: string, items: seq<Item>, prev: nat) {
    && prev <= |src| && AtomsOf(src) == Atoms(items) + AtomsOf(src[prev..])
    && forall i <- items :: i.Raw? ==> i.text != ""
  }

  lemma SplitStarts(src: string)
    ensures SplitAt(src, [], 0)
  {
    assert src[0..] == src;
  }

  lemma SplitEnds(src: string, items: seq<Item>)
    requires SplitAt(src, items, |src|)
    ensures AtomsOf(src) == Atoms(items) && forall i <- items :: i.Raw? ==> i.text != ""
  {
    NothingLeft(src[|src|..]);
  }

  lemma SplitChars(src: string, items: seq<Item>, prev: nat, at: nat)
    requires SplitAt(src, items, prev) && prev <= at <= |src|
    requires forall k :: prev <= k < at ==> MatchAt(src[k..]).NoMatch?
    ensures SplitAt(src, if prev != at then items + [Raw(src[prev..at])] else items, at)
  {
    hide AtomsOf, Atoms, MatchAt;
    if prev != at {
      CharsAreAtoms(src, prev, at);
      AtomsSnoc(items, Raw(src[prev..at]));
      Regroup(Atoms(items), Chars(src[prev..at]), AtomsOf(src[at..]));
    }
  }

  lemma Regroup<T>(a: seq<T>, b: seq<T>, c: seq<T>)
    ensures a + (b + c) == a + b + c
  {
  }

  lemma SplitRef(src: string, items: seq<Item>, at: nat)
    requires SplitAt(src, items, at) && at < |src| && MatchAt(src[at..]).Match?
    requires DigitsOnly(MatchAt(src[at..]).ref)
    ensures var m := MatchAt(src[at..]); SplitAt(src, items + ItemOf(m.ref), at + m.length)
  {
    hide AtomsOf, Atoms, MatchAt, AtomsOfRef;
    var m := MatchAt(src[at..]);
    AtomsMatch(src, at);
    ReferenceAtoms(items, m.ref);
    Regroup(Atoms(items), AtomsOfRef(m.ref), AtomsOf(src[at + m.length..]));
  }

  lemma NoItems(originals: seq<string>)
    ensures Originals([], originals) == Some("")
  {
  }

  lemma AppendEmpty(a: Option<string>)
    ensures Append(a, Some("")) == a
  {
    if a.Some? {
      assert a.value + "" == a.value;
    }
  }

  lemma RestoreNothing(src: string, at: nat, originals: seq<string>)
    requires at == |src|
    ensures Restore(src[at..], originals) == Some("")
  {
  }

  lemma RawItem(items: seq<Item>, t: string, originals: seq<string>)
    ensures Originals(items + [Raw(t)], originals) == Append(Originals(items, originals), Some(t))
    ensures t == "" ==> Originals(items, originals) == Append(Originals(items, originals), Some(t))
  {
    assert (items + [Raw(t)])[..|items|] == items;
    AppendEmpty(Originals(items, originals));
  }

  lemma ReferenceItem(items: seq<Item>, ref: string, originals: seq<string>)
    requires Original(ref, originals).Some? && Originals(items, originals).Some?
    ensures DigitsOnly(ref)
    ensures Originals(items + ItemOf(ref), originals) == Append(Originals(items, originals), Original(ref, originals))
    ensures Originals(items + ItemOf(ref), originals).Some?
  {
    var more := ItemOf(ref);
    if more == [] {
      assert items + more == items;
      AppendEmpty(Originals(items, originals));
    } else {
      assert (items + more)[..|items|] == items && (items + more)[|items|] == more[0];
    }
  }

  /** A character other than the mark stands for itself. */
  lemma CharacterAtom(c: char, t: string)
    requires c != MARK
    ensures AtomsOf([c] + t) == [Plainly(c)] + AtomsOf(t)
  {
    assert ([c] + t)[1..] == t;
  }

  /** A numbered placeholder stands for that entry. */
  lemma EntryAtom(k: nat, tag: string, t: string)
    requires tag in TAGS
    ensures AtomsOf(Placeholder(Numeral(k, 10), tag) + t) == [Ref(k)] + AtomsOf(t)
  {
    hide MatchAt;
    var ref, p := Numeral(k, 10), Placeholder(Numeral(k, 10), tag);
    NumeralValue(k, 10);
    assert RefOk(ref, k + 1);
    PlaceholderMatches(ref, tag, k + 1, t);
    assert ref[0] in ref && (p + t)[|p|..] == t;
  }

  /** An escape placeholder stands for its character. */
  lemma EscapeAtom(e: nat, t: string)
    requires e < |ESCAPED_CHARACTERS|
    ensures AtomsOf(Placeholder("#" + Numeral(e, 10), "escaped") + t)
         == [Literally(ESCAPED_CHARACTERS[e])] + AtomsOf(t)
  {
    hide MatchAt;
    var ref := "#" + Numeral(e, 10);
    var p := Placeholder(ref, "escaped");
    NumeralValue(e, 10);
    assert RefOk(ref, 0);
    PlaceholderMatches(ref, "escaped", 0, t);
    assert ref[1..] == Numeral(e, 10) && (p + t)[|p|..] == t;
  }

  /** The characters that a backslash escapes. */
  predicate Escapable(c: char) {
    c in {'\\', '`', '*', '_', '{', '}', '[', ']', '(', ')', '#', '+', '-', '.', '!', '>'}
  }

  /** What a text without marks means: a backslash and an escapable character are that character, taken literally. */
  function Unescaped(s: string): seq<Atom>
    decreases |s|
  {
    if s == "" then []
    else if s[0] == '\\' && |s| > 1 then
      (if Escapable(s[1]) then [Literally(s[1])] else [Plainly('\\'), Plainly(s[1])]) + Unescaped(s[2..])
    else [Plainly(s[0])] + Unescaped(s[1..])
  }

  lemma EscapableIndex(c: char)
    ensures Escapable(c) <==> EscapeIndex(c).Some?
  {
    assert ESCAPED_CHARACTERS == ['\\', '`', '*', '_', '{', '}', '[', ']', '(', ')', '#', '+', '-', '.', '!', '>'];
  }

  /** Escaping a text and splitting it into tokens gives what the text means. */
  lemma {:induction false} EscapedMeaning(s: string)
    requires MARK !in s
    ensures AtomsOf(Escape(s)) == Unescaped(s)
    decreases |s|
  {
    hide MatchAt, AtomsOf, EscapePair, Escapable;
    if s == "" {
      NothingLeft("");
    } else if s[0] != '\\' {
      assert s[0] in s && forall c <- s[1..] :: c in s;
      EscapedMeaning(s[1..]);
      CharacterAtom(s[0], Escape(s[1..]));
    } else if |s| == 1 {
      NothingLeft("");
      CharacterAtom('\\', "");
      assert "\\" == ['\\'] + "" && s[1..] == "";
    } else {
      assert s[1] in s && forall c <- s[2..] :: c in s;
      EscapedMeaning(s[2..]);
      hide Escape, Unescaped;
      EscapeTwo(s);
      PairMeaning(s[1], Escape(s[2..]));
    }
  }

  lemma EscapeTwo(s: string)
    requires |s| > 1 && s[0] == '\\'
    ensures Escape(s) == EscapePair(s[1]) + Escape(s[2..])
    ensures Unescaped(s) ==
      (if Escapable(s[1]) then [Literally(s[1])] else [Plainly('\\'), Plainly(s[1])]) + Unescaped(s[2..])
  {
    hide EscapePair;
  }

  lemma PairMeaning(c: char, rest: string)
    requires c != MARK
    ensures AtomsOf(EscapePair(c) + rest) ==
      (if Escapable(c) then [Literally(c)] else [Plainly('\\'), Plainly(c)]) + AtomsOf(rest)
  {
    hide MatchAt, AtomsOf, Placeholder, Numeral;
    EscapableIndex(c);
    if Escapable(c) {
      EscapeAtom(EscapeIndex(c).value, rest);
    } else {
      CharacterAtom(c, rest);
      CharacterAtom('\\', [c] + rest);
      assert ['\\', c] + rest == ['\\'] + ([c] + rest);
    }
  }

  /** Every stretch of the final text between emphasis markers is split into tokens without a failing assertion. */
  lemma StretchIsSafe(w: string, originals: seq<string>, i: nat, j: nat)
    requires Sound(w, |originals|) && i <= j && CutAt(w, i) && CutAt(w, j)
    ensures Restore(w[i..j], originals).Some?
  {
    SoundSlice(w, |originals|, i, j);
    SoundRestores(w[i..j], originals);
  }

  /** Where no expression matches, the passes only escape, so the tokens are what the source means. */
  lemma PlainSource(src: string, html: string -> seq<Span>, code: (string, nat) -> seq<Span>,
                    links: string -> seq<LinkMatch>)
    requires MARK !in src && Matchers(html, code, links)
    requires html(src) == [] && code(src, 0) == [] && code(src, 1) == [] && links(Escape(src)) == []
    ensures AtomsOf(Passes(src, html, code, links)) == Unescaped(src)
  {
    hide AtomsOf, Unescaped, Escape;
    assert src[0..] == src;
    assert CodeReplaced(src, code, 0) == src;
    assert Escape(src)[0..] == Escape(src);
    EscapedMeaning(src);
  }

  /** Each pass acts where the others find nothing; escaping comes after code spans and before links. */
  lemma PassesAlone(src: string, html: string -> seq<Span>, code: (string, nat) -> seq<Span>,
                    links: string -> seq<LinkMatch>)
    requires Matchers(html, code, links)
    ensures (forall s, pass :: code(s, pass) == []) && (forall s :: links(s) == []) ==>
      Passes(src, html, code, links) == Escape(Replaced(src, 0, html(src), 0, "htmlTagAttr"))
    ensures html(src) == [] && (forall s :: links(s) == []) && (forall s :: code(s, 1) == []) ==>
      Passes(src, html, code, links) == Escape(Replaced(src, 0, code(src, 0), 0, "codeSpan"))
    ensures html(src) == [] && (forall s :: links(s) == []) && code(src, 0) == [] ==>
      Passes(src, html, code, links) == Escape(Replaced(src, 0, code(src, 1), 0, "codeSpan"))
    ensures html(src) == [] && (forall s, pass :: code(s, pass) == []) ==>
      Passes(src, html, code, links) == Linked(Escape(src), 0, links(Escape(src)), 0)
  {
    hide Escape, Placeholder, Numeral;
    assert forall s: string :: s[0..] == s;
  }
}
