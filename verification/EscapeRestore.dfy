/** Escaping and restoring on sound text: restoring never fails and undoes escaping. */
module EscapeRestore {
  import opened Wrappers
  import opened Entities
  import opened Placeholders

  lemma {:induction false} DigitRunThen(d: string, rest: string)
    requires forall c <- d :: IsDigit(c, 10)
    requires rest != "" && !IsDigit(rest[0], 10)
    ensures DigitRun(d + rest, 10) == |d|
  {
    if d == "" {
      assert d + rest == rest;
    } else {
      assert d[0] in d && (d + rest)[1..] == d[1..] + rest;
      DigitRunThen(d[1..], rest);
    }
  }

  lemma {:induction false} UpToMarkIs(s: string, i: nat, q: nat)
    requires i <= q < |s| && s[q] == MARK && forall k :: i <= k < q ==> s[k] != MARK
    ensures UpToMark(s, i) == q
    decreases q - i
  {
    if i < q {
      UpToMarkIs(s, i + 1, q);
    }
  }

  /** A reference is digits, after a hash for an escaped character. */
  lemma RefDigits(ref: string, n: nat)
    requires RefOk(ref, n)
    ensures ref != ""
    ensures var digits := if ref[0] == '#' then ref[1..] else ref;
            digits != "" && forall c <- digits :: IsDigit(c, 10)
  {
    if k: nat :| k < |ESCAPED_CHARACTERS| && ref == "#" + Numeral(k, 10) {
      NumeralValue(k, 10);
      assert ref[1..] == Numeral(k, 10);
    } else {
      var k: nat :| k < n && ref == Numeral(k, 10);
      NumeralValue(k, 10);
      assert ref[0] in ref;
    }
  }

  /** The characters at which the passes cut, and the backslash. */
  predicate Delimiter(c: char) {
    c in {'`', ' ', '<', '>', '[', ']', '(', ')', '!', '=', '"', '\'', '*', '_', '\\'}
  }

  predicate Undelimited(s: string) { forall c <- s :: !Delimiter(c) }

  lemma UndelimitedConcat(a: string, b: string)
    ensures Undelimited(a + b) <==> Undelimited(a) && Undelimited(b)
  {
    assert forall c <- a :: c in a + b;
    assert forall c <- b :: c in a + b;
  }

  lemma TagIsPlain(tag: string)
    requires tag in TAGS
    ensures tag != "" && MARK !in tag && Undelimited(tag)
  {
  }

  lemma DigitsArePlain(digits: string)
    requires forall c <- digits :: IsDigit(c, 10)
    ensures Undelimited(digits) && Undelimited("#") && Undelimited("")
    ensures Undelimited([MARK] + "@") && Undelimited("@") && Undelimited([MARK])
  {
    forall c | c in digits ensures !Delimiter(c) {
      assert IsDigit(c, 10);
    }
  }

  /** No delimiter occurs in a placeholder. */
  lemma PlaceholderIsPlain(ref: string, tag: string, n: nat)
    requires RefOk(ref, n) && tag in TAGS
    ensures Undelimited(Placeholder(ref, tag))
  {
    hide RefOk;
    RefDigits(ref, n);
    TagIsPlain(tag);
    var digits := if ref[0] == '#' then ref[1..] else ref;
    assert ref == (if ref[0] == '#' then "#" else "") + digits;
    DigitsArePlain(digits);
    UndelimitedConcat(if ref[0] == '#' then "#" else "", digits);
    UndelimitedConcat([MARK] + "@", ref);
    UndelimitedConcat([MARK] + "@" + ref, "@");
    UndelimitedConcat([MARK] + "@" + ref + "@", tag);
    UndelimitedConcat([MARK] + "@" + ref + "@" + tag, [MARK]);
  }

  /** A text laid out like a placeholder is matched as one. */
  lemma LayoutMatches(s: string, ref: string, digits: string, k: nat, q: nat)
    requires |s| >= 3 && s[0] == MARK && s[1] == '@' && ref != "" && digits != ""
    requires s[2] == ref[0] && digits == if ref[0] == '#' then ref[1..] else ref
    requires k == 2 + |ref| && k + 2 <= q < |s| && s[2..k] == ref && s[k] == '@'
    requires forall c <- digits :: IsDigit(c, 10)
    requires s[q] == MARK && forall i :: k + 2 <= i < q ==> s[i] != MARK
    ensures MatchAt(s) == Match(ref, q + 1)
  {
    hide DigitRun, UpToMark;
    var start := if ref[0] == '#' then 3 else 2;
    assert s[start..k] == digits by {
      assert s[start..k] == s[2..k][start - 2..];
    }
    assert s[start..] == digits + s[k..];
    DigitRunThen(digits, s[k..]);
    UpToMarkIs(s, k + 2, q);
  }

  lemma MiddleSlice<T>(a: seq<T>, b: seq<T>, c: seq<T>)
    ensures (a + b + c)[|a|..|a| + |b|] == b
  {
  }

  /** A whole placeholder is found as itself, whatever follows. */
  lemma PlaceholderMatches(ref: string, tag: string, n: nat, t: string)
    requires RefOk(ref, n) && tag in TAGS
    ensures MatchAt(Placeholder(ref, tag) + t) == Match(ref, |Placeholder(ref, tag)|)
  {
    hide RefOk, MatchAt;
    RefDigits(ref, n);
    TagIsPlain(tag);
    var s := Placeholder(ref, tag) + t;
    var k := 2 + |ref|;
    var q := k + 1 + |tag|;
    assert s == ([MARK] + "@") + ref + ("@" + tag + [MARK] + t);
    MiddleSlice([MARK] + "@", ref, "@" + tag + [MARK] + t);
    assert s[2] == s[2..k][0];
    forall i | k + 2 <= i < q ensures s[i] != MARK {
      assert s[i] == tag[i - k - 1];
    }
    LayoutMatches(s, ref, if ref[0] == '#' then ref[1..] else ref, k, q);
  }

  function RestorePieces(ps: seq<Piece>, originals: seq<string>): Option<string> {
    if ps == [] then Some("")
    else
      Append(if ps[0].Lit? then Some([ps[0].c]) else Original(ps[0].ref, originals),
             RestorePieces(ps[1..], originals))
  }

  lemma {:induction false} RestoreFlatten(ps: seq<Piece>, n: nat, originals: seq<string>)
    requires PiecesOk(ps, n)
    ensures Restore(Flatten(ps), originals) == RestorePieces(ps, originals)
  {
    if ps != [] {
      var p, t := ps[0], Flatten(ps[1..]);
      assert p in ps;
      RestoreFlatten(ps[1..], n, originals);
      if p.Hold? {
        PlaceholderMatches(p.ref, p.tag, n, t);
        assert (Text(p) + t)[|Text(p)|..] == t;
      } else {
        assert (Text(p) + t)[1..] == t;
      }
    }
  }

  /** A sound reference stands for something. */
  lemma RefHasOriginal(ref: string, n: nat, originals: seq<string>)
    requires RefOk(ref, n) && n <= |originals|
    ensures Original(ref, originals).Some?
  {
    RefDigits(ref, n);
    if k: nat :| k < |ESCAPED_CHARACTERS| && ref == "#" + Numeral(k, 10) {
      NumeralValue(k, 10);
      assert ref[1..] == Numeral(k, 10);
    } else {
      var k: nat :| k < n && ref == Numeral(k, 10);
      NumeralValue(k, 10);
      assert ref[0] in ref;
    }
  }

  lemma {:induction false} PiecesRestore(ps: seq<Piece>, n: nat, originals: seq<string>)
    requires PiecesOk(ps, n) && n <= |originals|
    ensures RestorePieces(ps, originals).Some?
  {
    if ps != [] {
      assert ps[0] in ps;
      PiecesRestore(ps[1..], n, originals);
      if ps[0].Hold? {
        RefHasOriginal(ps[0].ref, n, originals);
      }
    }
  }

  /** Restoring sound text never fails an assertion or a cast. */
  lemma SoundRestores(s: string, originals: seq<string>)
    requires Sound(s, |originals|)
    ensures Restore(s, originals).Some?
  {
    var ps :| PiecesOk(ps, |originals|) && Flatten(ps) == s;
    RestoreFlatten(ps, |originals|, originals);
    PiecesRestore(ps, |originals|, originals);
  }

  function EscapePieces(ps: seq<Piece>): seq<Piece> {
    if ps == [] then []
    else if ps[0] != Lit('\\') then [ps[0]] + EscapePieces(ps[1..])
    else if |ps| == 1 then ps
    else if ps[1].Lit? && EscapeIndex(ps[1].c).Some? then
      [Hold("#" + Numeral(EscapeIndex(ps[1].c).value, 10), "escaped")] + EscapePieces(ps[2..])
    else [ps[0], ps[1]] + EscapePieces(ps[2..])
  }

  lemma {:induction false} CopyPlain(h: string, t: string)
    requires '\\' !in h
    ensures Escape(h + t) == h + Escape(t)
  {
    hide EscapePair;
    if h == "" {
      assert h + t == t && "" + Escape(t) == Escape(t);
    } else {
      assert h[0] in h && (h + t)[0] == h[0] && (h + t)[1..] == h[1..] + t;
      CopyPlain(h[1..], t);
      assert [h[0]] + (h[1..] + Escape(t)) == h + Escape(t);
    }
  }

  /**
    A backslash protects the character after it from being seen; the mark of a
    placeholder does not need to be seen.
   */
  lemma EscapeAfterBackslash(h: string, t: string)
    requires h != "" && '\\' !in h[1..] && EscapeIndex(h[0]).None?
    ensures Escape("\\" + h + t) == "\\" + h + Escape(t)
  {
    var s := "\\" + h + t;
    assert s[1] == h[0] && s[2..] == h[1..] + t;
    CopyPlain(h[1..], t);
    assert ['\\', h[0]] + (h[1..] + Escape(t)) == "\\" + h + Escape(t);
  }

  lemma {:induction false} EscapeFlatten(ps: seq<Piece>, n: nat)
    requires PiecesOk(ps, n)
    ensures Escape(Flatten(ps)) == Flatten(EscapePieces(ps))
    ensures PiecesOk(EscapePieces(ps), n)
    decreases |ps|
  {
    if ps == [] {
    } else if ps[0] != Lit('\\') {
      EscapeFlattenPlain(ps, n);
    } else if |ps| == 1 {
      assert Flatten(ps) == "\\" + "" == "\\";
    } else {
      EscapeFlattenBackslash(ps, n);
    }
  }

  lemma {:induction false} EscapeFlattenPlain(ps: seq<Piece>, n: nat)
    requires PiecesOk(ps, n) && ps != [] && ps[0] != Lit('\\')
    ensures Escape(Flatten(ps)) == Flatten(EscapePieces(ps))
    ensures PiecesOk(EscapePieces(ps), n)
    decreases |ps|, 0
  {
    var p, t := ps[0], Flatten(ps[1..]);
    assert p in ps;
    EscapeFlatten(ps[1..], n);
    if p.Hold? {
      PlaceholderIsPlain(p.ref, p.tag, n);
    }
    CopyPlain(Text(p), t);
    assert EscapePieces(ps)[1..] == EscapePieces(ps[1..]);
  }

  lemma {:induction false} EscapeFlattenBackslash(ps: seq<Piece>, n: nat)
    requires PiecesOk(ps, n) && |ps| > 1 && ps[0] == Lit('\\')
    ensures Escape(Flatten(ps)) == Flatten(EscapePieces(ps))
    ensures PiecesOk(EscapePieces(ps), n)
    decreases |ps|, 0
  {
    var p := ps[1];
    assert p in ps && ps[0] in ps;
    EscapeFlatten(ps[2..], n);
    assert ps == [Lit('\\'), p] + ps[2..];
    if p.Lit? && EscapeIndex(p.c).Some? {
      EscapedPair(p.c, ps[2..], n);
    } else {
      KeptPair(p, ps[2..], n);
    }
  }

  lemma FlattenTwo(p: Piece, r: Piece, ps: seq<Piece>)
    ensures Flatten([p] + ps) == Text(p) + Flatten(ps)
    ensures Flatten([p, r] + ps) == Text(p) + Text(r) + Flatten(ps)
  {
    assert ([p] + ps)[1..] == ps;
    assert ([p, r] + ps)[1..] == [r] + ps && ([r] + ps)[1..] == ps;
  }

  lemma EscapedPair(c: char, ps: seq<Piece>, n: nat)
    requires EscapeIndex(c).Some? && PiecesOk(EscapePieces(ps), n)
    requires Escape(Flatten(ps)) == Flatten(EscapePieces(ps))
    ensures var qs := [Lit('\\'), Lit(c)] + ps;
            Escape(Flatten(qs)) == Flatten(EscapePieces(qs)) && PiecesOk(EscapePieces(qs), n)
  {
    var qs, h := [Lit('\\'), Lit(c)] + ps, Hold("#" + Numeral(EscapeIndex(c).value, 10), "escaped");
    FlattenTwo(Lit('\\'), Lit(c), ps);
    FlattenTwo(h, h, EscapePieces(ps));
    assert qs[2..] == ps && EscapePieces(qs) == [h] + EscapePieces(ps);
    assert PieceOk(h, n);
    var w := Flatten(qs);
    assert w == "\\" + [c] + Flatten(ps) && w[1] == c && w[2..] == Flatten(ps);
  }

  lemma KeptPair(p: Piece, ps: seq<Piece>, n: nat)
    requires PieceOk(p, n) && (p.Lit? ==> EscapeIndex(p.c).None?) && PiecesOk(EscapePieces(ps), n)
    requires Escape(Flatten(ps)) == Flatten(EscapePieces(ps))
    ensures var qs := [Lit('\\'), p] + ps;
            Escape(Flatten(qs)) == Flatten(EscapePieces(qs)) && PiecesOk(EscapePieces(qs), n)
  {
    var qs := [Lit('\\'), p] + ps;
    FlattenTwo(Lit('\\'), p, ps);
    FlattenTwo(Lit('\\'), p, EscapePieces(ps));
    assert qs[2..] == ps && EscapePieces(qs) == [Lit('\\'), p] + EscapePieces(ps);
    if p.Hold? {
      PlaceholderIsPlain(p.ref, p.tag, n);
      MarkIsNotEscaped();
    }
    EscapeAfterBackslash(Text(p), Flatten(ps));
  }

  lemma MarkIsNotEscaped()
    ensures EscapeIndex(MARK).None?
  {
  }

  lemma {:induction false} EscapeKeepsOriginals(ps: seq<Piece>, originals: seq<string>)
    ensures RestorePieces(EscapePieces(ps), originals) == RestorePieces(ps, originals)
    decreases |ps|
  {
    if ps == [] || |ps| == 1 {
      assert |ps| == 1 ==> EscapePieces(ps) == ps;
    } else if ps[0] != Lit('\\') {
      EscapeKeepsOriginals(ps[1..], originals);
      assert EscapePieces(ps)[1..] == EscapePieces(ps[1..]);
    } else {
      var p, es := ps[1], EscapePieces(ps[2..]);
      EscapeKeepsOriginals(ps[2..], originals);
      assert ps[1..][0] == p && ps[1..][1..] == ps[2..];
      if p.Lit? && EscapeIndex(p.c).Some? {
        var e := EscapeIndex(p.c).value;
        assert EscapePieces(ps)[1..] == es;
        EscapedOriginal(e, originals);
        AppendAppend("\\", [p.c], RestorePieces(es, originals));
      } else {
        assert EscapePieces(ps)[1..] == [p] + es && ([p] + es)[1..] == es;
      }
    }
  }

  lemma EscapedOriginal(e: nat, originals: seq<string>)
    requires e < |ESCAPED_CHARACTERS|
    ensures Original("#" + Numeral(e, 10), originals) == Some("\\" + [ESCAPED_CHARACTERS[e]])
  {
    NumeralValue(e, 10);
    assert ("#" + Numeral(e, 10))[1..] == Numeral(e, 10);
    assert ['\\', ESCAPED_CHARACTERS[e]] == "\\" + [ESCAPED_CHARACTERS[e]];
  }

  /** Escaping sound text keeps it sound, and restoring after it gives what restoring before it gives. */
  lemma EscapeThenRestore(s: string, originals: seq<string>)
    requires Sound(s, |originals|)
    ensures Sound(Escape(s), |originals|)
    ensures Restore(Escape(s), originals) == Restore(s, originals)
  {
    var n := |originals|;
    var ps :| PiecesOk(ps, n) && Flatten(ps) == s;
    EscapeFlatten(ps, n);
    EscapeKeepsOriginals(ps, originals);
    RestoreFlatten(ps, n, originals);
    RestoreFlatten(EscapePieces(ps), n, originals);
  }

  /** On text without marks escaping and restoring is the identity, whatever the table holds. */
  lemma {:induction false} EscapeThenRestoreIsIdentity(s: string, originals: seq<string>)
    requires MARK !in s
    ensures Restore(Escape(s), originals) == Some(s)
  {
    MarkFreeIsSound(s);
    SoundMore(s, 0, |originals|);
    EscapeThenRestore(s, originals);
    MarkFreeRestores(s, originals);
  }

  lemma {:induction false} MarkFreeRestores(s: string, originals: seq<string>)
    requires MARK !in s
    ensures Restore(s, originals) == Some(s)
  {
    if s != "" {
      MarkFreeRestores(s[1..], originals);
      assert [s[0]] + s[1..] == s;
    }
  }
}
