/**
  One byte of input on a partial document, and why that is what the parser does:
  partial documents are exactly the configurations the parser can be in.
 */
module RequestRun {
  import opened RequestState
  import opened RequestGrammar

  datatype Place = Dead | At(state: State, doc: Doc)

  function WithLast(d: Doc, h: Header): Doc
    requires d.headers != []
  {
    d.(headers := Front(d.headers) + [h])
  }

  /** The open header grows by one byte of its value. */
  function GrowValue(h: Header, c: char): Header {
    if h.folds == [] then h.(first := h.first + [c])
    else h.(folds := Front(h.folds) + [Last(h.folds).(text := Last(h.folds).text + [c])])
  }

  function GrowBlanks(h: Header, c: char): Header
    requires h.folds != []
  {
    h.(folds := Front(h.folds) + [Last(h.folds).(ws := Last(h.folds).ws + [c])])
  }

  /** The partial document after one more byte, or `Dead` when no request goes on with it. */
  function Grow(st: State, d: Doc, c: char): Place
    requires Partial(st, d)
  {
    match st
    case MethodStart => if IsTokenChar(c) then At(MethodInside, d.(method_ := [c])) else Dead
    case MethodInside =>
      if c == ' ' then At(HandlerPathStart, d)
      else if IsTokenChar(c) then At(MethodInside, d.(method_ := d.method_ + [c])) else Dead
    case HandlerPathStart => if c == '/' then At(HandlerPath, d.(uri := "/")) else Dead
    case HandlerPath | UriInside =>
      if c == ' ' then At(VersionH, d)
      else if IsCtl(c) then Dead
      else At(if c == '/' then UriInside else st, d.(uri := d.uri + [c]))
    case VersionH => if c == 'H' then At(VersionT1, d) else Dead
    case VersionT1 => if c == 'T' then At(VersionT2, d) else Dead
    case VersionT2 => if c == 'T' then At(VersionP, d) else Dead
    case VersionP => if c == 'P' then At(VersionSlash, d) else Dead
    case VersionSlash => if c == '/' then At(MajorStart, d) else Dead
    case MajorStart => if IsDigit(c) then At(Major, d.(major := [c])) else Dead
    case Major =>
      if c == '.' then At(MinorStart, d)
      else if IsDigit(c) then At(Major, d.(major := d.major + [c])) else Dead
    case MinorStart => if IsDigit(c) then At(Minor, d.(minor := [c])) else Dead
    case Minor =>
      if c == '\r' then At(ExpectingNewline1, d)
      else if IsDigit(c) then At(Minor, d.(minor := d.minor + [c])) else Dead
    case ExpectingNewline1 | ExpectingNewline2 => if c == '\n' then At(HeaderLineStart, d) else Dead
    case HeaderLineStart =>
      if c == '\r' then At(ExpectingNewline3, d)
      else if d.headers != [] && (c == ' ' || c == '\t') then
        At(HeaderLws, WithLast(d, Last(d.headers).(folds := Last(d.headers).folds + [Fold([c], "")])))
      else if IsTokenChar(c) then At(HeaderName, d.(headers := d.headers + [Header([c], "", [])])) else Dead
    case HeaderLws =>
      if c == '\r' then At(ExpectingNewline2, d)
      else if c == ' ' || c == '\t' then At(HeaderLws, WithLast(d, GrowBlanks(Last(d.headers), c)))
      else if IsCtl(c) then Dead
      else At(HeaderValue, WithLast(d, GrowValue(Last(d.headers), c)))
    case HeaderName =>
      if c == ':' then At(SpaceBeforeHeaderValue, d)
      else if IsTokenChar(c) then
        At(HeaderName, WithLast(d, Last(d.headers).(name := Last(d.headers).name + [c]))) else Dead
    case SpaceBeforeHeaderValue => if c == ' ' then At(HeaderValue, d) else Dead
    case HeaderValue =>
      if c == '\r' then At(ExpectingNewline2, d)
      else if IsCtl(c) then Dead
      else At(HeaderValue, WithLast(d, GrowValue(Last(d.headers), c)))
    case ExpectingNewline3 => if c == '\n' then At(BodyState, d) else Dead
    case BodyState => At(BodyState, d.(body := d.body + [c]))
    case FilePath => Dead
  }

  lemma NoLaterSlashSnoc(u: string, c: char)
    requires u != ""
    ensures NoLaterSlash(u + [c]) <==> NoLaterSlash(u) && c != '/'
  {
    var w := u + [c];
    assert w[|u|] == c;
    assert forall i :: 0 <= i < |u| ==> w[i] == u[i];
  }

  lemma WithLastFacts(d: Doc, h: Header)
    requires d.headers != []
    ensures var e := WithLast(d, h).headers;
            && e != [] && Last(e) == h && Front(e) == Front(d.headers)
            && (HeadersOk(d.headers) && HeaderOk(h) ==> HeadersOk(e))
    ensures HeadersOk(d.headers) ==> HeaderOk(Last(d.headers))
  {
    assert Last(d.headers) in d.headers;
    assert Front(d.headers) + [Last(d.headers)] == d.headers;
  }

  /** One more byte of value or of leading blanks is one more byte of header text. */
  lemma GrowHeader(h: Header, c: char)
    requires HeaderOk(h)
    ensures !IsCtl(c) && !(EndsInBlanks(h) && c == ' ') ==>
      var g := GrowValue(h, c); HeaderOk(g) && HeaderText(g) == HeaderText(h) + [c] && !EndsInBlanks(g)
    ensures EndsInBlanks(h) && (c == ' ' || c == '\t') ==>
      var g := GrowBlanks(h, c); HeaderOk(g) && HeaderText(g) == HeaderText(h) + [c] && EndsInBlanks(g)
  {
    if h.folds != [] {
      GrowFold(h, Last(h.folds).(text := Last(h.folds).text + [c]));
      GrowFold(h, Last(h.folds).(ws := Last(h.folds).ws + [c]));
      LastFold(h);
      hide FoldsText;
    }
  }

  lemma LastFold(h: Header)
    requires HeaderOk(h) && h.folds != []
    ensures FoldOk(Last(h.folds))
    ensures HeaderText(h) == h.name + ": " + h.first + FoldsText(Front(h.folds)) + "\r\n"
                             + Last(h.folds).ws + Last(h.folds).text
  {
    var f := Last(h.folds);
    assert f in h.folds && Front(h.folds) + [f] == h.folds;
    FoldsSnoc(Front(h.folds), f);
  }

  /** Changing the last continuation line. */
  lemma GrowFold(h: Header, f: Fold)
    requires HeaderOk(h) && h.folds != []
    ensures var g := h.(folds := Front(h.folds) + [f]);
            && Last(g.folds) == f && (FoldOk(f) ==> HeaderOk(g))
            && HeaderText(g) == h.name + ": " + h.first + FoldsText(Front(h.folds)) + "\r\n" + f.ws + f.text
  {
    FoldsSnoc(Front(h.folds), f);
  }

  lemma FoldsSnoc(fs: seq<Fold>, f: Fold)
    ensures FoldsText(fs + [f]) == FoldsText(fs) + "\r\n" + f.ws + f.text
    ensures Front(fs + [f]) == fs && Last(fs + [f]) == f
  {
    assert (fs + [f])[..|fs|] == fs;
  }

  lemma HeadersSnoc(hs: seq<Header>, h: Header)
    ensures hs + [h] != []
    ensures HeadersText(hs + [h]) == HeadersText(hs) + HeaderText(h) + "\r\n"
    ensures Front(hs + [h]) == hs && Last(hs + [h]) == h
  {
    assert (hs + [h])[..|hs|] == hs;
  }

  ghost predicate GrowsText(st: State, d: Doc, c: char)
    requires Partial(st, d)
  {
    var p := Grow(st, d, c);
    p.At? ==> Partial(p.state, p.doc) && PartialText(p.state, p.doc) == PartialText(st, d) + [c]
  }

  /** Growing keeps a document partial and appends the byte to its text. */
  lemma GrowText(st: State, d: Doc, c: char)
    requires Partial(st, d)
    ensures GrowsText(st, d, c)
  {
    hide *;
    if st in {HeaderLineStart, HeaderLws, HeaderName, HeaderValue} {
      GrowTextHeader(st, d, c);
    } else if st == SpaceBeforeHeaderValue {
      GrowTextSpace(d, c);
    } else if st == ExpectingNewline1 || st == ExpectingNewline3 {
      GrowTextEnds(st, d, c);
    } else if st == ExpectingNewline2 {
      GrowTextHeaderEnd(d, c);
    } else if st == BodyState {
      GrowTextBody(d, c);
    } else if st == HandlerPath || st == UriInside {
      GrowTextTarget(st, d, c);
    } else if st in {MajorStart, Major, MinorStart, Minor} {
      GrowTextVersion(st, d, c);
    } else {
      GrowTextLine(st, d, c);
    }
  }

  lemma GrowTextHeader(st: State, d: Doc, c: char)
    requires Partial(st, d) && st in {HeaderLineStart, HeaderLws, HeaderName, HeaderValue}
    ensures GrowsText(st, d, c)
  {
    hide *;
    match st
    case HeaderLineStart => GrowTextLineStart(d, c);
    case HeaderLws => GrowTextLws(d, c);
    case HeaderName => GrowTextName(d, c);
    case _ => GrowTextValue(d, c);
  }

  lemma GrowTextTarget(st: State, d: Doc, c: char)
    requires Partial(st, d) && (st == HandlerPath || st == UriInside)
    ensures GrowsText(st, d, c)
  {
    NoLaterSlashSnoc(d.uri, c);
  }

  lemma GrowTextLine(st: State, d: Doc, c: char)
    requires Partial(st, d)
    requires st in {MethodStart, MethodInside, HandlerPathStart, VersionH,
                    VersionT1, VersionT2, VersionP, VersionSlash, FilePath}
    ensures GrowsText(st, d, c)
  {
  }

  lemma GrowTextVersion(st: State, d: Doc, c: char)
    requires Partial(st, d) && st in {MajorStart, Major, MinorStart, Minor}
    ensures GrowsText(st, d, c)
  {
    hide Token, UriOk;
  }

  lemma GrowTextLineStart(d: Doc, c: char)
    requires Partial(HeaderLineStart, d)
    ensures GrowsText(HeaderLineStart, d, c)
  {
    if c != '\r' && d.headers != [] && (c == ' ' || c == '\t') {
      FoldStarts(d, c);
    } else if c != '\r' && IsTokenChar(c) {
      HeaderStarts(d, c);
    }
  }

  /** A blank at the start of a line opens a continuation line of the last header. */
  lemma FoldStarts(d: Doc, c: char)
    requires Partial(HeaderLineStart, d) && d.headers != [] && (c == ' ' || c == '\t')
    ensures GrowsText(HeaderLineStart, d, c)
  {
    hide HeadersText, HeaderText, HeaderOk, HeadersOk, FoldsText, GrowsText;
    var h, f := Last(d.headers), Fold([c], "");
    var g := h.(folds := h.folds + [f]);
    var e := WithLast(d, g);
    WithLastFacts(d, g);
    HeaderWithFold(h, f);
    assert Partial(HeaderLws, e);
    HeadersSnoc(Front(d.headers), h);
    assert Front(d.headers) + [h] == d.headers;
    assert OpenHead(e) == Head(d) + [c];
    GrowsTextBy(HeaderLineStart, d, c, HeaderLws, e);
  }

  lemma GrowsTextBy(st: State, d: Doc, c: char, st2: State, e: Doc)
    requires Partial(st, d) && Grow(st, d, c) == At(st2, e)
    requires Partial(st2, e) && PartialText(st2, e) == PartialText(st, d) + [c]
    ensures GrowsText(st, d, c)
  {
  }

  lemma HeaderWithFold(h: Header, f: Fold)
    requires HeaderOk(h) && FoldOk(f)
    ensures var g := h.(folds := h.folds + [f]);
            HeaderOk(g) && HeaderText(g) == HeaderText(h) + "\r\n" + f.ws + f.text && Last(g.folds) == f
  {
    FoldsSnoc(h.folds, f);
  }

  lemma HeaderStarts(d: Doc, c: char)
    requires Partial(HeaderLineStart, d) && IsTokenChar(c)
    ensures GrowsText(HeaderLineStart, d, c)
  {
    hide HeadersText, HeaderText, FoldsText, GrowsText;
    var h := Header([c], "", []);
    HeadersSnoc(d.headers, h);
    var e := d.(headers := d.headers + [h]);
    assert Partial(HeaderName, e);
    GrowsTextBy(HeaderLineStart, d, c, HeaderName, e);
  }

  lemma GrowTextLws(d: Doc, c: char)
    requires Partial(HeaderLws, d)
    ensures GrowsText(HeaderLws, d, c)
  {
    hide HeadersText, HeaderText, HeaderOk, HeadersOk, FoldsText;
    var h := Last(d.headers);
    WithLastFacts(d, h);
    GrowHeader(h, c);
    WithLastFacts(d, GrowValue(h, c));
    WithLastFacts(d, GrowBlanks(h, c));
  }

  lemma GrowTextValue(d: Doc, c: char)
    requires Partial(HeaderValue, d)
    ensures GrowsText(HeaderValue, d, c)
  {
    hide HeadersText, HeaderText, HeaderOk, HeadersOk, FoldsText;
    var h := Last(d.headers);
    WithLastFacts(d, h);
    GrowHeader(h, c);
    WithLastFacts(d, GrowValue(h, c));
  }

  lemma GrowTextName(d: Doc, c: char)
    requires Partial(HeaderName, d)
    ensures GrowsText(HeaderName, d, c)
  {
    WithLastFacts(d, Last(d.headers).(name := Last(d.headers).name + [c]));
  }

  lemma GrowTextSpace(d: Doc, c: char)
    requires Partial(SpaceBeforeHeaderValue, d)
    ensures GrowsText(SpaceBeforeHeaderValue, d, c)
  {
    var h := Last(d.headers);
    assert HeaderText(h) == h.name + ": ";
  }

  lemma GrowTextEnds(st: State, d: Doc, c: char)
    requires (st == ExpectingNewline1 || st == ExpectingNewline3) && Partial(st, d)
    ensures GrowsText(st, d, c)
  {
    hide Token, UriOk, Digits, HeaderOk;
  }

  lemma GrowTextHeaderEnd(d: Doc, c: char)
    requires Partial(ExpectingNewline2, d)
    ensures GrowsText(ExpectingNewline2, d, c)
  {
    hide HeadersOk, Token, UriOk, Digits, HeaderText, HeadersText;
    assert Front(d.headers) + [Last(d.headers)] == d.headers;
    HeadersSnoc(Front(d.headers), Last(d.headers));
  }

  lemma GrowTextBody(d: Doc, c: char)
    requires Partial(BodyState, d)
    ensures GrowsText(BodyState, d, c)
  {
    assert Head(d) + "\r\n" + d.body + [c] == Head(d) + "\r\n" + (d.body + [c]);
  }

  /** The partial document `(st, d)` is one byte `c` on from `(st0, d0)`. */
  predicate OneByteOn(st0: State, d0: Doc, c: char, st: State, d: Doc) {
    Partial(st0, d0) && Grow(st0, d0, c) == At(st, d)
  }

  /** Every partial document except the empty one is reached from another by one byte. */
  lemma Shrink(st: State, d: Doc) returns (st0: State, d0: Doc, c: char)
    requires Partial(st, d) && st != MethodStart
    ensures OneByteOn(st0, d0, c, st, d)
  {
    hide *;
    if st in {HeaderLineStart, HeaderLws, HeaderName, HeaderValue} {
      st0, d0, c := ShrinkLine(st, d);
    } else if st in {SpaceBeforeHeaderValue, ExpectingNewline2, ExpectingNewline3, BodyState} {
      st0, d0, c := ShrinkEnds(st, d);
    } else if st in {MethodInside, HandlerPathStart, HandlerPath, UriInside, VersionH} {
      st0, d0, c := ShrinkTarget(st, d);
    } else if st == Major || st == Minor {
      st0, d0, c := ShrinkDigits(st, d);
    } else {
      st0, d0, c := ShrinkVersion(st, d);
    }
  }

  lemma ShrinkLine(st: State, d: Doc) returns (st0: State, d0: Doc, c: char)
    requires Partial(st, d) && st in {HeaderLineStart, HeaderLws, HeaderName, HeaderValue}
    ensures OneByteOn(st0, d0, c, st, d)
  {
    hide *;
    match st
    case HeaderLineStart => st0, d0, c := ShrinkLineStart(d);
    case HeaderLws => st0, d0, c := ShrinkLws(d);
    case HeaderName => st0, d0, c := ShrinkName(d);
    case _ => st0, d0, c := ShrinkValue(d);
  }

  lemma ShrinkDigits(st: State, d: Doc) returns (st0: State, d0: Doc, c: char)
    requires Partial(st, d) && st in {Major, Minor}
    ensures OneByteOn(st0, d0, c, st, d)
  {
    hide *;
    if st == Major {
      st0, d0, c := ShrinkMajor(d);
    } else {
      st0, d0, c := ShrinkMinor(d);
    }
  }

  lemma FrontMembers<T>(s: seq<T>)
    requires s != []
    ensures forall x <- Front(s) :: x in s
    ensures Last(s) in s && s == Front(s) + [Last(s)] && (Front(s) == [] ==> s == [Last(s)])
  {
  }

  lemma ShrinkTarget(st: State, d: Doc) returns (st0: State, d0: Doc, c: char)
    requires Partial(st, d) && st in {MethodInside, HandlerPathStart, HandlerPath, UriInside, VersionH}
    ensures OneByteOn(st0, d0, c, st, d)
  {
    match st
    case MethodInside =>
      c := Last(d.method_);
      d0 := d.(method_ := Front(d.method_));
      FrontMembers(d.method_);
      st0 := if d0.method_ == "" then MethodStart else MethodInside;
    case HandlerPathStart => st0, d0, c := MethodInside, d, ' ';
    case HandlerPath =>
      if d.uri == "/" {
        st0, d0, c := HandlerPathStart, d.(uri := ""), '/';
      } else {
        st0, d0, c := HandlerPath, d.(uri := Front(d.uri)), Last(d.uri);
        assert d.uri == Front(d.uri) + [c];
      }
    case UriInside =>
      c := Last(d.uri);
      d0 := d.(uri := Front(d.uri));
      assert d.uri == Front(d.uri) + [c];
      assert |d.uri| > 1;
      NoLaterSlashSnoc(d0.uri, c);
      st0 := if NoLaterSlash(d0.uri) then HandlerPath else UriInside;
    case VersionH => st0, d0, c := if NoLaterSlash(d.uri) then HandlerPath else UriInside, d, ' ';
  }

  lemma ShrinkVersion(st: State, d: Doc) returns (st0: State, d0: Doc, c: char)
    requires Partial(st, d)
    requires st in {VersionT1, VersionT2, VersionP, VersionSlash, MajorStart, MinorStart, ExpectingNewline1, FilePath}
    ensures OneByteOn(st0, d0, c, st, d)
  {
    d0 := d;
    match st
    case VersionT1 => st0, c := VersionH, 'H';
    case VersionT2 => st0, c := VersionT1, 'T';
    case VersionP => st0, c := VersionT2, 'T';
    case VersionSlash => st0, c := VersionP, 'P';
    case MajorStart => st0, c := VersionSlash, '/';
    case MinorStart => st0, c := Major, '.';
    case ExpectingNewline1 => st0, c := Minor, '\r';
  }

  lemma DigitsFront(s: string)
    requires Digits(s)
    ensures s != "" && IsDigit(Last(s)) && s == Front(s) + [Last(s)]
    ensures if Front(s) == "" then s == [Last(s)] else Digits(Front(s))
    ensures !Digits("")
  {
    FrontMembers(s);
  }

  lemma ShrinkMajor(d: Doc) returns (st0: State, d0: Doc, c: char)
    requires Partial(Major, d)
    ensures OneByteOn(st0, d0, c, Major, d)
  {
    hide UriOk, Token, Digits;
    DigitsFront(d.major);
    c := Last(d.major);
    d0 := d.(major := Front(d.major));
    st0 := if d0.major == "" then MajorStart else Major;
  }

  lemma ShrinkMinor(d: Doc) returns (st0: State, d0: Doc, c: char)
    requires Partial(Minor, d)
    ensures OneByteOn(st0, d0, c, Minor, d)
  {
    hide UriOk, Token, Digits;
    DigitsFront(d.minor);
    c := Last(d.minor);
    d0 := d.(minor := Front(d.minor));
    st0 := if d0.minor == "" then MinorStart else Minor;
  }

  lemma ShrinkEnds(st: State, d: Doc) returns (st0: State, d0: Doc, c: char)
    requires st in {SpaceBeforeHeaderValue, ExpectingNewline2, ExpectingNewline3, BodyState} && Partial(st, d)
    ensures OneByteOn(st0, d0, c, st, d)
  {
    d0 := d;
    match st
    case SpaceBeforeHeaderValue => st0, c := HeaderName, ':';
    case ExpectingNewline2 => st0, c := if EndsInBlanks(Last(d.headers)) then HeaderLws else HeaderValue, '\r';
    case ExpectingNewline3 => st0, c := HeaderLineStart, '\r';
    case BodyState =>
      if d.body == "" {
        st0, c := ExpectingNewline3, '\n';
      } else {
        st0, d0, c := BodyState, d.(body := Front(d.body)), Last(d.body);
        assert d.body == Front(d.body) + [c];
      }
  }

  lemma ShrinkLineStart(d: Doc) returns (st0: State, d0: Doc, c: char)
    requires Partial(HeaderLineStart, d)
    ensures OneByteOn(st0, d0, c, HeaderLineStart, d)
  {
    st0, d0, c := if d.headers == [] then ExpectingNewline1 else ExpectingNewline2, d, '\n';
  }

  lemma ShrinkName(d: Doc) returns (st0: State, d0: Doc, c: char)
    requires Partial(HeaderName, d)
    ensures OneByteOn(st0, d0, c, HeaderName, d)
  {
    hide HeadersOk, Token, OneByteOn, Grow, Partial, HasLine;
    PartialName(d);
    var h := Last(d.headers);
    HeadersOkParts(d.headers);
    TokenFront(h.name);
    c := Last(h.name);
    var g := h.(name := Front(h.name));
    WithLastFacts(d, g);
    if |h.name| == 1 {
      assert h == Header([c], "", []);
      st0, d0 := HeaderLineStart, d.(headers := Front(d.headers));
      assert SameLine(d, d0);
      PartialLineStart(d0);
      NameStarts(d0, c, d);
    } else {
      st0, d0 := HeaderName, WithLast(d, g);
      assert WithLast(d0, h) == d && SameLine(d, d0);
      PartialName(d0);
      NameGrows(d0, c, d);
    }
  }

  predicate SameLine(a: Doc, b: Doc) {
    a.method_ == b.method_ && a.uri == b.uri && a.major == b.major && a.minor == b.minor
  }

  lemma PartialName(d: Doc)
    ensures Partial(HeaderName, d) <==>
      && HasLine(d) && d.headers != [] && HeadersOk(d.headers) && d.body == ""
      && Last(d.headers).first == "" && Last(d.headers).folds == []
    ensures forall e :: SameLine(d, e) ==> HasLine(e) == HasLine(d)
  {
  }

  lemma PartialLineStart(d: Doc)
    ensures Partial(HeaderLineStart, d) <==> HasLine(d) && HeadersOk(d.headers) && d.body == ""
  {
  }

  lemma NameStarts(d0: Doc, c: char, d: Doc)
    requires Partial(HeaderLineStart, d0) && IsTokenChar(c) && d == d0.(headers := d0.headers + [Header([c], "", [])])
    ensures OneByteOn(HeaderLineStart, d0, c, HeaderName, d)
  {
    hide Partial;
  }

  lemma NameGrows(d0: Doc, c: char, d: Doc)
    requires Partial(HeaderName, d0) && IsTokenChar(c) && d0.headers != []
    requires d == WithLast(d0, Last(d0.headers).(name := Last(d0.headers).name + [c]))
    ensures OneByteOn(HeaderName, d0, c, HeaderName, d)
  {
    hide Partial;
  }

  lemma TokenFront(s: string)
    requires Token(s)
    ensures s != "" && IsTokenChar(Last(s)) && s == Front(s) + [Last(s)]
    ensures if |s| == 1 then s == [Last(s)] else Token(Front(s))
  {
    FrontMembers(s);
  }

  lemma HeadersOkParts(hs: seq<Header>)
    requires hs != []
    ensures HeadersOk(hs) ==> HeadersOk(Front(hs)) && HeaderOk(Last(hs))
    ensures Front(hs) + [Last(hs)] == hs
  {
    assert Last(hs) in hs;
  }

  lemma ShrinkBlanks(h: Header) returns (g: Header, c: char)
    requires HeaderOk(h) && EndsInBlanks(h)
    ensures HeaderOk(g) && (c == ' ' || c == '\t')
    ensures h == g.(folds := g.folds + [Fold([c], "")]) || (EndsInBlanks(g) && h == GrowBlanks(g, c))
  {
    var f := Last(h.folds);
    FrontMembers(h.folds);
    c := Last(f.ws);
    FrontMembers(f.ws);
    if |f.ws| == 1 {
      g := h.(folds := Front(h.folds));
      assert f == Fold([c], "");
    } else {
      g := h.(folds := Front(h.folds) + [f.(ws := Front(f.ws))]);
      assert FoldOk(f.(ws := Front(f.ws)));
      assert Front(g.folds) == Front(h.folds);
    }
  }

  lemma ShrinkLws(d: Doc) returns (st0: State, d0: Doc, c: char)
    requires Partial(HeaderLws, d)
    ensures OneByteOn(st0, d0, c, HeaderLws, d)
  {
    hide HeadersOk, HeaderOk;
    var h := Last(d.headers);
    HeadersOkParts(d.headers);
    var g;
    g, c := ShrinkBlanks(h);
    d0 := WithLast(d, g);
    WithLastFacts(d, g);
    assert WithLast(d0, h) == d;
    st0 := if EndsInBlanks(g) && h == GrowBlanks(g, c) then HeaderLws else HeaderLineStart;
  }

  lemma ShrinkValue(d: Doc) returns (st0: State, d0: Doc, c: char)
    requires Partial(HeaderValue, d)
    ensures OneByteOn(st0, d0, c, HeaderValue, d)
  {
    hide HeadersOk;
    var h := Last(d.headers);
    WithLastFacts(d, h);
    assert Front(d.headers) + [h] == d.headers;
    if h.folds == [] && h.first == "" {
      st0, d0, c := SpaceBeforeHeaderValue, d, ' ';
    } else {
      var g;
      g, c := ShrinkHeader(h);
      st0, d0 := if EndsInBlanks(g) then HeaderLws else HeaderValue, WithLast(d, g);
      WithLastFacts(d, g);
      assert WithLast(d0, h) == d;
    }
  }

  lemma ShrinkHeader(h: Header) returns (g: Header, c: char)
    requires HeaderOk(h) && !EndsInBlanks(h) && !(h.folds == [] && h.first == "")
    ensures HeaderOk(g) && GrowValue(g, c) == h && !IsCtl(c) && !(EndsInBlanks(g) && c == ' ')
  {
    if h.folds == [] {
      c, g := Last(h.first), h.(first := Front(h.first));
      FrontMembers(h.first);
    } else {
      var f := Last(h.folds);
      FrontMembers(h.folds);
      c := Last(f.text);
      FrontMembers(f.text);
      g := h.(folds := Front(h.folds) + [f.(text := Front(f.text))]);
      assert Front(g.folds) == Front(h.folds);
    }
  }

  /** A byte with which a request can go on, for every state. */
  function NextByte(st: State): char {
    match st
    case MethodStart => 'A'
    case MethodInside => ' '
    case HandlerPathStart => '/'
    case HandlerPath | UriInside => ' '
    case VersionH => 'H'
    case VersionT1 | VersionT2 => 'T'
    case VersionP => 'P'
    case VersionSlash => '/'
    case MajorStart | MinorStart => '1'
    case Major => '.'
    case Minor | HeaderLineStart | HeaderLws | HeaderValue => '\r'
    case ExpectingNewline1 | ExpectingNewline2 | ExpectingNewline3 => '\n'
    case HeaderName => ':'
    case SpaceBeforeHeaderValue => ' '
    case BodyState | FilePath => ' '
  }

  /** How many bytes are missing at least until a request is complete. */
  function Missing(st: State): nat {
    match st
    case MethodStart => 17
    case MethodInside => 16
    case HandlerPathStart => 15
    case HandlerPath | UriInside => 14
    case VersionH => 13
    case VersionT1 => 12
    case VersionT2 => 11
    case VersionP => 10
    case VersionSlash => 9
    case MajorStart => 8
    case Major => 7
    case MinorStart => 6
    case Minor => 5
    case ExpectingNewline1 => 4
    case HeaderName => 6
    case SpaceBeforeHeaderValue => 5
    case HeaderLws | HeaderValue => 4
    case ExpectingNewline2 => 3
    case HeaderLineStart => 2
    case ExpectingNewline3 => 1
    case BodyState | FilePath => 0
  }

  lemma NextByteGrows(st: State, d: Doc)
    requires Partial(st, d) && st != BodyState
    ensures var p := Grow(st, d, NextByte(st)); p.At? && Missing(p.state) < Missing(st)
  {
  }

  /** Every partial document can be completed to a whole request by bytes at its end. */
  lemma {:induction false} Complete(st: State, d: Doc) returns (rest: string, whole: Doc)
    requires Partial(st, d)
    ensures Valid(whole) && Serialize(whole) == PartialText(st, d) + rest
    decreases Missing(st)
  {
    if st == BodyState {
      rest, whole := "", d;
    } else {
      var c := NextByte(st);
      NextByteGrows(st, d);
      GrowText(st, d, c);
      var p := Grow(st, d, c);
      rest, whole := Complete(p.state, p.doc);
      assert PartialText(st, d) + [c] + rest == PartialText(st, d) + ([c] + rest);
      rest := [c] + rest;
    }
  }
}
