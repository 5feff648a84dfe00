/**
  What parsing an input means: the parser's fields are those of the partial
  document its input is the text of.
 */
module RequestParsing {
  import opened RequestState
  import opened RequestGrammar
  import opened RequestRun

  /** The number written as the digits `s`. */
  function Decimal(s: string): nat {
    if s == "" then 0
    else 10 * Decimal(s[..|s| - 1]) + (if IsDigit(s[|s| - 1]) then Digit(s[|s| - 1]) else 0)
  }

  lemma DecimalSnoc(s: string, c: char)
    requires IsDigit(c)
    ensures Decimal(s + [c]) == Decimal(s) * 10 + Digit(c)
  {
    assert (s + [c])[..|s|] == s;
  }

  /**
    The value of a folded header: its lines joined with nothing between them, each
    continuation stripped on the left.
   */
  function FoldValue(fs: seq<Fold>): string {
    if fs == [] then "" else FoldValue(fs[..|fs| - 1]) + fs[|fs| - 1].text
  }

  function FieldOf(h: Header): (string, string) { (h.name, h.first + FoldValue(h.folds)) }

  function FieldsOf(hs: seq<Header>): (r: seq<(string, string)>)
    ensures |r| == |hs|
  {
    seq(|hs|, i requires 0 <= i < |hs| => FieldOf(hs[i]))
  }

  predicate BeforeMinor(st: State) {
    st in {MethodStart, MethodInside, HandlerPathStart, HandlerPath, UriInside, VersionH, VersionT1, VersionT2,
           VersionP, VersionSlash, MajorStart, Major}
  }

  function VersionText(st: State, d: Doc): string {
    if BeforeMinor(st) then d.major else d.major + "." + d.minor
  }

  /** The target cut before its second slash. */
  predicate SplitTarget(uri: string, handlerPath: string, filePath: string) {
    && uri == handlerPath + filePath
    && NoLaterSlash(handlerPath)
    && (filePath != "" ==> filePath[0] == '/' && handlerPath != "")
    && (filePath == "" <==> NoLaterSlash(uri))
  }

  predicate FieldsMatch(r: Req, d: Doc) {
    && r.method_ == d.method_ && r.body == d.body
    && r.version == VersionText(r.state, d) && r.major == Decimal(d.major) && r.minor == Decimal(d.minor)
    && r.headers == FieldsOf(d.headers)
    && r.uri == d.uri && SplitTarget(d.uri, r.handlerPath, r.filePath)
  }

  /** The parser stands at the partial document `d`. */
  predicate Stands(r: Req, d: Doc) { Partial(r.state, d) && FieldsMatch(r, d) }

  lemma StandsIsReady(r: Req, d: Doc)
    requires Stands(r, d)
    ensures Ready(r)
  {
    hide Decimal, SplitTarget, VersionText;
  }

  /** A byte is bad for the parser exactly when the document cannot grow by it; otherwise both move alike. */
  ghost predicate Follows(r: Req, d: Doc, c: char)
    requires Stands(r, d)
  {
    StandsIsReady(r, d);
    var p, g := Step(r, c), Grow(r.state, d, c);
    && (g.Dead? <==> p.status.Bad?)
    && (g.At? ==> p.req.state == g.state && FieldsMatch(p.req, g.doc)
                  && p.status == if g.state == BodyState then Good else Indeterminate)
  }

  lemma SplitTargetGrows(uri: string, hp: string, fp: string, c: char)
    requires SplitTarget(uri, hp, fp) && uri != ""
    ensures fp == "" && c != '/' ==> SplitTarget(uri + [c], hp + [c], fp)
    ensures fp != "" || c == '/' ==> SplitTarget(uri + [c], hp, fp + [c])
  {
    NoLaterSlashSnoc(uri, c);
    assert hp + (fp + [c]) == uri + [c];
    if fp == "" {
      assert hp == uri && hp + [c] + fp == uri + [c];
    }
  }

  lemma StepFollows(r: Req, d: Doc, c: char)
    requires Stands(r, d)
    ensures Follows(r, d, c)
  {
    hide *;
    match r.state
    case HandlerPath | UriInside => TargetFollows(r, d, c);
    case VersionSlash => VersionStarts(r, d, c);
    case MajorStart | Major => MajorFollows(r, d, c);
    case MinorStart | Minor => MinorFollows(r, d, c);
    case HeaderLineStart => LineStartFollows(r, d, c);
    case HeaderLws | HeaderValue => ValueFollows(r, d, c);
    case HeaderName => NameFollows(r, d, c);
    case MethodStart | MethodInside | HandlerPathStart => MethodFollows(r, d, c);
    case VersionH | VersionT1 | VersionT2 | VersionP => VersionNameFollows(r, d, c);
    case FilePath | BodyState => BodyFollows(r, d, c);
    case _ => LineEndFollows(r, d, c);
  }

  lemma TargetFollows(r: Req, d: Doc, c: char)
    requires Stands(r, d) && (r.state == HandlerPath || r.state == UriInside)
    ensures Follows(r, d, c)
  {
    hide Decimal, FieldsOf;
    SplitTargetGrows(d.uri, r.handlerPath, r.filePath, c);
  }

  lemma VersionStarts(r: Req, d: Doc, c: char)
    requires Stands(r, d) && r.state == VersionSlash
    ensures Follows(r, d, c)
  {
    hide SplitTarget, FieldsOf;
  }

  lemma MajorFollows(r: Req, d: Doc, c: char)
    requires Stands(r, d) && r.state in {MajorStart, Major}
    ensures Follows(r, d, c)
  {
    hide SplitTarget, FieldsOf, Decimal;
    if IsDigit(c) {
      DecimalSnoc(d.major, c);
      assert d.major == "" ==> d.major + [c] == [c];
    }
    assert d.major + "." + "" == d.major + ".";
  }

  lemma MinorFollows(r: Req, d: Doc, c: char)
    requires Stands(r, d) && r.state in {MinorStart, Minor}
    ensures Follows(r, d, c)
  {
    hide SplitTarget, FieldsOf, Decimal;
    if IsDigit(c) {
      DecimalSnoc(d.minor, c);
      assert d.minor == "" ==> d.minor + [c] == [c];
      assert d.major + "." + d.minor + [c] == d.major + "." + (d.minor + [c]);
    }
  }

  lemma MethodFollows(r: Req, d: Doc, c: char)
    requires Stands(r, d) && r.state in {MethodStart, MethodInside, HandlerPathStart}
    ensures Follows(r, d, c)
  {
    hide Decimal, FieldsOf;
  }

  lemma VersionNameFollows(r: Req, d: Doc, c: char)
    requires Stands(r, d) && r.state in {VersionH, VersionT1, VersionT2, VersionP}
    ensures Follows(r, d, c)
  {
    hide Decimal, FieldsOf, SplitTarget;
  }

  lemma LineEndFollows(r: Req, d: Doc, c: char)
    requires Stands(r, d)
    requires r.state in {SpaceBeforeHeaderValue, ExpectingNewline1, ExpectingNewline2, ExpectingNewline3}
    ensures Follows(r, d, c)
  {
    hide Decimal, FieldsOf, SplitTarget;
  }

  lemma BodyFollows(r: Req, d: Doc, c: char)
    requires Stands(r, d) && r.state in {FilePath, BodyState}
    ensures Follows(r, d, c)
  {
    hide Decimal, FieldsOf, SplitTarget;
  }

  lemma FieldsSnoc(hs: seq<Header>, h: Header)
    ensures FieldsOf(hs + [h]) == FieldsOf(hs) + [FieldOf(h)]
  {
    hide FieldOf;
    assert forall i :: 0 <= i < |hs| ==> (hs + [h])[i] == hs[i];
  }

  lemma FieldsWithLast(d: Doc, h: Header)
    requires d.headers != []
    ensures FieldsOf(WithLast(d, h).headers) == FieldsOf(d.headers)[|d.headers| - 1 := FieldOf(h)]
    ensures FieldsOf(d.headers)[|d.headers| - 1] == FieldOf(Last(d.headers))
  {
    hide FieldOf;
  }

  /** A fold and a new header, as they begin, in the parser's fields. */
  lemma LineStartFields(d: Doc, c: char)
    ensures FieldsOf(d.headers + [Header([c], "", [])]) == FieldsOf(d.headers) + [([c], "")]
    ensures d.headers != [] ==>
      var h := Last(d.headers);
      HeadersChange(d, WithLast(d, h.(folds := h.folds + [Fold([c], "")])), FieldsOf(d.headers))
  {
    if d.headers != [] {
      var h := Last(d.headers);
      FoldFieldKept(h, c);
      hide FieldsOf, FieldOf;
      FieldsWithLast(d, h.(folds := h.folds + [Fold([c], "")]));
    }
    assert FieldOf(Header([c], "", [])) == ([c], "" + "") && "" + "" == "";
    FieldsSnoc(d.headers, Header([c], "", []));
  }

  lemma FoldFieldKept(h: Header, c: char)
    ensures FieldOf(h.(folds := h.folds + [Fold([c], "")])) == FieldOf(h)
  {
    var g := h.(folds := h.folds + [Fold([c], "")]);
    assert g.folds[..|h.folds|] == h.folds;
    assert FoldValue(g.folds) == FoldValue(h.folds) + "" == FoldValue(h.folds);
  }

  lemma LineStartFollows(r: Req, d: Doc, c: char)
    requires Stands(r, d) && r.state == HeaderLineStart
    ensures Follows(r, d, c)
  {
    hide Decimal, SplitTarget, FieldsOf, HeadersOk, WithLast;
    LineStartFields(d, c);
  }

  /** Only the headers differ, and the parser's are those of the document. */
  predicate HeadersChange(d: Doc, e: Doc, fields: seq<(string, string)>) {
    d.(headers := []) == e.(headers := []) && FieldsOf(e.headers) == fields
  }

  lemma ValueFieldsGrow(d: Doc, c: char)
    requires d.headers != []
    ensures var h := Last(d.headers);
            && FieldsOf(d.headers) != []
            && HeadersChange(d, WithLast(d, GrowValue(h, c)), PushValue(FieldsOf(d.headers), c))
            && (h.folds != [] ==> HeadersChange(d, WithLast(d, GrowBlanks(h, c)), FieldsOf(d.headers)))
  {
    hide FieldsOf;
    var h := Last(d.headers);
    FieldGrows(h, c);
    FieldsWithLast(d, GrowValue(h, c));
    if h.folds != [] {
      FieldsWithLast(d, GrowBlanks(h, c));
    }
  }

  lemma ValueFollows(r: Req, d: Doc, c: char)
    requires Stands(r, d) && (r.state == HeaderLws || r.state == HeaderValue)
    ensures Follows(r, d, c)
  {
    hide Decimal, SplitTarget, FieldsOf, HeadersOk, GrowValue, GrowBlanks, WithLast, PushValue;
    ValueFieldsGrow(d, c);
  }

  lemma FieldGrows(h: Header, c: char)
    ensures FieldOf(GrowValue(h, c)) == (h.name, FieldOf(h).1 + [c])
    ensures h.folds != [] ==> FieldOf(GrowBlanks(h, c)) == FieldOf(h)
  {
    if h.folds == [] {
      assert h.first + [c] + "" == h.first + "" + [c];
    } else {
      var before, text := FoldValue(Front(h.folds)), Last(h.folds).text;
      assert GrowValue(h, c).folds[..|h.folds| - 1] == Front(h.folds);
      assert GrowBlanks(h, c).folds[..|h.folds| - 1] == Front(h.folds);
      assert h.first + (before + (text + [c])) == h.first + (before + text) + [c];
    }
  }

  lemma NameFollows(r: Req, d: Doc, c: char)
    requires Stands(r, d) && r.state == HeaderName
    ensures Follows(r, d, c)
  {
    hide Decimal, SplitTarget, FieldsOf;
    var h := Last(d.headers);
    var g := h.(name := h.name + [c]);
    assert FieldOf(g) == (h.name + [c], FieldOf(h).1);
    FieldsWithLast(d, g);
  }

  /** What parsing the text `s` of the partial document `d` leaves. */
  ghost predicate Reaches(s: string, st: State, d: Doc) {
    var p := Parse(s);
    && Partial(st, d) && PartialText(st, d) == s
    && p.req.raw == s && p.req.state == st && FieldsMatch(p.req, d)
    && p.status == (if st == BodyState || s == "" then Good else Indeterminate)
  }

  lemma ReachesNext(s: string, st: State, d: Doc, c: char)
    requires Reaches(s, st, d)
    ensures var g := Grow(st, d, c);
            if g.Dead? then Parse(s + [c]).status == Bad && Parse(s + [c]).req.raw == s + [c]
            else Reaches(s + [c], g.state, g.doc)
  {
    hide FieldsMatch, Partial, Grow;
    var w := s + [c];
    assert w[..|w| - 1] == s && w[|w| - 1] == c;
    StepFollows(Parse(s).req, d, c);
    GrowText(st, d, c);
  }

  lemma EmptyReaches()
    ensures Reaches("", MethodStart, EMPTY)
  {
  }

  /** Whatever has not been rejected is the text of a partial document that the parser's fields describe. */
  lemma {:induction false} ParseReaches(s: string) returns (st: State, d: Doc)
    requires !Parse(s).status.Bad?
    ensures Reaches(s, st, d)
  {
    hide Reaches, Grow, Step;
    if s == "" {
      st, d := MethodStart, EMPTY;
      EmptyReaches();
    } else {
      var t, c := s[..|s| - 1], s[|s| - 1];
      var st0, d0 := ParseReaches(t);
      ReachesText(t, st0, d0);
      ReachesNext(t, st0, d0, c);
      assert t + [c] == s;
      var g := Grow(st0, d0, c);
      st, d := g.state, g.doc;
    }
  }

  /** The text of a partial document is never rejected, and parsing it leaves that document's fields. */
  lemma {:induction false} PartialIsReached(st: State, d: Doc)
    requires Partial(st, d)
    ensures Reaches(PartialText(st, d), st, d)
    decreases |PartialText(st, d)|
  {
    if st != MethodStart {
      var st0, d0, c := Shrink(st, d);
      GrowText(st0, d0, c);
      PartialIsReached(st0, d0);
      ReachesNext(PartialText(st0, d0), st0, d0, c);
    }
  }

  /** A non-empty input ends good exactly when it is a request. */
  lemma GoodIffRequest(s: string)
    requires s != ""
    ensures Parse(s).status.Good? <==> IsRequest(s)
  {
    hide Reaches, Partial, Valid, Parse;
    if Parse(s).status.Good? {
      var st, d := ParseReaches(s);
      GoodIsWhole(s, st, d);
    }
    if IsRequest(s) {
      var d :| Valid(d) && Serialize(d) == s;
      ValidIsReached(d);
    }
  }

  lemma GoodIsWhole(s: string, st: State, d: Doc)
    requires Reaches(s, st, d) && s != "" && Parse(s).status.Good?
    ensures Valid(d) && Serialize(d) == s
  {
    hide FieldsMatch, Parse;
  }

  lemma ValidIsReached(d: Doc)
    requires Valid(d)
    ensures Reaches(Serialize(d), BodyState, d) && Parse(Serialize(d)).status == Good
  {
    hide FieldsMatch, Parse;
    PartialIsReached(BodyState, d);
  }

  /** An input is not rejected exactly when some continuation of it is a request. */
  lemma ViablePrefix(s: string)
    ensures !Parse(s).status.Bad? <==> Viable(s)
  {
    hide Reaches, Parse, Valid, Partial;
    if !Parse(s).status.Bad? {
      var st, d := ParseReaches(s);
      ReachesText(s, st, d);
      var t, whole := Complete(st, d);
      assert IsRequest(s + t);
    }
    if Viable(s) {
      var t :| IsRequest(s + t);
      var d :| Valid(d) && Serialize(d) == s + t;
      ValidIsReached(d);
      PrefixOfAccepted(s, t);
    }
  }

  lemma ReachesText(s: string, st: State, d: Doc)
    requires Reaches(s, st, d)
    ensures Partial(st, d) && PartialText(st, d) == s
  {
    hide FieldsMatch, Parse;
  }

  lemma {:induction false} PrefixOfAccepted(s: string, t: string)
    requires !Parse(s + t).status.Bad?
    ensures !Parse(s).status.Bad?
    decreases |t|
  {
    if t == "" {
      assert s + t == s;
    } else {
      assert (s + t)[..|s + t| - 1] == s + t[..|t| - 1];
      PrefixOfAccepted(s, t[..|t| - 1]);
    }
  }

  /**
    A rejected input is rejected at one byte: everything before it could still
    become a request, nothing that includes it can, and the raw request kept is
    the input up to and including it.
   */
  lemma {:induction false} BadByte(s: string) returns (k: nat)
    requires Parse(s).status.Bad?
    ensures k < |s| && Parse(s).req.raw == s[..k + 1]
    ensures Viable(s[..k]) && !Viable(s[..k + 1])
  {
    hide Viable, Reaches, Parse;
    RejectedStep(s);
    var t := s[..|s| - 1];
    if Parse(t).status.Bad? {
      k := BadByte(t);
      assert t[..k + 1] == s[..k + 1] && t[..k] == s[..k];
    } else {
      k := |s| - 1;
      assert s[..k + 1] == s;
      ViablePrefix(t);
      ViablePrefix(s);
      var st, d := ParseReaches(t);
      RawIsInput(t, st, d);
    }
  }

  lemma RejectedStep(s: string)
    requires Parse(s).status.Bad?
    ensures s != ""
    ensures var before := Parse(s[..|s| - 1]);
            Parse(s).req.raw == if before.status.Bad? then before.req.raw else before.req.raw + [s[|s| - 1]]
  {
  }

  lemma RawIsInput(s: string, st: State, d: Doc)
    requires Reaches(s, st, d)
    ensures Parse(s).req.raw == s
  {
    hide FieldsMatch, Parse, Partial, PartialText;
  }

  /** Writing a request and parsing it gives back its fields, with folded lines joined onto their header. */
  lemma SerializeThenParse(d: Doc)
    requires Valid(d)
    ensures var p := Parse(Serialize(d));
            && p.status == Good && p.req.raw == Serialize(d)
            && p.req.method_ == d.method_ && p.req.uri == d.uri
            && p.req.version == d.major + "." + d.minor
            && p.req.major == Decimal(d.major) && p.req.minor == Decimal(d.minor)
            && p.req.headers == FieldsOf(d.headers)
            && p.req.body == d.body
  {
    hide Parse, Serialize, PartialText, Valid;
    ValidIsReached(d);
  }

  /** One text is never two requests with different fields. */
  lemma RequestsAreUnambiguous(a: Doc, b: Doc)
    requires Valid(a) && Valid(b) && Serialize(a) == Serialize(b)
    ensures a.method_ == b.method_ && a.uri == b.uri && a.body == b.body
    ensures a.major + "." + a.minor == b.major + "." + b.minor
    ensures FieldsOf(a.headers) == FieldsOf(b.headers)
  {
    hide Parse, Serialize, Valid;
    SerializeThenParse(a);
    SerializeThenParse(b);
  }

  function BeforeDot(v: string): string {
    if v == "" || v[0] == '.' then "" else [v[0]] + BeforeDot(v[1..])
  }

  function AfterDot(v: string): string {
    if v == "" then "" else if v[0] == '.' then v[1..] else AfterDot(v[1..])
  }

  lemma {:induction false} DotSplits(a: string, b: string)
    requires forall c <- a :: IsDigit(c)
    ensures BeforeDot(a) == a && AfterDot(a) == ""
    ensures BeforeDot(a + "." + b) == a && AfterDot(a + "." + b) == b
  {
    if a != "" {
      assert a[0] in a;
      assert (a + "." + b)[1..] == a[1..] + "." + b;
      DotSplits(a[1..], b);
    }
  }

  lemma PartialDigits(st: State, d: Doc)
    requires Partial(st, d)
    ensures (forall c <- d.major :: IsDigit(c)) && (BeforeMinor(st) ==> d.minor == "")
    ensures st in {HeaderLws, HeaderName, SpaceBeforeHeaderValue, HeaderValue, ExpectingNewline2} ==> d.headers != []
    ensures st != FilePath && (d.uri != "" ==> d.uri[0] == '/')
  {
    hide HeadersOk, Token;
  }

  /** The fields in every state the parser can be in, whatever the input so far. */
  lemma FieldInvariants(s: string)
    requires !Parse(s).status.Bad?
    ensures var r := Parse(s).req;
            && r.state != FilePath
            && r.uri == r.handlerPath + r.filePath
            && NoLaterSlash(r.handlerPath)
            && (r.filePath != "" ==> r.filePath[0] == '/')
            && (r.uri != "" ==> r.uri[0] == '/')
            && r.major == Decimal(BeforeDot(r.version)) && r.minor == Decimal(AfterDot(r.version))
            && (r.state in {HeaderLws, HeaderName, SpaceBeforeHeaderValue, HeaderValue, ExpectingNewline2} ==>
                  r.headers != [])
  {
    hide Parse, PartialText, Decimal, Partial, BeforeDot, AfterDot, NoLaterSlash;
    var st, d := ParseReaches(s);
    PartialDigits(st, d);
    DotSplits(d.major, d.minor);
  }

  /** The target read so far is empty or absolute, of rejected input too. */
  lemma {:induction false} TargetIsAbsolute(s: string)
    ensures var uri := Parse(s).req.uri; uri != "" ==> uri[0] == '/'
  {
    if Parse(s).status.Bad? {
      TargetIsAbsolute(s[..|s| - 1]);
    } else {
      FieldInvariants(s);
    }
  }
}
