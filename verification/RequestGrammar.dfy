/**
  The grammar of requests, as documents and the text they are written as, and
  the partial documents a parser may stand in the middle of.
 */
module RequestGrammar {
  import opened RequestState

  /** A continuation line: the blanks it starts with and the rest. */
  datatype Fold = Fold(ws: string, text: string)

  datatype Header = Header(name: string, first: string, folds: seq<Fold>)

  datatype Doc = Doc(
    method_: string, uri: string, major: string, minor: string,
    headers: seq<Header>, body: string)

  const EMPTY := Doc("", "", "", "", [], "")

  predicate Token(s: string) { s != "" && forall c <- s :: IsTokenChar(c) }

  predicate UriOk(s: string) {
    s != "" && s[0] == '/' && forall i :: 1 <= i < |s| ==> s[i] != ' ' && !IsCtl(s[i])
  }

  predicate Digits(s: string) { s != "" && forall c <- s :: IsDigit(c) }

  predicate ValueText(s: string) { forall c <- s :: !IsCtl(c) }

  predicate Blanks(s: string) { s != "" && forall c <- s :: c == ' ' || c == '\t' }

  predicate FoldOk(f: Fold) { Blanks(f.ws) && ValueText(f.text) && (f.text != "" ==> f.text[0] != ' ') }

  predicate HeaderOk(h: Header) {
    Token(h.name) && ValueText(h.first) && forall f <- h.folds :: FoldOk(f)
  }

  predicate HeadersOk(hs: seq<Header>) { forall h <- hs :: HeaderOk(h) }

  /** A whole request. */
  predicate Valid(d: Doc) {
    Token(d.method_) && UriOk(d.uri) && Digits(d.major) && Digits(d.minor) && HeadersOk(d.headers)
  }

  function FoldsText(fs: seq<Fold>): string {
    if fs == [] then ""
    else FoldsText(fs[..|fs| - 1]) + "\r\n" + fs[|fs| - 1].ws + fs[|fs| - 1].text
  }

  /** A header up to, not including, its last line end. */
  function HeaderText(h: Header): string {
    h.name + ": " + h.first + FoldsText(h.folds)
  }

  function HeadersText(hs: seq<Header>): string {
    if hs == [] then ""
    else HeadersText(hs[..|hs| - 1]) + HeaderText(hs[|hs| - 1]) + "\r\n"
  }

  function Target(d: Doc): string { d.method_ + " " + d.uri }

  function RequestLine(d: Doc): string { Target(d) + " HTTP/" + d.major + "." + d.minor }

  function Head(d: Doc): string { RequestLine(d) + "\r\n" + HeadersText(d.headers) }

  /** The text of a whole request. */
  function Serialize(d: Doc): string { Head(d) + "\r\n" + d.body }

  /** An input is a request when some valid document is written as it. */
  ghost predicate IsRequest(s: string) { exists d :: Valid(d) && Serialize(d) == s }

  /** Some continuation of the input is a request. */
  ghost predicate Viable(s: string) { exists t :: IsRequest(s + t) }

  function Front<T>(s: seq<T>): seq<T>
    requires s != []
  {
    s[..|s| - 1]
  }

  function Last<T>(s: seq<T>): T
    requires s != []
  {
    s[|s| - 1]
  }

  predicate NoLaterSlash(u: string) { forall i :: 1 <= i < |u| ==> u[i] != '/' }

  /** A document that is complete as far as the state says. */
  predicate Partial(st: State, d: Doc) {
    match st
    case MethodStart => d == EMPTY
    case MethodInside | HandlerPathStart => Token(d.method_) && d == EMPTY.(method_ := d.method_)
    case HandlerPath => HasTarget(d) && NoLaterSlash(d.uri) && d == EMPTY.(method_ := d.method_, uri := d.uri)
    case UriInside => HasTarget(d) && !NoLaterSlash(d.uri) && d == EMPTY.(method_ := d.method_, uri := d.uri)
    case VersionH | VersionT1 | VersionT2 | VersionP | VersionSlash | MajorStart =>
      HasTarget(d) && d == EMPTY.(method_ := d.method_, uri := d.uri)
    case Major | MinorStart => HasTarget(d) && Digits(d.major) && d == d.(minor := "", headers := [], body := "")
    case Minor | ExpectingNewline1 => HasLine(d) && d == d.(headers := [], body := "")
    case HeaderLineStart | ExpectingNewline3 => HasLine(d) && HeadersOk(d.headers) && d.body == ""
    case HeaderName | SpaceBeforeHeaderValue =>
      HasOpenHeader(d) && Last(d.headers).first == "" && Last(d.headers).folds == []
    case HeaderLws => HasOpenHeader(d) && EndsInBlanks(Last(d.headers))
    case HeaderValue => HasOpenHeader(d) && !EndsInBlanks(Last(d.headers))
    case ExpectingNewline2 => HasOpenHeader(d)
    case BodyState => Valid(d)
    case FilePath => false
  }

  predicate HasTarget(d: Doc) { Token(d.method_) && UriOk(d.uri) }

  predicate HasLine(d: Doc) { HasTarget(d) && Digits(d.major) && Digits(d.minor) }

  predicate HasOpenHeader(d: Doc) { HasLine(d) && d.headers != [] && HeadersOk(d.headers) && d.body == "" }

  /** The last continuation line holds nothing but blanks so far. */
  predicate EndsInBlanks(h: Header) { h.folds != [] && Last(h.folds).text == "" }

  /** The headers and the open header, without its line end. */
  function OpenHead(d: Doc): string
    requires d.headers != []
  {
    RequestLine(d) + "\r\n" + HeadersText(Front(d.headers)) + HeaderText(Last(d.headers))
  }

  /** The text that leads to a state with a partial document. */
  function PartialText(st: State, d: Doc): string
    requires Partial(st, d)
  {
    match st
    case MethodStart => ""
    case MethodInside => d.method_
    case HandlerPathStart => d.method_ + " "
    case HandlerPath | UriInside => Target(d)
    case VersionH => Target(d) + " "
    case VersionT1 => Target(d) + " H"
    case VersionT2 => Target(d) + " HT"
    case VersionP => Target(d) + " HTT"
    case VersionSlash => Target(d) + " HTTP"
    case MajorStart => Target(d) + " HTTP/"
    case Major => Target(d) + " HTTP/" + d.major
    case MinorStart => Target(d) + " HTTP/" + d.major + "."
    case Minor => RequestLine(d)
    case ExpectingNewline1 => RequestLine(d) + "\r"
    case HeaderLineStart => Head(d)
    case HeaderName => RequestLine(d) + "\r\n" + HeadersText(Front(d.headers)) + Last(d.headers).name
    case SpaceBeforeHeaderValue => RequestLine(d) + "\r\n" + HeadersText(Front(d.headers)) + Last(d.headers).name + ":"
    case HeaderLws | HeaderValue => OpenHead(d)
    case ExpectingNewline2 => OpenHead(d) + "\r"
    case ExpectingNewline3 => Head(d) + "\r"
    case BodyState => Serialize(d)
    case FilePath => ""
  }
}
