/**
  The request parser as a state machine over values: the fields of a request
  under construction and what one more byte does to them.
 */
module RequestState {

  datatype State =
    | MethodStart | MethodInside
    | HandlerPathStart | HandlerPath | FilePath | UriInside
    | VersionH | VersionT1 | VersionT2 | VersionP | VersionSlash
    | MajorStart | Major | MinorStart | Minor
    | ExpectingNewline1
    | HeaderLineStart | HeaderLws | HeaderName | SpaceBeforeHeaderValue | HeaderValue
    | ExpectingNewline2 | ExpectingNewline3
    | BodyState

  datatype Status = Good | Bad | Indeterminate

  datatype Req = Req(
    raw: string, state: State,
    method_: string, uri: string, handlerPath: string, filePath: string,
    version: string, major: nat, minor: nat,
    headers: seq<(string, string)>, body: string)

  const INITIAL := Req("", MethodStart, "", "", "", "", "", 0, 0, [], "")

  /** Bytes above 127 are negative as the original's plain char; no class below holds for them. */
  predicate IsChar(c: char) { c as int <= 127 }

  predicate IsCtl(c: char) { c as int <= 31 || c as int == 127 }

  predicate IsTspecial(c: char) {
    c in {'(', ')', '<', '>', '@', ',', ';', ':', '\\', '"', '/', '[', ']', '?', '=', '{', '}', ' ', '\t'}
  }

  predicate IsDigit(c: char) { '0' <= c <= '9' }

  predicate IsTokenChar(c: char) { IsChar(c) && !IsCtl(c) && !IsTspecial(c) }

  function Digit(c: char): nat
    requires IsDigit(c)
  {
    c as int - '0' as int
  }

  /** The states from which the parser goes on to write to the last header. */
  predicate Ready(r: Req) {
    r.state in {HeaderLws, HeaderName, SpaceBeforeHeaderValue, HeaderValue} ==> r.headers != []
  }

  function PushName(hs: seq<(string, string)>, c: char): seq<(string, string)>
    requires hs != []
  {
    hs[|hs| - 1 := (hs[|hs| - 1].0 + [c], hs[|hs| - 1].1)]
  }

  function PushValue(hs: seq<(string, string)>, c: char): seq<(string, string)>
    requires hs != []
  {
    hs[|hs| - 1 := (hs[|hs| - 1].0, hs[|hs| - 1].1 + [c])]
  }

  datatype Parsed = Parsed(req: Req, status: Status)

  /** Consuming one byte. */
  function Step(r0: Req, c: char): (p: Parsed)
    requires Ready(r0)
    ensures Ready(p.req) && p.req.raw == r0.raw + [c]
  {
    var r := r0.(raw := r0.raw + [c]);
    var bad := Parsed(r, Bad);
    match r.state
    case MethodStart =>
      if !IsTokenChar(c) then bad
      else Parsed(r.(state := MethodInside, method_ := r.method_ + [c]), Indeterminate)
    case MethodInside =>
      if c == ' ' then Parsed(r.(state := HandlerPathStart), Indeterminate)
      else if !IsTokenChar(c) then bad
      else Parsed(r.(method_ := r.method_ + [c]), Indeterminate)
    case HandlerPathStart =>
      if c == '/' then
        Parsed(r.(state := HandlerPath, handlerPath := r.handlerPath + [c], uri := r.uri + [c]), Indeterminate)
      else bad
    case HandlerPath =>
      if c == ' ' then Parsed(r.(state := VersionH), Indeterminate)
      else if IsCtl(c) then bad
      else if c == '/' then
        Parsed(r.(state := UriInside, filePath := r.filePath + [c], uri := r.uri + [c]), Indeterminate)
      else Parsed(r.(handlerPath := r.handlerPath + [c], uri := r.uri + [c]), Indeterminate)
    case UriInside =>
      if c == ' ' then Parsed(r.(state := VersionH), Indeterminate)
      else if IsCtl(c) then bad
      else Parsed(r.(uri := r.uri + [c], filePath := r.filePath + [c]), Indeterminate)
    case VersionH => if c == 'H' then Parsed(r.(state := VersionT1), Indeterminate) else bad
    case VersionT1 => if c == 'T' then Parsed(r.(state := VersionT2), Indeterminate) else bad
    case VersionT2 => if c == 'T' then Parsed(r.(state := VersionP), Indeterminate) else bad
    case VersionP => if c == 'P' then Parsed(r.(state := VersionSlash), Indeterminate) else bad
    case VersionSlash =>
      if c == '/' then Parsed(r.(major := 0, minor := 0, state := MajorStart), Indeterminate) else bad
    case MajorStart =>
      if IsDigit(c) then
        Parsed(r.(major := r.major * 10 + Digit(c), version := r.version + [c], state := Major), Indeterminate)
      else bad
    case Major =>
      if c == '.' then Parsed(r.(version := r.version + [c], state := MinorStart), Indeterminate)
      else if IsDigit(c) then
        Parsed(r.(major := r.major * 10 + Digit(c), version := r.version + [c]), Indeterminate)
      else bad
    case MinorStart =>
      if IsDigit(c) then
        Parsed(r.(minor := r.minor * 10 + Digit(c), version := r.version + [c], state := Minor), Indeterminate)
      else bad
    case Minor =>
      if c == '\r' then Parsed(r.(state := ExpectingNewline1), Indeterminate)
      else if IsDigit(c) then
        Parsed(r.(minor := r.minor * 10 + Digit(c), version := r.version + [c]), Indeterminate)
      else bad
    case ExpectingNewline1 => if c == '\n' then Parsed(r.(state := HeaderLineStart), Indeterminate) else bad
    case HeaderLineStart =>
      if c == '\r' then Parsed(r.(state := ExpectingNewline3), Indeterminate)
      else if r.headers != [] && (c == ' ' || c == '\t') then Parsed(r.(state := HeaderLws), Indeterminate)
      else if !IsTokenChar(c) then bad
      else Parsed(r.(headers := r.headers + [([c], "")], state := HeaderName), Indeterminate)
    case HeaderLws =>
      if c == '\r' then Parsed(r.(state := ExpectingNewline2), Indeterminate)
      else if c == ' ' || c == '\t' then Parsed(r, Indeterminate)
      else if IsCtl(c) then bad
      else Parsed(r.(state := HeaderValue, headers := PushValue(r.headers, c)), Indeterminate)
    case HeaderName =>
      if c == ':' then Parsed(r.(state := SpaceBeforeHeaderValue), Indeterminate)
      else if !IsTokenChar(c) then bad
      else Parsed(r.(headers := PushName(r.headers, c)), Indeterminate)
    case SpaceBeforeHeaderValue =>
      if c == ' ' then Parsed(r.(state := HeaderValue), Indeterminate) else bad
    case HeaderValue =>
      if c == '\r' then Parsed(r.(state := ExpectingNewline2), Indeterminate)
      else if IsCtl(c) then bad
      else Parsed(r.(headers := PushValue(r.headers, c)), Indeterminate)
    case ExpectingNewline2 => if c == '\n' then Parsed(r.(state := HeaderLineStart), Indeterminate) else bad
    case ExpectingNewline3 => if c == '\n' then Parsed(r.(state := BodyState), Good) else bad
    case BodyState => Parsed(r.(body := r.body + [c]), Good)
    case FilePath => bad
  }

  /** Parsing a whole input: byte after byte until one is bad. */
  function Parse(s: string): (p: Parsed)
    ensures Ready(p.req)
  {
    if s == "" then Parsed(INITIAL, Good)
    else
      var p := Parse(s[..|s| - 1]);
      if p.status.Bad? then p else Step(p.req, s[|s| - 1])
  }
}
