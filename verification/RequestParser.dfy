/** The request object that the parser fills in byte by byte. */
module RequestParser {
  import opened RequestState

  class Request {
    var rawRequest: string
    var method_: string
    var uri: string
    var version: string
    var body: string
    var headers: seq<(string, string)>
    var handlerPath: string
    var filePath: string
    var httpVersionMajor: nat
    var httpVersionMinor: nat
    var parsedStatus: Status
    var state: State

    constructor ()
      ensures View() == INITIAL && parsedStatus == Good
    {
      rawRequest, method_, uri, version, body, headers := "", "", "", "", "", [];
      handlerPath, filePath, httpVersionMajor, httpVersionMinor := "", "", 0, 0;
      parsedStatus, state := Good, MethodStart;
    }

    function View(): Req
      reads this
    {
      Req(rawRequest, state, method_, uri, handlerPath, filePath, version,
          httpVersionMajor, httpVersionMinor, headers, body)
    }

    /** Handles the next byte of input. */
    method Consume(input: char) returns (result: Status)
      requires Ready(View())
      modifies this
      ensures Parsed(View(), result) == Step(old(View()), input)
      ensures parsedStatus == old(parsedStatus)
    {
      hide IsChar, IsCtl, IsTspecial, IsDigit, Digit, PushName, PushValue;
      rawRequest := rawRequest + [input];
      result := Indeterminate;
      match state
      case MethodStart =>
        if !IsChar(input) || IsCtl(input) || IsTspecial(input) {
          return Bad;
        }
        state := MethodInside;
        method_ := method_ + [input];
      case MethodInside =>
        if input == ' ' {
          state := HandlerPathStart;
        } else if !IsChar(input) || IsCtl(input) || IsTspecial(input) {
          return Bad;
        } else {
          method_ := method_ + [input];
        }
      case HandlerPathStart =>
        if input != '/' {
          return Bad;
        }
        state := HandlerPath;
        handlerPath := handlerPath + [input];
        uri := uri + [input];
      case HandlerPath =>
        if input == ' ' {
          state := VersionH;
          return;
        } else if IsCtl(input) {
          return Bad;
        } else if input == '/' {
          state := UriInside;
          filePath := filePath + [input];
        } else {
          handlerPath := handlerPath + [input];
        }
        uri := uri + [input];
      case UriInside =>
        if input == ' ' {
          state := VersionH;
        } else if IsCtl(input) {
          return Bad;
        } else {
          uri := uri + [input];
          filePath := filePath + [input];
        }
      case VersionH => result := Expect(input, 'H', VersionT1);
      case VersionT1 => result := Expect(input, 'T', VersionT2);
      case VersionT2 => result := Expect(input, 'T', VersionP);
      case VersionP => result := Expect(input, 'P', VersionSlash);
      case VersionSlash =>
        if input == '/' {
          httpVersionMajor, httpVersionMinor := 0, 0;
          state := MajorStart;
        } else {
          return Bad;
        }
      case MajorStart =>
        if IsDigit(input) {
          httpVersionMajor := httpVersionMajor * 10 + Digit(input);
          version := version + [input];
          state := Major;
        } else {
          return Bad;
        }
      case Major =>
        if input == '.' {
          version := version + [input];
          state := MinorStart;
        } else if IsDigit(input) {
          httpVersionMajor := httpVersionMajor * 10 + Digit(input);
          version := version + [input];
        } else {
          return Bad;
        }
      case MinorStart =>
        if IsDigit(input) {
          httpVersionMinor := httpVersionMinor * 10 + Digit(input);
          version := version + [input];
          state := Minor;
        } else {
          return Bad;
        }
      case Minor =>
        if input == '\r' {
          state := ExpectingNewline1;
        } else if IsDigit(input) {
          httpVersionMinor := httpVersionMinor * 10 + Digit(input);
          version := version + [input];
        } else {
          return Bad;
        }
      case ExpectingNewline1 => result := Expect(input, '\n', HeaderLineStart);
      case HeaderLineStart =>
        if input == '\r' {
          state := ExpectingNewline3;
        } else if headers != [] && (input == ' ' || input == '\t') {
          state := HeaderLws;
        } else if !IsChar(input) || IsCtl(input) || IsTspecial(input) {
          return Bad;
        } else {
          headers := headers + [([input], "")];
          state := HeaderName;
        }
      case HeaderLws =>
        if input == '\r' {
          state := ExpectingNewline2;
        } else if input == ' ' || input == '\t' {
        } else if IsCtl(input) {
          return Bad;
        } else {
          state := HeaderValue;
          headers := PushValue(headers, input);
        }
      case HeaderName =>
        if input == ':' {
          state := SpaceBeforeHeaderValue;
        } else if !IsChar(input) || IsCtl(input) || IsTspecial(input) {
          return Bad;
        } else {
          headers := PushName(headers, input);
        }
      case SpaceBeforeHeaderValue => result := Expect(input, ' ', HeaderValue);
      case HeaderValue =>
        if input == '\r' {
          state := ExpectingNewline2;
        } else if IsCtl(input) {
          return Bad;
        } else {
          headers := PushValue(headers, input);
        }
      case ExpectingNewline2 => result := Expect(input, '\n', HeaderLineStart);
      case ExpectingNewline3 =>
        if input == '\n' {
          state := BodyState;
          return Good;
        } else {
          return Bad;
        }
      case BodyState =>
        body := body + [input];
        return Good;
      case FilePath => return Bad;
    }

    /** The states that accept one byte only. */
    method Expect(input: char, wanted: char, next: State) returns (result: Status)
      modifies this`state
      ensures if input == wanted then result == Indeterminate && state == next
              else result == Bad && state == old(state)
    {
      if input == wanted {
        state := next;
        return Indeterminate;
      }
      return Bad;
    }

    /** Parses a whole input, stopping at the first bad byte. */
    static method ParseRequest(raw: string) returns (r: Request)
      ensures fresh(r) && Parsed(r.View(), r.parsedStatus) == Parse(raw)
    {
      r := new Request();
      for i := 0 to |raw|
        invariant fresh(r) && Parsed(r.View(), r.parsedStatus) == Parse(raw[..i])
        invariant !r.parsedStatus.Bad?
      {
        assert raw[..i + 1][..i] == raw[..i];
        var result := r.Consume(raw[i]);
        r.parsedStatus := result;
        if result == Bad {
          BadIsFinal(raw, i + 1);
          return;
        }
      }
      assert raw[..|raw|] == raw;
    }
  }

  /** Nothing after a bad byte matters. */
  lemma {:induction false} BadIsFinal(s: string, k: nat)
    requires k <= |s| && Parse(s[..k]).status.Bad?
    ensures Parse(s) == Parse(s[..k])
    decreases |s|
  {
    if k == |s| {
      assert s[..k] == s;
    } else {
      var t := s[..|s| - 1];
      assert t[..k] == s[..k];
      BadIsFinal(t, k);
    }
  }
}
