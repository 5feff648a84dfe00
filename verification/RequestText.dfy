/**
  Requests as they are sent, with the characters written out: which bytes belong
  to the character classes, and that plain requests parse good to their fields.
 */
module RequestText {
  import opened RequestState
  import opened RequestGrammar
  import opened RequestParsing
  import opened RequestRun

  predicate Letter(c: char) { 'a' <= c <= 'z' || 'A' <= c <= 'Z' }

  predicate Numeric(c: char) { '0' <= c <= '9' }

  /** The characters of methods and header names, as section 2.2 of RFC 2068 leaves them. */
  predicate NameChar(c: char) {
    Letter(c) || Numeric(c) ||
    c in {'!', '#', '$', '%', '&', '\'', '*', '+', '-', '.', '^', '_', '`', '|', '~'}
  }

  lemma TokenCharIs(c: char)
    ensures IsTokenChar(c) <==> NameChar(c)
  {
  }

  /** Control bytes are the first 32 and the delete byte; blanks, printable bytes and bytes above 127 are none. */
  lemma CtlIs(c: char)
    ensures IsCtl(c) <==> c < ' ' || c == 127 as char
    ensures IsCtl('\t') && IsCtl('\r') && IsCtl('\n') && !IsCtl(' ')
  {
  }

  /** The ten digits and their values. */
  lemma DigitIs(c: char)
    ensures IsDigit(c) <==> c in {'0', '1', '2', '3', '4', '5', '6', '7', '8', '9'}
    ensures Digit('0') == 0 && Digit('1') == 1 && Digit('2') == 2 && Digit('3') == 3 && Digit('4') == 4
    ensures Digit('5') == 5 && Digit('6') == 6 && Digit('7') == 7 && Digit('8') == 8 && Digit('9') == 9
  {
  }

  /** Numbers are read in base ten, the last digit counting least. */
  lemma DecimalIs(s: string, c: char)
    requires Numeric(c)
    ensures Decimal("") == 0 && Decimal(s + [c]) == 10 * Decimal(s) + (c as int - '0' as int)
  {
    assert (s + [c])[..|s|] == s;
  }

  /** A continuation line as it is sent: a line end, blanks and text. */
  datatype Continuation = Continuation(blanks: string, text: string)

  datatype Field = Field(name: string, value: string, more: seq<Continuation>)

  predicate FieldOk(f: Field) {
    && f.name != "" && (forall c <- f.name :: NameChar(c))
    && (forall c <- f.value :: ' ' <= c && c != 127 as char)
    && forall m <- f.more :: ContinuationOk(m)
  }

  predicate ContinuationOk(m: Continuation) {
    && m.blanks != "" && (forall c <- m.blanks :: c == ' ' || c == '\t')
    && (m.text != "" ==> m.text[0] != ' ')
    && forall c <- m.text :: ' ' <= c && c != 127 as char
  }

  function Sent(f: Field): string { f.name + ": " + f.value + SentMore(f.more) + "\r\n" }

  function SentMore(ms: seq<Continuation>): string {
    if ms == [] then "" else SentMore(Front(ms)) + "\r\n" + Last(ms).blanks + Last(ms).text
  }

  function SentFields(fs: seq<Field>): string { if fs == [] then "" else SentFields(Front(fs)) + Sent(Last(fs)) }

  function Texts(ms: seq<Continuation>): string { if ms == [] then "" else Texts(Front(ms)) + Last(ms).text }

  /** The names and values the receiver sees. */
  function Received(fs: seq<Field>): (r: seq<(string, string)>)
    ensures |r| == |fs|
    ensures forall i :: 0 <= i < |r| ==> r[i] == (fs[i].name, fs[i].value + Texts(fs[i].more))
  {
    seq(|fs|, i requires 0 <= i < |fs| => (fs[i].name, fs[i].value + Texts(fs[i].more)))
  }

  function FoldsOf(ms: seq<Continuation>): seq<Fold> {
    if ms == [] then [] else FoldsOf(Front(ms)) + [Fold(Last(ms).blanks, Last(ms).text)]
  }

  function HeaderOf(f: Field): Header { Header(f.name, f.value, FoldsOf(f.more)) }

  function HeadersOf(fs: seq<Field>): (r: seq<Header>)
    ensures |r| == |fs|
  {
    if fs == [] then [] else HeadersOf(Front(fs)) + [HeaderOf(Last(fs))]
  }

  lemma {:induction false} FoldsSent(ms: seq<Continuation>)
    ensures FoldsText(FoldsOf(ms)) == SentMore(ms) && FoldValue(FoldsOf(ms)) == Texts(ms)
  {
    if ms != [] {
      FoldsSent(Front(ms));
      var fs := FoldsOf(ms);
      assert fs[..|fs| - 1] == FoldsOf(Front(ms));
    }
  }

  lemma HeaderSent(f: Field)
    ensures HeaderText(HeaderOf(f)) + "\r\n" == Sent(f)
    ensures FieldOf(HeaderOf(f)) == (f.name, f.value + Texts(f.more))
  {
    FoldsSent(f.more);
  }

  lemma {:induction false} HeadersSent(fs: seq<Field>)
    ensures HeadersText(HeadersOf(fs)) == SentFields(fs)
  {
    if fs != [] {
      hide HeaderText, Sent, HeaderOf;
      HeadersSent(Front(fs));
      HeaderSent(Last(fs));
      var hs := HeadersOf(fs);
      assert hs[..|hs| - 1] == HeadersOf(Front(fs));
      var before, h := SentFields(Front(fs)), HeaderText(HeaderOf(Last(fs)));
      assert before + h + "\r\n" == before + (h + "\r\n");
    }
  }

  lemma {:induction false} FieldsReceived(fs: seq<Field>)
    ensures FieldsOf(HeadersOf(fs)) == Received(fs)
  {
    if fs != [] {
      hide FieldOf, HeaderOf, FieldsOf;
      FieldsReceived(Front(fs));
      HeaderSent(Last(fs));
      FieldsSnoc(HeadersOf(Front(fs)), HeaderOf(Last(fs)));
      assert Received(fs) == Received(Front(fs)) + [FieldOf(HeaderOf(Last(fs)))];
    }
  }

  lemma FieldFits(f: Field)
    requires FieldOk(f)
    ensures HeaderOk(HeaderOf(f))
  {
    forall c | c in f.name ensures IsTokenChar(c) {
      TokenCharIs(c);
    }
    FoldsFit(f.more);
  }

  lemma {:induction false} FoldsFit(ms: seq<Continuation>)
    requires forall m <- ms :: ContinuationOk(m)
    ensures forall f <- FoldsOf(ms) :: FoldOk(f)
  {
    if ms != [] {
      assert Last(ms) in ms && forall m <- Front(ms) :: m in ms;
      FoldsFit(Front(ms));
    }
  }

  lemma {:induction false} FieldsFit(fs: seq<Field>)
    requires forall f <- fs :: FieldOk(f)
    ensures HeadersOk(HeadersOf(fs))
  {
    if fs != [] {
      assert Last(fs) in fs && forall f <- Front(fs) :: f in fs;
      FieldFits(Last(fs));
      FieldsFit(Front(fs));
    }
  }

  /**
    A request of plain characters parses good, to what was sent: the bytes and
    the line ends are written out here.
   */
  lemma SentIsReceived(name: string, uri: string, major: string, minor: string, fs: seq<Field>, body: string)
    requires name != "" && forall c <- name :: NameChar(c)
    requires uri != "" && uri[0] == '/' && forall c <- uri :: ' ' < c && c != 127 as char
    requires major != "" && minor != "" && forall c <- major + minor :: Numeric(c)
    requires forall f <- fs :: FieldOk(f)
    ensures var p := Parse(name + " " + uri + " HTTP/" + major + "." + minor + "\r\n" + SentFields(fs) + "\r\n" + body);
            && p.status == Good
            && p.req.method_ == name && p.req.uri == uri && p.req.version == major + "." + minor
            && p.req.major == Decimal(major) && p.req.minor == Decimal(minor)
            && p.req.headers == Received(fs) && p.req.body == body
  {
    var d := Doc(name, uri, major, minor, HeadersOf(fs), body);
    forall c | c in name ensures IsTokenChar(c) {
      TokenCharIs(c);
    }
    FieldsFit(fs);
    assert forall c <- major :: c in major + minor;
    assert forall c <- minor :: c in major + minor;
    assert forall i :: 0 <= i < |uri| ==> uri[i] in uri;
    assert Valid(d);
    TextSent(d, fs);
    SerializeThenParse(d);
  }

  lemma TextSent(d: Doc, fs: seq<Field>)
    requires d.headers == HeadersOf(fs)
    ensures Serialize(d) == d.method_ + " " + d.uri + " HTTP/" + d.major + "." + d.minor + "\r\n" + SentFields(fs)
                            + "\r\n" + d.body
    ensures FieldsOf(d.headers) == Received(fs)
  {
    hide HeadersText, SentFields, FieldsOf, Received;
    HeadersSent(fs);
    FieldsReceived(fs);
  }
}
