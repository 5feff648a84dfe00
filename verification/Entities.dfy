/** Numeric character references: how addresses are hidden in them, and that the general encoder leaves them alone. */
module Entities {

  function DigitChar(d: nat): (c: char)
    requires d < 16
  {
    if d < 10 then '0' + d as char else 'a' + (d - 10) as char
  }

  predicate IsDigit(c: char, base: nat) {
    '0' <= c <= '9' || (base == 16 && ('a' <= c <= 'f' || 'A' <= c <= 'F'))
  }

  function DigitValue(c: char): nat
    requires IsDigit(c, 16)
  {
    if '0' <= c <= '9' then c as int - '0' as int
    else if 'a' <= c <= 'f' then c as int - 'a' as int + 10
    else c as int - 'A' as int + 10
  }

  /** The digits of a number, as an output stream writes them. */
  function Numeral(n: nat, base: nat): string
    requires base == 10 || base == 16
  {
    if n < base then [DigitChar(n)] else Numeral(n / base, base) + [DigitChar(n % base)]
  }

  /** The number that digits stand for. */
  function Value(s: string, base: nat): nat
    requires forall c <- s :: IsDigit(c, 16)
  {
    if s == "" then 0 else Value(s[..|s| - 1], base) * base + DigitValue(s[|s| - 1])
  }

  lemma {:induction false} NumeralValue(n: nat, base: nat)
    requires base == 10 || base == 16
    ensures Numeral(n, base) != "" && (forall c <- Numeral(n, base) :: IsDigit(c, base) && IsDigit(c, 16))
    ensures Value(Numeral(n, base), base) == n
  {
    if n >= base {
      NumeralValue(n / base, base);
      var s := Numeral(n, base);
      assert s[..|s| - 1] == Numeral(n / base, base);
    }
  }

  /** One byte of an address: bytes above 127 as they are, the others as references, in turn decimal and hexadecimal. */
  function EncodeByte(c: char, inHex: bool): string {
    if c as int >= 128 then [c]
    else if inHex then "&#x" + Numeral(c as int, 16) + ";"
    else "&#" + Numeral(c as int, 10) + ";"
  }

  function Encode(src: string, inHex: bool): string {
    if src == "" then "" else EncodeByte(src[0], inHex) + Encode(src[1..], !inHex)
  }

  /** Bytes are written in decimal and in hexadecimal by turns, the first in decimal. */
  lemma EncodedByTurns(c: char, d: char, rest: string)
    ensures Encode("", false) == ""
    ensures Encode([c], false) == if c as int >= 128 then [c] else "&#" + Numeral(c as int, 10) + ";"
    ensures Encode([c, d] + rest, false)
      == (if c as int >= 128 then [c] else "&#" + Numeral(c as int, 10) + ";")
       + ((if d as int >= 128 then [d] else "&#x" + Numeral(d as int, 16) + ";") + Encode(rest, false))
  {
    hide Numeral;
    var s := [c, d] + rest;
    assert s[1..] == [d] + rest && s[1..][1..] == rest;
    assert [c][1..] == "" && EncodeByte(c, false) + "" == EncodeByte(c, false);
  }

  /** The digits, and how the last one is split off a number. */
  lemma NumeralDigits(n: nat, base: nat)
    requires base == 10 || base == 16
    ensures n < base ==> Numeral(n, base) == ["0123456789abcdef"[n]]
    ensures n >= base ==> Numeral(n, base) == Numeral(n / base, base) + ["0123456789abcdef"[n % base]]
  {
    assert forall d: nat :: d < 16 ==> DigitChar(d) == "0123456789abcdef"[d];
  }

  /** Numbers are written with the digits of their base, letters small, and no leading zero. */
  lemma {:induction false} NumeralIsCanonical(n: nat, base: nat)
    requires base == 10 || base == 16
    ensures forall c <- Numeral(n, base) :: '0' <= c <= '9' || (base == 16 && 'a' <= c <= 'f')
    ensures Numeral(n, base) != "" && (n > 0 ==> Numeral(n, base)[0] != '0') && Numeral(0, base) == "0"
  {
    if n >= base {
      NumeralIsCanonical(n / base, base);
    }
  }

  method EmailEncode(src: string) returns (out: string)
    ensures out == Encode(src, false)
  {
    out := "";
    var inHex := false;
    for i := 0 to |src|
      invariant out + Encode(src[i..], inHex) == Encode(src, false)
    {
      assert src[i..][0] == src[i] && src[i..][1..] == src[i + 1..];
      ghost var rest := Encode(src[i + 1..], !inHex);
      assert out + (EncodeByte(src[i], inHex) + rest) == out + EncodeByte(src[i], inHex) + rest;
      if src[i] as int >= 128 {
        out := out + [src[i]];
      } else if inHex {
        out := out + ("&#x" + Numeral(src[i] as int, 16) + ";");
      } else {
        out := out + ("&#" + Numeral(src[i] as int, 10) + ";");
      }
      inHex := !inHex;
    }
    assert out + "" == out;
  }

  /** The length of the run of digits a text starts with. */
  function DigitRun(s: string, base: nat): (n: nat)
    ensures n <= |s| && forall i :: 0 <= i < n ==> IsDigit(s[i], base)
  {
    if s == "" || !IsDigit(s[0], base) then 0 else 1 + DigitRun(s[1..], base)
  }

  datatype Reference = NoReference | Reference(code: nat, length: nat)

  /** The numeric character reference a text starts with, as section 5.3.1 of HTML 4.01 writes them. */
  function ReferenceAt(s: string): (r: Reference)
    ensures r.Reference? ==> 0 < r.length <= |s|
  {
    if |s| < 3 || s[0] != '&' || s[1] != '#' then NoReference
    else
      var hex := s[2] == 'x' || s[2] == 'X';
      var start, base := if hex then 3 else 2, if hex then 16 else 10;
      var n := DigitRun(s[start..], base);
      if n == 0 || start + n >= |s| || s[start + n] != ';' then NoReference
      else
        assert forall i :: 0 <= i < n ==> s[start..start + n][i] == s[start..][i];
        Reference(Value(s[start..start + n], base), start + n + 1)
  }

  predicate IsCharCode(n: nat) { n < 0xD800 || 0xE000 <= n < 0x11_0000 }

  /** A text with its numeric character references replaced by the characters they stand for. */
  function Decode(s: string): string
    decreases |s|
  {
    if s == "" then ""
    else
      var r := ReferenceAt(s);
      if r.Reference? && IsCharCode(r.code) then [r.code as char] + Decode(s[r.length..])
      else [s[0]] + Decode(s[1..])
  }

  lemma {:induction false} DigitRunOf(d: string, t: string, base: nat)
    requires base == 10 || base == 16
    requires forall c <- d :: IsDigit(c, base)
    ensures DigitRun(d + ";" + t, base) == |d|
  {
    var s := d + ";" + t;
    if d != "" {
      assert d[0] in d && s[1..] == d[1..] + ";" + t;
      DigitRunOf(d[1..], t, base);
    }
  }

  /** A reference written for a number is read as that number. */
  lemma NumeralIsReference(n: nat, hex: bool, t: string)
    ensures var base := if hex then 16 else 10;
            var ref := (if hex then "&#x" else "&#") + Numeral(n, base) + ";";
            ReferenceAt(ref + t) == Reference(n, |ref|)
  {
    hide Numeral, Value, DigitRun;
    var base := if hex then 16 else 10;
    var d := Numeral(n, base);
    NumeralValue(n, base);
    DigitRunOf(d, t, base);
    var head := if hex then "&#x" else "&#";
    var s := head + d + ";" + t;
    assert d[0] in d && s[|head|] == d[0];
    assert s[|head|..] == d + ";" + t && s[|head|..|head| + |d|] == d;
    assert head + d + ";" + t == (head + d + ";") + t;
  }

  /** Decoding an encoded address gives the address back, whatever its bytes. */
  lemma {:induction false} DecodeEncode(src: string, inHex: bool)
    ensures Decode(Encode(src, inHex)) == src
  {
    if src != "" {
      var c, rest := src[0], Encode(src[1..], !inHex);
      DecodeEncode(src[1..], !inHex);
      DecodeByte(c, inHex, rest);
      assert [c] + src[1..] == src;
    }
  }

  lemma DecodeByte(c: char, inHex: bool, rest: string)
    ensures Decode(EncodeByte(c, inHex) + rest) == [c] + Decode(rest)
  {
    var e := EncodeByte(c, inHex);
    assert (e + rest)[|e|..] == rest;
    if c as int >= 128 {
      assert (e + rest)[0] == c;
    } else {
      NumeralIsReference(c as int, inHex, rest);
      assert (c as int) as char == c;
    }
  }

  /** A short reference as the general encoder looks for: up to three decimal or two hexadecimal digits. */
  predicate ShortReference(s: string) {
    && ReferenceAt(s).Reference?
    && ReferenceAt(s).length <= 6
  }

  /**
    The general encoder with the flags for ampersands, angle brackets and
    quotes; `ignored` says whether the search that spares an ampersand succeeds
    on the text from that ampersand on.
   */
  function EncodeString(src: string, ignored: string -> bool): string {
    if src == "" then "" else EncodeFirst(src, ignored) + EncodeString(src[1..], ignored)
  }

  function EncodeFirst(src: string, ignored: string -> bool): string
    requires src != ""
  {
    if src[0] == '&' then (if ignored(src) then "&" else "&amp;")
    else if src[0] == '<' then "&lt;"
    else if src[0] == '>' then "&gt;"
    else if src[0] == '"' then "&quot;"
    else [src[0]]
  }

  method EncodeText(src: string, ignored: string -> bool) returns (tgt: string)
    ensures tgt == EncodeString(src, ignored)
  {
    hide EncodeString;
    tgt := "";
    assert src[0..] == src;
    for i := 0 to |src|
      invariant tgt + EncodeString(src[i..], ignored) == EncodeString(src, ignored)
    {
      var add: string;
      if src[i] == '&' {
        add := if ignored(src[i..]) then "&" else "&amp;";
      } else if src[i] == '<' {
        add := "&lt;";
      } else if src[i] == '>' {
        add := "&gt;";
      } else if src[i] == '"' {
        add := "&quot;";
      } else {
        add := [src[i]];
      }
      EncodeNext(src, i, ignored);
      ghost var rest := EncodeString(src[i + 1..], ignored);
      assert tgt + (add + rest) == tgt + add + rest;
      tgt := tgt + add;
    }
    EncodeNothing(ignored);
    assert src[|src|..] == "";
    assert tgt + "" == tgt;
  }

  lemma EncodeNothing(ignored: string -> bool)
    ensures EncodeString("", ignored) == ""
  {
  }

  lemma EncodeNext(src: string, i: nat, ignored: string -> bool)
    requires i < |src|
    ensures EncodeString(src[i..], ignored) == EncodeFirst(src[i..], ignored) + EncodeString(src[i + 1..], ignored)
  {
    assert src[i..][0] == src[i] && src[i..][1..] == src[i + 1..];
  }

  /** A text as it is shown when its four named entities are read. */
  function Shown(s: string): string
    decreases |s|
  {
    if s == "" then ""
    else if s[0] != '&' then [s[0]] + Shown(s[1..])
    else if "&amp;" <= s then "&" + Shown(s[5..])
    else if "&lt;" <= s then "<" + Shown(s[4..])
    else if "&gt;" <= s then ">" + Shown(s[4..])
    else if "&quot;" <= s then "\"" + Shown(s[6..])
    else [s[0]] + Shown(s[1..])
  }

  lemma ShownEntity(t: string)
    ensures Shown("&amp;" + t) == "&" + Shown(t)
    ensures Shown("&lt;" + t) == "<" + Shown(t)
    ensures Shown("&gt;" + t) == ">" + Shown(t)
    ensures Shown("&quot;" + t) == "\"" + Shown(t)
  {
    assert ("&amp;" + t)[5..] == t;
    assert ("&lt;" + t)[4..] == t && ("&lt;" + t)[1] == 'l';
    assert ("&gt;" + t)[4..] == t && ("&gt;" + t)[1] == 'g';
    assert ("&quot;" + t)[6..] == t && ("&quot;" + t)[1] == 'q';
  }

  lemma ShownCharacter(c: char, t: string)
    requires c != '&'
    ensures Shown([c] + t) == [c] + Shown(t)
  {
    assert ([c] + t)[1..] == t;
  }

  lemma FirstIsShown(src: string, ignored: string -> bool, t: string)
    requires src != "" && !ignored(src)
    ensures Shown(EncodeFirst(src, ignored) + t) == [src[0]] + Shown(t)
  {
    hide Shown;
    ShownEntity(t);
    if src[0] != '&' {
      ShownCharacter(src[0], t);
    }
  }

  /** Encoded text is shown as it was, where no ampersand is spared. */
  lemma {:induction false} EncodedIsShown(src: string, ignored: string -> bool)
    requires forall t :: !ignored(t)
    ensures Shown(EncodeString(src, ignored)) == src
  {
    if src != "" {
      hide Shown, EncodeFirst;
      EncodedIsShown(src[1..], ignored);
      FirstIsShown(src, ignored, EncodeString(src[1..], ignored));
    }
  }

  /** Whatever is spared, nothing encoded can open or close a tag or an attribute. */
  lemma {:induction false} EncodedIsHarmless(src: string, ignored: string -> bool)
    ensures forall c <- EncodeString(src, ignored) :: c != '<' && c != '>' && c != '"'
  {
    if src != "" {
      EncodedIsHarmless(src[1..], ignored);
      FirstIsHarmless(src, ignored);
    }
  }

  lemma FirstIsHarmless(src: string, ignored: string -> bool)
    requires src != ""
    ensures forall c <- EncodeFirst(src, ignored) :: c != '<' && c != '>' && c != '"'
  {
  }

  predicate Plain(c: char) { c !in {'&', '<', '>', '"'} }

  /** Text without the characters the encoder replaces is copied. */
  lemma {:induction false} PlainIsCopied(u: string, t: string, ignored: string -> bool)
    requires forall c <- u :: Plain(c)
    ensures EncodeString(u + t, ignored) == u + EncodeString(t, ignored)
  {
    hide EncodeString;
    if u == "" {
      assert u + t == t && "" + EncodeString(t, ignored) == EncodeString(t, ignored);
    } else {
      assert u[0] in u && (u + t)[0..] == u + t && (u + t)[1..] == u[1..] + t;
      PlainIsCopied(u[1..], t, ignored);
      EncodeNext(u + t, 0, ignored);
      assert [u[0]] + (u[1..] + EncodeString(t, ignored)) == u + EncodeString(t, ignored);
    }
  }

  lemma {:induction false} NumeralIsShort(n: nat, base: nat)
    requires base == 10 || base == 16
    requires n < 128
    ensures |Numeral(n, base)| <= (if base == 10 then 3 else 2)
  {
    if n >= base {
      var m := n / base;
      assert |Numeral(n, base)| == |Numeral(m, base)| + 1;
      if m >= base {
        assert base == 10 && m / base < base;
        assert |Numeral(m, base)| == |Numeral(m / base, base)| + 1;
      }
    }
  }

  /** An encoded address passes through the general encoder unchanged: nothing is encoded twice. */
  lemma {:induction false} EncodedIsNotEncodedAgain(src: string, inHex: bool, ignored: string -> bool)
    requires forall t :: ShortReference(t) ==> ignored(t)
    ensures EncodeString(Encode(src, inHex), ignored) == Encode(src, inHex)
  {
    if src != "" {
      var c, rest := src[0], Encode(src[1..], !inHex);
      EncodedIsNotEncodedAgain(src[1..], !inHex, ignored);
      ByteIsNotEncodedAgain(c, inHex, rest, ignored);
    }
  }

  lemma ByteIsNotEncodedAgain(c: char, inHex: bool, rest: string, ignored: string -> bool)
    requires forall t :: ShortReference(t) ==> ignored(t)
    ensures EncodeString(EncodeByte(c, inHex) + rest, ignored) == EncodeByte(c, inHex) + EncodeString(rest, ignored)
  {
    hide EncodeString, ShortReference;
    var e := EncodeByte(c, inHex);
    if c as int >= 128 {
      assert forall x <- e :: Plain(x);
      PlainIsCopied(e, rest, ignored);
    } else {
      ByteIsReference(c, inHex, rest);
      EncodeNext(e + rest, 0, ignored);
      assert (e + rest)[0..] == e + rest && (e + rest)[1..] == e[1..] + rest;
      PlainIsCopied(e[1..], rest, ignored);
      assert "&" + e[1..] == e;
      assert "&" + (e[1..] + EncodeString(rest, ignored)) == e + EncodeString(rest, ignored);
    }
  }

  lemma ByteIsReference(c: char, inHex: bool, rest: string)
    requires (c as int) < 128
    ensures var e := EncodeByte(c, inHex);
            && e != "" && e[0] == '&' && ShortReference(e + rest)
            && forall x <- e[1..] :: Plain(x)
  {
    hide Numeral, Value, ReferenceAt;
    var base := if inHex then 16 else 10;
    var d := Numeral(c as int, base);
    NumeralIsReference(c as int, inHex, rest);
    NumeralIsShort(c as int, base);
    NumeralValue(c as int, base);
    var e := EncodeByte(c, inHex);
    assert e[1..] == (if inHex then "#x" else "#") + d + ";";
    forall x | x in e[1..] ensures Plain(x) {
      assert x == '#' || x == 'x' || x == ';' || x in d;
    }
  }
}
