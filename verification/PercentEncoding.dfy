/** Percent-encoding, and the way back. */
module PercentEncoding {
  import opened Utf8
  import opened DecoderSpec
  import opened EncoderSpec

  datatype PercentSet = SpecialQuery | UrlEncoded

  predicate AlphaNumeric(b: byte) {
    0x30 <= b <= 0x39 || 0x41 <= b <= 0x5A || 0x61 <= b <= 0x7A
  }

  /** The byte must be written as an escape. */
  predicate MustEscape(b: byte, set_: PercentSet) {
    if b < 0x20 || b > 0x7E then true
    else if set_ == SpecialQuery then b in {0x20, 0x22, 0x23, 0x3C, 0x3E, 0x27}
    else !AlphaNumeric(b) && b !in {0x2A, 0x2D, 0x2E, 0x5F}
  }

  function HexDigit(n: nat): byte
    requires n < 16
  {
    if n < 10 then 0x30 + n else 0x41 + n - 10
  }

  function EscapeByte(b: byte, set_: PercentSet, spaceAsPlus: bool): seq<byte> {
    if spaceAsPlus && b == 0x20 then [0x2B]
    else if MustEscape(b, set_) then [0x25, HexDigit(b / 16), HexDigit(b % 16)]
    else [b]
  }

  function EscapeAll(bytes: seq<byte>, set_: PercentSet, spaceAsPlus: bool): seq<byte> {
    if bytes == [] then []
    else EscapeByte(bytes[0], set_, spaceAsPlus) + EscapeAll(bytes[1..], set_, spaceAsPlus)
  }

  function Decimal(n: nat): seq<byte> {
    if n < 10 then [0x30 + n] else Decimal(n / 10) + [0x30 + n % 10]
  }

  /** What stands in for a code point the encoding lacks: "&#", its number, ";". */
  function Reference(cp: nat): seq<byte> {
    [0x26, 0x23] + Decimal(cp) + [0x3B]
  }

  function EscapedReference(cp: nat): seq<byte> {
    [0x25, 0x32, 0x36, 0x25, 0x32, 0x33] + Decimal(cp) + [0x25, 0x33, 0x42]
  }

  /** The number written for a failed attempt, if it failed. */
  function Named(t: Trouble, cp: nat): nat {
    if t == UseReplacement then 0xFFFD else cp
  }

  /** The encoder's bytes for a text, references included, before any escaping. */
  ghost function RawText(e: Target, iso: Iso, cps: seq<nat>): seq<byte>
    requires e.tables.Valid() && EncoderState(iso)
    decreases |cps|
  {
    if cps == [] then EncodeEnd(e, iso)
    else
      var a := EncodeOne(e, iso, cps[0]);
      a.bytes + (if a.error == NoError then [] else Reference(Named(a.error, cps[0]))) + RawText(e, a.iso, cps[1..])
  }

  /** The percent-encoded text. */
  ghost function PercentText(e: Target, iso: Iso, cps: seq<nat>, set_: PercentSet, plus: bool): seq<byte>
    requires e.tables.Valid() && EncoderState(iso)
    decreases |cps|
  {
    if cps == [] then EscapeAll(EncodeEnd(e, iso), set_, plus)
    else
      var a := EncodeOne(e, iso, cps[0]);
      EscapeAll(a.bytes, set_, plus)
      + (if a.error == NoError then [] else EscapedReference(Named(a.error, cps[0])))
      + PercentText(e, a.iso, cps[1..], set_, plus)
  }

  // ----- reading it back -----

  function HexValue(b: byte): int {
    if 0x30 <= b <= 0x39 then b - 0x30
    else if 0x41 <= b <= 0x46 then b - 0x41 + 10
    else if 0x61 <= b <= 0x66 then b - 0x61 + 10
    else -1
  }

  /** Percent-decoding of a form, per the URL Standard's urlencoded parser. */
  function Unescape(s: seq<byte>, plus: bool): seq<byte> {
    if s == [] then []
    else if |s| >= 3 && s[0] == 0x25 && HexValue(s[1]) >= 0 && HexValue(s[2]) >= 0 then
      [HexValue(s[1]) * 16 + HexValue(s[2])] + Unescape(s[3..], plus)
    else [if plus && s[0] == 0x2B then 0x20 else s[0]] + Unescape(s[1..], plus)
  }

  lemma UnescapeByte(b: byte, plus: bool, rest: seq<byte>)
    ensures Unescape(EscapeByte(b, UrlEncoded, plus) + rest, plus) == [b] + Unescape(rest, plus)
  {
    hide MustEscape;
    var e := EscapeByte(b, UrlEncoded, plus);
    var s := e + rest;
    if |e| == 3 {
      HexRoundTrip(b);
      assert s[0] == 0x25 && s[1] == HexDigit(b / 16) && s[2] == HexDigit(b % 16) && s[3..] == rest;
    } else {
      assert s[0] == e[0] && s[1..] == rest;
      LiteralsStand(b, plus);
    }
  }

  lemma HexRoundTrip(b: byte)
    ensures b / 16 < 16 && HexValue(HexDigit(b / 16)) == b / 16 && HexValue(HexDigit(b % 16)) == b % 16
    ensures HexValue(HexDigit(b / 16)) * 16 + HexValue(HexDigit(b % 16)) == b
  {}

  /** A byte written as one byte is never the escape character, and is '+' only for a space. */
  lemma LiteralsStand(b: byte, plus: bool)
    ensures var e := EscapeByte(b, UrlEncoded, plus);
            |e| == 1 ==> e[0] != 0x25 && (if plus && e[0] == 0x2B then 0x20 else e[0]) == b
  {}

  lemma {:induction false} UnescapeAll(bytes: seq<byte>, plus: bool, rest: seq<byte>)
    ensures Unescape(EscapeAll(bytes, UrlEncoded, plus) + rest, plus) == bytes + Unescape(rest, plus)
  {
    hide EscapeByte;
    if bytes == [] {
      assert [] + rest == rest && bytes + Unescape(rest, plus) == Unescape(rest, plus);
    } else {
      var first, others := EscapeByte(bytes[0], UrlEncoded, plus), EscapeAll(bytes[1..], UrlEncoded, plus);
      assert first + others + rest == first + (others + rest);
      UnescapeByte(bytes[0], plus, others + rest);
      UnescapeAll(bytes[1..], plus, rest);
      assert bytes + Unescape(rest, plus) == [bytes[0]] + (bytes[1..] + Unescape(rest, plus));
    }
  }

  /** Digits need no escaping. */
  lemma {:induction false} DigitsStand(n: nat, plus: bool)
    ensures EscapeAll(Decimal(n), UrlEncoded, plus) == Decimal(n)
  {
    if n >= 10 {
      DigitsStand(n / 10, plus);
      EscapeConcat(Decimal(n / 10), [0x30 + n % 10], UrlEncoded, plus);
      assert EscapeAll([0x30 + n % 10], UrlEncoded, plus) == [0x30 + n % 10] + EscapeAll([], UrlEncoded, plus);
    } else {
      assert EscapeAll([0x30 + n], UrlEncoded, plus) == [0x30 + n] + EscapeAll([], UrlEncoded, plus);
    }
  }

  lemma {:induction false} EscapeConcat(a: seq<byte>, b: seq<byte>, set_: PercentSet, plus: bool)
    ensures EscapeAll(a + b, set_, plus) == EscapeAll(a, set_, plus) + EscapeAll(b, set_, plus)
  {
    if a == [] {
      assert a + b == b;
    } else {
      assert (a + b)[0] == a[0] && (a + b)[1..] == a[1..] + b;
      EscapeConcat(a[1..], b, set_, plus);
    }
  }

  lemma ReferenceIsEscaped(n: nat, plus: bool)
    ensures EscapedReference(n) == EscapeAll(Reference(n), UrlEncoded, plus)
  {
    hide EscapeAll;
    hide Decimal;
    EscapeConcat([0x26, 0x23] + Decimal(n), [0x3B], UrlEncoded, plus);
    EscapeConcat([0x26, 0x23], Decimal(n), UrlEncoded, plus);
    DigitsStand(n, plus);
    assert [0x26, 0x23] == [0x26] + [0x23];
    EscapeConcat([0x26], [0x23], UrlEncoded, plus);
    SingleEscapes(0x26, plus);
    SingleEscapes(0x23, plus);
    SingleEscapes(0x3B, plus);
  }

  lemma SingleEscapes(b: byte, plus: bool)
    ensures EscapeAll([b], UrlEncoded, plus) == EscapeByte(b, UrlEncoded, plus)
  {
    assert EscapeAll([b], UrlEncoded, plus) == EscapeByte(b, UrlEncoded, plus) + EscapeAll([], UrlEncoded, plus);
  }

  lemma UnescapesTo(bytes: seq<byte>, plus: bool)
    ensures Unescape(EscapeAll(bytes, UrlEncoded, plus), plus) == bytes
  {
    UnescapeAll(bytes, plus, []);
    assert EscapeAll(bytes, UrlEncoded, plus) + [] == EscapeAll(bytes, UrlEncoded, plus) && bytes + [] == bytes;
  }

  lemma UnescapeMaybe(present: bool, n: nat, plus: bool, rest: seq<byte>)
    ensures Unescape((if present then EscapedReference(n) else []) + rest, plus)
         == (if present then Reference(n) else []) + Unescape(rest, plus)
  {
    hide Unescape;
    hide EscapedReference;
    hide Reference;
    if present {
      ReferenceIsEscaped(n, plus);
      UnescapeAll(Reference(n), plus, rest);
    } else {
      assert [] + rest == rest && [] + Unescape(rest, plus) == Unescape(rest, plus);
    }
  }

  /** A form decoder gets exactly the encoder's bytes back, with a numeric reference for
      every code point the encoding lacks. */
  lemma {:induction false} FormRoundTrip(e: Target, iso: Iso, cps: seq<nat>, plus: bool)
    requires e.tables.Valid() && EncoderState(iso)
    ensures Unescape(PercentText(e, iso, cps, UrlEncoded, plus), plus) == RawText(e, iso, cps)
    decreases |cps|
  {
    hide EncodeOne;
    hide Unescape;
    hide EscapedReference;
    hide EscapeAll;
    hide Reference;
    if cps == [] {
      UnescapesTo(EncodeEnd(e, iso), plus);
    } else {
      var a := EncodeOne(e, iso, cps[0]);
      var n := Named(a.error, cps[0]);
      var tail, last := PercentText(e, a.iso, cps[1..], UrlEncoded, plus), RawText(e, a.iso, cps[1..]);
      FormRoundTrip(e, a.iso, cps[1..], plus);
      var ref, esc := if a.error == NoError then [] else Reference(n), if a.error == NoError then [] else EscapedReference(n);
      UnescapeMaybe(a.error != NoError, n, plus, tail);
      UnescapeAll(a.bytes, plus, esc + tail);
      Regroup(EscapeAll(a.bytes, UrlEncoded, plus), esc, tail);
      Regroup(a.bytes, ref, last);
    }
  }
}
