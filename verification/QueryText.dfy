/** The bytes of a query. */
module QueryText {
  import opened Utf8
  import opened DecoderSpec
  import opened EncoderSpec
  import opened PercentEncoding

  /** What may stand in the query of a URL: no control, no space, nothing above 0x7E, and none
      of " # ' < >. */
  predicate QueryByte(b: byte) {
    0x21 <= b <= 0x7E && b !in {0x22, 0x23, 0x27, 0x3C, 0x3E}
  }

  /** What stands for itself in a form: letters, digits, and * - . _ */
  predicate FormByte(b: byte) {
    AlphaNumeric(b) || b in {0x2A, 0x2D, 0x2E, 0x5F}
  }

  predicate Allowed(b: byte, set_: PercentSet, plus: bool) {
    if set_ == SpecialQuery then QueryByte(b) else FormByte(b) || b == 0x25 || (plus && b == 0x2B)
  }

  /** Bytes that are written as they are. */
  predicate Stands(b: byte, set_: PercentSet) {
    if set_ == SpecialQuery then QueryByte(b) else FormByte(b)
  }

  predicate AllAllowed(bytes: seq<byte>, set_: PercentSet, plus: bool) {
    forall k :: 0 <= k < |bytes| ==> Allowed(bytes[k], set_, plus)
  }

  predicate AllStand(bytes: seq<byte>, set_: PercentSet) {
    forall k :: 0 <= k < |bytes| ==> Stands(bytes[k], set_)
  }

  lemma ByteIsAllowed(b: byte, set_: PercentSet, plus: bool)
    ensures AllAllowed(EscapeByte(b, set_, plus), set_, plus)
    ensures Stands(b, set_) ==> EscapeByte(b, set_, plus) == [b]
    ensures !Stands(b, set_) ==> EscapeByte(b, set_, plus) != [b]
  {}

  lemma {:induction false} BytesAreAllowed(bytes: seq<byte>, set_: PercentSet, plus: bool)
    ensures AllAllowed(EscapeAll(bytes, set_, plus), set_, plus)
    ensures AllStand(bytes, set_) ==> EscapeAll(bytes, set_, plus) == bytes
  {
    hide EscapeByte;
    hide Allowed;
    hide Stands;
    if bytes != [] {
      ByteIsAllowed(bytes[0], set_, plus);
      BytesAreAllowed(bytes[1..], set_, plus);
      assert bytes == [bytes[0]] + bytes[1..];
    }
  }

  lemma {:induction false} DecimalIsDigits(n: nat)
    ensures forall k :: 0 <= k < |Decimal(n)| ==> 0x30 <= Decimal(n)[k] <= 0x39
  {
    if n >= 10 { DecimalIsDigits(n / 10); }
  }

  lemma ReferenceIsAllowed(n: nat, set_: PercentSet, plus: bool)
    ensures AllAllowed(EscapedReference(n), set_, plus)
  {
    DecimalIsDigits(n);
  }

  /** Every byte of the output is of the set's own alphabet. */
  lemma {:induction false} TextIsAllowed(e: Target, iso: Iso, cps: seq<nat>, set_: PercentSet, plus: bool)
    requires e.tables.Valid() && EncoderState(iso)
    ensures AllAllowed(PercentText(e, iso, cps, set_, plus), set_, plus)
    decreases |cps|
  {
    hide EncodeOne;
    hide EscapeAll;
    hide EscapedReference;
    hide Allowed;
    if cps == [] {
      BytesAreAllowed(EncodeEnd(e, iso), set_, plus);
    } else {
      var a := EncodeOne(e, iso, cps[0]);
      BytesAreAllowed(a.bytes, set_, plus);
      ReferenceIsAllowed(Named(a.error, cps[0]), set_, plus);
      TextIsAllowed(e, a.iso, cps[1..], set_, plus);
    }
  }

  lemma ReferenceDoesNotStand(n: nat, set_: PercentSet)
    ensures !AllStand(Reference(n), set_)
  {
    assert Reference(n)[1] == 0x23;
  }

  lemma StandsInParts(a: seq<byte>, b: seq<byte>, set_: PercentSet)
    ensures AllStand(a + b, set_) <==> AllStand(a, set_) && AllStand(b, set_)
  {
    hide Stands;
    assert forall k :: 0 <= k < |a| ==> (a + b)[k] == a[k];
    assert forall k :: 0 <= k < |b| ==> (a + b)[|a| + k] == b[k];
  }

  /** A text whose encoding needs no escape is written as that encoding. */
  lemma {:induction false} PlainTextStands(e: Target, iso: Iso, cps: seq<nat>, set_: PercentSet, plus: bool)
    requires e.tables.Valid() && EncoderState(iso) && AllStand(RawText(e, iso, cps), set_)
    ensures PercentText(e, iso, cps, set_, plus) == RawText(e, iso, cps)
    decreases |cps|
  {
    hide EncodeOne;
    hide EscapeAll;
    hide EscapedReference;
    hide Reference;
    hide AllStand;
    if cps == [] {
      BytesAreAllowed(EncodeEnd(e, iso), set_, plus);
    } else {
      var a := EncodeOne(e, iso, cps[0]);
      var n := Named(a.error, cps[0]);
      var ref := if a.error == NoError then [] else Reference(n);
      StandsInParts(a.bytes + ref, RawText(e, a.iso, cps[1..]), set_);
      StandsInParts(a.bytes, ref, set_);
      ReferenceDoesNotStand(n, set_);
      BytesAreAllowed(a.bytes, set_, plus);
      PlainTextStands(e, a.iso, cps[1..], set_, plus);
    }
  }

  /** The query of a link: written unchanged if and only if its encoding has nothing to escape. */
  lemma QueryStandsIffSafe(e: Target, cps: seq<nat>)
    requires e.tables.Valid()
    ensures PercentText(e, IsoAscii, cps, SpecialQuery, false) == RawText(e, IsoAscii, cps)
       <==> forall k :: 0 <= k < |RawText(e, IsoAscii, cps)| ==> QueryByte(RawText(e, IsoAscii, cps)[k])
  {
    hide PercentText;
    hide RawText;
    var raw := RawText(e, IsoAscii, cps);
    TextIsAllowed(e, IsoAscii, cps, SpecialQuery, false);
    if AllStand(raw, SpecialQuery) { PlainTextStands(e, IsoAscii, cps, SpecialQuery, false); }
  }

  // ----- a query read back -----

  predicate IsHex(b: byte) { HexValue(b) >= 0 }

  /** A percent sign with two hexadecimal digits. */
  predicate Escape(s: seq<byte>) {
    |s| >= 3 && s[0] == 0x25 && IsHex(s[1]) && IsHex(s[2])
  }

  /** Bytes that end an escape too early. */
  lemma HexStands(b: byte)
    ensures IsHex(b) ==> EscapeByte(b, SpecialQuery, false) == [b]
    ensures !IsHex(EscapeByte(b, SpecialQuery, false)[0]) <==> !IsHex(b)
    ensures EscapeByte(b, SpecialQuery, false) != []
    ensures b == 0x25 ==> EscapeByte(b, SpecialQuery, false) == [b]
  {}

  lemma EscapeUnfolds(bytes: seq<byte>)
    requires bytes != []
    ensures EscapeAll(bytes, SpecialQuery, false)
            == EscapeByte(bytes[0], SpecialQuery, false) + EscapeAll(bytes[1..], SpecialQuery, false)
  {}

  lemma UnescapeUnfolds(s: seq<byte>)
    requires s != []
    ensures Unescape(s, false) ==
            if Escape(s) then [HexValue(s[1]) * 16 + HexValue(s[2])] + Unescape(s[3..], false)
            else [s[0]] + Unescape(s[1..], false)
  {}

  /** Two hexadecimal digits at the front. */
  predicate HexPair(s: seq<byte>) {
    |s| >= 2 && IsHex(s[0]) && IsHex(s[1])
  }

  lemma EscapeIsPair(s: seq<byte>)
    ensures Escape(s) <==> s != [] && s[0] == 0x25 && HexPair(s[1..])
  {
    hide IsHex;
    if |s| >= 3 { assert s[1..][0] == s[1] && s[1..][1] == s[2]; }
  }

  /** The first byte written is a hexadecimal digit exactly when the first byte is, and then it is that byte. */
  lemma FirstHex(bytes: seq<byte>, tail: seq<byte>)
    requires tail != [] ==> !IsHex(tail[0])
    ensures var s := EscapeAll(bytes, SpecialQuery, false) + tail;
            (s != [] && IsHex(s[0])) <==> (bytes != [] && IsHex(bytes[0]))
    ensures bytes != [] && IsHex(bytes[0]) ==>
              EscapeAll(bytes, SpecialQuery, false) == [bytes[0]] + EscapeAll(bytes[1..], SpecialQuery, false)
  {
    hide EscapeAll;
    hide EscapeByte;
    hide IsHex;
    if bytes == [] {
      NothingEscapes();
      assert [] + tail == tail;
    } else {
      EscapeUnfolds(bytes);
      HexStands(bytes[0]);
      assert (EscapeAll(bytes, SpecialQuery, false) + tail)[0] == EscapeByte(bytes[0], SpecialQuery, false)[0];
    }
  }

  /** Digits that follow a percent sign are kept, and none are made. */
  lemma HexPairKept(bytes: seq<byte>, tail: seq<byte>)
    requires tail != [] ==> !IsHex(tail[0])
    ensures HexPair(EscapeAll(bytes, SpecialQuery, false) + tail) <==> HexPair(bytes)
  {
    hide EscapeAll;
    hide IsHex;
    FirstHex(bytes, tail);
    if bytes != [] && IsHex(bytes[0]) {
      var rest := EscapeAll(bytes[1..], SpecialQuery, false) + tail;
      FirstHex(bytes[1..], tail);
      Regroup([bytes[0]], EscapeAll(bytes[1..], SpecialQuery, false), tail);
      assert ([bytes[0]] + rest)[1..] == rest;
      if |bytes| >= 2 { assert bytes[1..][0] == bytes[1]; }
      if rest != [] { assert ([bytes[0]] + rest)[1] == rest[0]; }
    }
  }

  lemma HexPairWithin(bytes: seq<byte>, raw: seq<byte>)
    requires raw != [] ==> !IsHex(raw[0])
    ensures HexPair(bytes + raw) <==> HexPair(bytes)
  {
    hide IsHex;
    var s := bytes + raw;
    if |bytes| >= 1 { assert s[0] == bytes[0]; }
    if |bytes| >= 2 { assert s[1] == bytes[1]; }
    if |bytes| == 1 && raw != [] { assert s[1] == raw[0]; }
    if |bytes| == 0 && raw != [] { assert s[0] == raw[0]; }
  }

  lemma NothingEscapes()
    ensures EscapeAll([], SpecialQuery, false) == []
  {}

  lemma ByteUnescapes(b: byte, rest: seq<byte>)
    requires b != 0x25
    ensures Unescape(EscapeByte(b, SpecialQuery, false) + rest, false) == [b] + Unescape(rest, false)
  {
    hide MustEscape;
    var e := EscapeByte(b, SpecialQuery, false);
    var s := e + rest;
    if |e| == 3 {
      HexRoundTrip(b);
      assert s[0] == 0x25 && s[1] == HexDigit(b / 16) && s[2] == HexDigit(b % 16) && s[3..] == rest;
    } else {
      assert s[0] == b && s[1..] == rest;
    }
  }

  lemma DropOne(rest: seq<byte>)
    ensures ([0x25] + rest)[0] == 0x25 && ([0x25] + rest)[1..] == rest
  {}

  lemma DropThree(rest: seq<byte>)
    requires |rest| >= 2
    ensures ([0x25] + rest)[3..] == rest[2..] && ([0x25] + rest)[1] == rest[0] && ([0x25] + rest)[2] == rest[1]
  {}

  function PairValue(rest: seq<byte>): byte
    requires HexPair(rest)
  {
    HexValue(rest[0]) * 16 + HexValue(rest[1])
  }

  /** An escape reads as its byte. */
  lemma PairReads(rest: seq<byte>)
    requires HexPair(rest)
    ensures Unescape([0x25] + rest, false) == [PairValue(rest)] + Unescape(rest[2..], false)
  {
    hide Unescape;
    hide IsHex;
    hide HexValue;
    var s := [0x25] + rest;
    DropOne(rest);
    DropThree(rest);
    EscapeIsPair(s);
    UnescapeUnfolds(s);
  }

  /** A percent sign that starts none reads as itself. */
  lemma PercentReads(rest: seq<byte>)
    requires !HexPair(rest)
    ensures Unescape([0x25] + rest, false) == [0x25] + Unescape(rest, false)
  {
    hide Unescape;
    hide HexPair;
    var s := [0x25] + rest;
    DropOne(rest);
    EscapeIsPair(s);
    UnescapeUnfolds(s);
  }

  lemma DigitsFirst(bytes: seq<byte>, tail: seq<byte>)
    requires HexPair(bytes) && (tail != [] ==> !IsHex(tail[0]))
    ensures var s := EscapeAll(bytes, SpecialQuery, false) + tail;
            |s| >= 2 && s[0] == bytes[0] && s[1] == bytes[1] && s[2..] == EscapeAll(bytes[2..], SpecialQuery, false) + tail
  {
    hide EscapeAll;
    hide IsHex;
    FirstHex(bytes, tail);
    FirstHex(bytes[1..], tail);
    var rest := EscapeAll(bytes[2..], SpecialQuery, false);
    assert bytes[1..][1..] == bytes[2..];
    var s := [bytes[0]] + ([bytes[1]] + rest) + tail;
    assert s == [bytes[0], bytes[1]] + (rest + tail);
  }

  /** What a percent sign at the front reads as, and how many bytes it takes. */
  lemma PercentFirst(bytes: seq<byte>, tail: seq<byte>, raw: seq<byte>) returns (n: nat, first: byte)
    requires bytes != [] && bytes[0] == 0x25
    requires (tail != [] ==> !IsHex(tail[0])) && (raw != [] ==> !IsHex(raw[0]))
    ensures 1 <= n <= |bytes|
    ensures Unescape(EscapeAll(bytes, SpecialQuery, false) + tail, false)
            == [first] + Unescape(EscapeAll(bytes[n..], SpecialQuery, false) + tail, false)
    ensures Unescape(bytes + raw, false) == [first] + Unescape(bytes[n..] + raw, false)
  {
    hide EscapeAll;
    hide Unescape;
    hide IsHex;
    hide HexPair;
    hide PairValue;
    var more := bytes[1..];
    var s := EscapeAll(more, SpecialQuery, false) + tail;
    PercentStands(bytes, tail);
    assert bytes + raw == [0x25] + (more + raw);
    HexPairKept(more, tail);
    HexPairWithin(more, raw);
    if HexPair(more) {
      PairReads(s);
      PairReads(more + raw);
      DigitsFirst(more, tail);
      PairIsLong(more);
      SamePair(more, s);
      assert (more + raw)[2..] == more[2..] + raw && (more + raw)[0] == more[0] && (more + raw)[1] == more[1];
      SamePair(more, more + raw);
      assert bytes[3..] == more[2..];
      n, first := 3, PairValue(more);
    } else {
      PercentReads(s);
      PercentReads(more + raw);
      n, first := 1, 0x25;
    }
  }

  lemma SamePair(a: seq<byte>, b: seq<byte>)
    requires HexPair(a) && HexPair(b) && a[0] == b[0] && a[1] == b[1]
    ensures PairValue(a) == PairValue(b)
  {}

  lemma PairIsLong(s: seq<byte>)
    requires HexPair(s)
    ensures |s| >= 2 && 0 <= HexValue(s[0]) < 16 && 0 <= HexValue(s[1]) < 16
  {}

  lemma PercentStands(bytes: seq<byte>, tail: seq<byte>)
    requires bytes != [] && bytes[0] == 0x25
    ensures EscapeAll(bytes, SpecialQuery, false) + tail == [0x25] + (EscapeAll(bytes[1..], SpecialQuery, false) + tail)
  {
    hide EscapeAll;
    EscapeUnfolds(bytes);
    HexStands(0x25);
    Regroup([0x25], EscapeAll(bytes[1..], SpecialQuery, false), tail);
  }

  lemma OtherFirst(bytes: seq<byte>, tail: seq<byte>, raw: seq<byte>)
    requires bytes != [] && bytes[0] != 0x25
    ensures Unescape(EscapeAll(bytes, SpecialQuery, false) + tail, false)
            == [bytes[0]] + Unescape(EscapeAll(bytes[1..], SpecialQuery, false) + tail, false)
    ensures Unescape(bytes + raw, false) == [bytes[0]] + Unescape(bytes[1..] + raw, false)
  {
    hide EscapeAll;
    hide EscapeByte;
    hide Unescape;
    EscapeUnfolds(bytes);
    var rest := EscapeAll(bytes[1..], SpecialQuery, false);
    Regroup(EscapeByte(bytes[0], SpecialQuery, false), rest, tail);
    ByteUnescapes(bytes[0], rest + tail);
    UnescapeUnfolds(bytes + raw);
    assert (bytes + raw)[1..] == bytes[1..] + raw;
  }

  /** Percent-decoding an escaped text is percent-decoding the text. */
  lemma {:induction false} EscapingIsInvisible(bytes: seq<byte>, tail: seq<byte>, raw: seq<byte>)
    requires (tail != [] ==> !IsHex(tail[0])) && (raw != [] ==> !IsHex(raw[0]))
    requires Unescape(tail, false) == Unescape(raw, false)
    ensures Unescape(EscapeAll(bytes, SpecialQuery, false) + tail, false) == Unescape(bytes + raw, false)
    decreases |bytes|
  {
    hide EscapeAll;
    hide Unescape;
    hide IsHex;
    if bytes == [] {
      NothingEscapes();
      assert [] + tail == tail && bytes + raw == raw;
    } else if bytes[0] == 0x25 {
      var n, first := PercentFirst(bytes, tail, raw);
      EscapingIsInvisible(bytes[n..], tail, raw);
    } else {
      OtherFirst(bytes, tail, raw);
      EscapingIsInvisible(bytes[1..], tail, raw);
    }
  }

  lemma {:induction false} PlainUnescapes(bytes: seq<byte>, rest: seq<byte>)
    requires forall k :: 0 <= k < |bytes| ==> bytes[k] != 0x25
    ensures Unescape(bytes + rest, false) == bytes + Unescape(rest, false)
  {
    hide Unescape;
    if bytes == [] {
      assert [] + rest == rest && bytes + Unescape(rest, false) == Unescape(rest, false);
    } else {
      UnescapeUnfolds(bytes + rest);
      assert (bytes + rest)[1..] == bytes[1..] + rest;
      PlainUnescapes(bytes[1..], rest);
    }
  }

  lemma ReferenceUnescapes(n: nat, escaped: seq<byte>, raw: seq<byte>)
    requires Unescape(escaped, false) == Unescape(raw, false)
    ensures Unescape(EscapedReference(n) + escaped, false) == Unescape(Reference(n) + raw, false)
    ensures !IsHex((EscapedReference(n) + escaped)[0]) && !IsHex((Reference(n) + raw)[0])
  {
    hide Unescape;
    DecimalIsDigits(n);
    UnescapeMaybe(true, n, false, escaped);
    PlainUnescapes(Reference(n), raw);
  }

  /** Percent-decoding the query gives what percent-decoding its encoding gives: escaping
      neither breaks an escape of the text nor makes a new one. */
  lemma {:induction false} QueryReadsBack(e: Target, iso: Iso, cps: seq<nat>, before: seq<byte>)
    requires e.tables.Valid() && EncoderState(iso)
    ensures Unescape(EscapeAll(before, SpecialQuery, false) + PercentText(e, iso, cps, SpecialQuery, false), false)
         == Unescape(before + RawText(e, iso, cps), false)
    decreases |cps|
  {
    hide EncodeOne;
    hide Unescape;
    hide EscapedReference;
    hide EscapeAll;
    hide Reference;
    hide IsHex;
    if cps == [] {
      var end := EncodeEnd(e, iso);
      EscapeConcat(before, end, SpecialQuery, false);
      EscapingIsInvisible(before + end, [], []);
      assert EscapeAll(before + end, SpecialQuery, false) + [] == EscapeAll(before + end, SpecialQuery, false);
      assert (before + end) + [] == before + end;
    } else {
      var a := EncodeOne(e, iso, cps[0]);
      var n := Named(a.error, cps[0]);
      var tail, last := PercentText(e, a.iso, cps[1..], SpecialQuery, false), RawText(e, a.iso, cps[1..]);
      EscapeConcat(before, a.bytes, SpecialQuery, false);
      var ea, eb := EscapeAll(before, SpecialQuery, false), EscapeAll(a.bytes, SpecialQuery, false);
      if a.error == NoError {
        QueryReadsBack(e, a.iso, cps[1..], before + a.bytes);
        assert a.bytes + [] == a.bytes && eb + [] == eb;
        Regroup(ea, eb, tail);
        Regroup(before, a.bytes, last);
      } else {
        QueryReadsBack(e, a.iso, cps[1..], []);
        NothingEscapes();
        assert [] + tail == tail && [] + last == last;
        ReferenceUnescapes(n, tail, last);
        EscapingIsInvisible(before + a.bytes, EscapedReference(n) + tail, Reference(n) + last);
        Regroup(eb, EscapedReference(n), tail);
        Regroup(ea, eb, EscapedReference(n) + tail);
        Regroup(a.bytes, Reference(n), last);
        Regroup(before, a.bytes, Reference(n) + last);
      }
    }
  }

  // ----- references read back -----

  function DecimalValue(digits: seq<byte>): int {
    if digits == [] then 0
    else DecimalValue(digits[..|digits| - 1]) * 10 + digits[|digits| - 1] - 0x30
  }

  /** A reference names its code point. */
  lemma {:induction false} DecimalReadsBack(n: nat)
    ensures DecimalValue(Decimal(n)) == n && Decimal(n) != []
    ensures Decimal(n)[0] == 0x30 ==> n == 0
  {
    if n >= 10 {
      DecimalReadsBack(n / 10);
      assert Decimal(n)[..|Decimal(n)| - 1] == Decimal(n / 10);
    } else {
      assert Decimal(n)[..0] == [];
    }
  }
}
