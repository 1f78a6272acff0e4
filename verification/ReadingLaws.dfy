/** Decoding is reading token after token. */
module ReadingLaws {
  import opened Utf8
  import opened DecoderSpec
  import opened DecodeRun
  import opened Reading
  import opened Utf8Reading
  import opened LegacyReading

  lemma ReplacementIsRead(c: Config, data: seq<byte>)
    requires c.Valid() && c.kind == KindReplacement && data != []
    ensures Hear(c, RESET, data) == Reads(c, FIRST_MODE, data)
  {
    hide Decode;
    var last := RESET.(replaced := true);
    DecodeUnfolds(c, Snapshot(RESET, []), data, true);
    ReplacementIsDone(c, Snapshot(last, []), data[1..], true);
    assert data[|data|..] == [];
    assert Reads(c, FIRST_MODE, []) == Heard([], true);
  }

  lemma TokenIsRead(c: Config, s: State, m: Mode, data: seq<byte>) returns (last: State)
    requires c.Valid() && c.kind != KindReplacement && Settled(c.kind, s, m) && data != []
    ensures Reachable(c.kind, Snapshot(s, []))
    ensures var k := First(c.kind, c.tables, m, data);
            Settled(c.kind, last, k.mode) && Takes(c, s, data, k, last)
  {
    hide Takes;
    hide Settled;
    hide Utf8Token;
    last := RESET;
    if c.kind == KindIso2022Jp {
      last := IsoTokenIsRead(c, s, m, data);
    } else {
      SettledElsewhere(c.kind, s, m, data, c.tables);
      match c.kind {
        case KindUtf8 => Utf8IsTaken(c, data);
        case KindUtf16Be => Utf16TokenIsRead(c, data, true);
        case KindUtf16Le => Utf16TokenIsRead(c, data, false);
        case KindGb18030 => Gb18030TokenIsRead(c, data);
        case KindBig5 => PlainTokenIsRead(c, data);
        case KindEucKr => PlainTokenIsRead(c, data);
        case KindEucJp => EucJpTokenIsRead(c, data);
        case KindShiftJis => ShiftJisTokenIsRead(c, data);
        case _ => SingleTokenIsRead(c, data);
      }
    }
  }

  lemma Utf8IsTaken(c: Config, data: seq<byte>)
    requires c.Valid() && c.kind == KindUtf8 && data != []
    ensures Takes(c, RESET, data, Utf8Token(data), RESET)
  {
    hide Hear;
    hide AfterError;
    hide Utf8Token;
    Utf8TokenIsRead(c, data);
  }

  lemma SettledElsewhere(kind: Kind, s: State, m: Mode, data: seq<byte>, t: Tables)
    requires kind != KindIso2022Jp && Settled(kind, s, m)
    ensures s == RESET && Reachable(kind, Snapshot(s, [])) && forall n: Mode :: Settled(kind, RESET, n)
  {}

  /** Decoding is reading token after token, with U+FFFD for each malformed one; a fatal decode
      fails if and only if there is one. */
  lemma {:induction false} DecodeReads(c: Config, s: State, m: Mode, data: seq<byte>)
    requires c.Valid() && Settled(c.kind, s, m) && (c.kind == KindReplacement ==> m == FIRST_MODE)
    ensures Reachable(c.kind, Snapshot(s, []))
    ensures Hear(c, s, data) == Reads(c, m, data)
    decreases |data|
  {
    hide Settled;
    hide First;
    hide Takes;
    hide Hear;
    SettledIsClear(c, s, m);
    if data == [] {
      NothingIsHeard(c, s, m);
    } else if c.kind == KindReplacement {
      ReplacementSettled(s, m);
      ReplacementIsRead(c, data);
    } else {
      var last := TokenIsRead(c, s, m, data);
      var k := First(c.kind, c.tables, m, data);
      TokenFits(c.kind, c.tables, m, data);
      DecodeReads(c, last, k.mode, data[k.length..]);
      TakenIsRead(c, s, m, data, last);
    }
  }

  lemma ReplacementSettled(s: State, m: Mode)
    requires Settled(KindReplacement, s, m)
    ensures s == RESET
  {}

  lemma SettledIsClear(c: Config, s: State, m: Mode)
    requires c.Valid() && Settled(c.kind, s, m)
    ensures Reachable(c.kind, Snapshot(s, []))
  {}

  lemma NothingIsHeard(c: Config, s: State, m: Mode)
    requires c.Valid() && Settled(c.kind, s, m) && Reachable(c.kind, Snapshot(s, []))
    ensures Hear(c, s, []) == Heard([], true)
  {}

  lemma TakenIsRead(c: Config, s: State, m: Mode, data: seq<byte>, last: State)
    requires c.Valid() && data != [] && Reachable(c.kind, Snapshot(s, []))
    requires var k := First(c.kind, c.tables, m, data);
             && Takes(c, s, data, k, last)
             && Hear(c, last, data[k.length..]) == Reads(c, k.mode, data[k.length..])
    ensures Hear(c, s, data) == Reads(c, m, data)
  {
    hide First;
    hide Hear;
    TokenFits(c.kind, c.tables, m, data);
  }

  /** In however many pieces the bytes come. */
  lemma PiecesRead(c: Config, pieces: seq<seq<byte>>)
    requires c.Valid()
    ensures var r := DecodePieces(c, START, pieces, true);
            Heard(r.out, r.ok) == Reads(c, FIRST_MODE, Concat(pieces))
  {
    hide Decode;
    hide First;
    PiecesIndependent(c, START, pieces, true);
    DecodeReads(c, RESET, FIRST_MODE, Concat(pieces));
  }

  // ----- what malformed bytes cannot take with them -----

  /** The bytes below 0x80, in order. */
  function AsciiOf(bytes: seq<byte>): seq<byte> {
    if bytes == [] then [] else (if bytes[0] < 0x80 then [bytes[0]] else []) + AsciiOf(bytes[1..])
  }

  lemma {:induction false} AsciiOfConcat(a: seq<byte>, b: seq<byte>)
    ensures AsciiOf(a + b) == AsciiOf(a) + AsciiOf(b)
  {
    if a == [] {
      assert a + b == b;
    } else {
      assert (a + b)[1..] == a[1..] + b;
      AsciiOfConcat(a[1..], b);
    }
  }

  lemma {:induction false} NoAscii(bytes: seq<byte>)
    requires forall k :: 0 <= k < |bytes| ==> bytes[k] >= 0x80
    ensures AsciiOf(bytes) == []
  {
    if bytes != [] { NoAscii(bytes[1..]); }
  }

  /** A malformed UTF-8 token has no ASCII byte. */
  lemma BadHasNoAscii(data: seq<byte>)
    requires data != [] && Utf8Token(data).bad
    ensures var n := Utf8Token(data).length; n <= |data| && forall k :: 0 <= k < n ==> data[k] >= 0x80
  {
    hide IsChar;
    hide Begins;
    var n := Longest(data, 0);
    if n == 0 {
      assert data[..0] + [data[0]] == [data[0]] == data[..1];
      BeginsIffOpens([data[0]]);
    } else {
      BeginsIffOpens(data[..n]);
    }
  }

  /** UTF-8, every input: the ASCII characters of the output are those of the input, in order. */
  lemma {:induction false} AsciiIsKept(t: Tables, data: seq<byte>)
    requires t.Valid()
    ensures AsciiOf(Reads(Config(KindUtf8, t, false), FIRST_MODE, data).text) == AsciiOf(data)
    decreases |data|
  {
    hide Utf8Token;
    hide AsciiOf;
    hide Encode;
    var c := Config(KindUtf8, t, false);
    if data != [] {
      var k := Utf8Token(data);
      TokenFits(KindUtf8, t, FIRST_MODE, data);
      AsciiIsKept(t, data[k.length..]);
      var rest := Reads(c, FIRST_MODE, data[k.length..]).text;
      assert data == data[..k.length] + data[k.length..];
      AsciiOfConcat(data[..k.length], data[k.length..]);
      Utf8TokenMode(data);
      if k.bad {
        BadHasNoAscii(data);
        NoAscii(data[..k.length]);
        NoAscii(Encode(REPLACEMENT_CHARACTER)) by { ReplacementEncodes(); }
        AsciiOfConcat(Encode(REPLACEMENT_CHARACTER), rest);
      } else {
        AsciiOfConcat(EncodeAll(k.text), rest);
      }
    }
  }

  lemma ReplacementEncodes()
    ensures Encode(REPLACEMENT_CHARACTER) == [0xEF, 0xBF, 0xBD]
  {}

  lemma Utf8TokenMode(data: seq<byte>)
    requires data != []
    ensures var k := Utf8Token(data);
            && k.mode == FIRST_MODE
            && (!k.bad ==> k.length <= |data| && EncodeAll(k.text) == data[..k.length])
  {
    var k := Utf8Token(data);
    if !k.bad {
      assert EncodeAll([k.text[0]][1..]) == [];
      assert Encode(k.text[0]) + [] == Encode(k.text[0]);
    }
  }

  /** The rest of a gb18030 four-byte form stands after a lead byte and a digit, or the input ends there. */
  predicate FourBytesAhead(rest: seq<byte>) {
    || rest == []
    || (IsLead(KindGb18030, rest[0]) && (|rest| == 1 || Digit(rest[1])))
  }

  /** The other encodings: an ASCII byte that does not fit the byte before it is still read. */
  lemma AsciiAfterBadLead(c: Config, lead: byte, x: byte, rest: seq<byte>)
    requires c.Valid() && !c.fatal && c.kind in {KindBig5, KindEucKr, KindEucJp, KindShiftJis, KindGb18030}
    requires lead >= 0x80 && x < 0x80 && First(c.kind, c.tables, FIRST_MODE, [lead, x] + rest).bad
    requires !(c.kind == KindGb18030 && Digit(x) && FourBytesAhead(rest))
    ensures Hear(c, RESET, [lead, x] + rest) == Hear(c, RESET, [x] + rest).After(Encode(REPLACEMENT_CHARACTER))
  {
    hide Hear;
    hide PairText;
    hide RangesCodePoint;
    hide PairNumber;
    var data := [lead, x] + rest;
    assert data[1..] == [x] + rest;
    var last := TokenIsRead(c, RESET, FIRST_MODE, data);
    assert First(c.kind, c.tables, FIRST_MODE, data).length == 1;
  }
}
