/** What can be read can be written. */
module Encodability {
  import opened Utf8
  import opened DecoderSpec
  import opened ReverseIndex
  import opened EncoderSpec
  import opened Reading
  import opened LegacyReading
  import opened RoundTrip

  /** Readable forms that no encoder writes: the first rows of Big5, JIS X 0212, the rows of
      Shift_JIS that repeat others or are private, half-width katakana in ISO-2022-JP, the
      three control characters it uses itself, the code point gb18030 leaves out, and in GBK
      all four-byte forms. */
  predicate SetAside(e: Target, m: Mode, data: seq<byte>, k: Token)
    requires data != [] && |k.text| == 1
  {
    match e.kind
    case KindGb18030 => k.text == [0xE5E5] || (e.gbk && k.length == 4)
    case KindBig5 => 0x81 <= data[0] <= 0xA0
    case KindEucJp => k.length == 3
    case KindShiftJis => 0xED <= data[0] <= 0xF9
    case KindIso2022Jp => m.charset == IsoKatakana || k.text[0] in {0x0E, 0x0F, 0x1B}
    case _ => false
  }

  /** A code point that bytes are read as, alone, is encodable in every state of the encoder,
      unless it is folded or its form set aside. */
  lemma ReadIsEncodable(e: Target, m: Mode, data: seq<byte>, iso: Iso)
    requires e.tables.Valid() && data != [] && EncoderState(iso)
    requires var k := First(e.kind, e.tables, m, data);
             !k.bad && |k.text| == 1 && Folded(e, k.text[0]) == k.text[0] && !SetAside(e, m, data, k)
    ensures EncodeOne(e, iso, First(e.kind, e.tables, m, data).text[0]).error == NoError
  {
    hide First;
    hide PairNumber;
    hide RangesPointer;
    hide FourBytes;
    hide Utf8Token;
    var k := First(e.kind, e.tables, m, data);
    var cp := k.text[0];
    if cp < 0x80 {
      AsciiIsWritten(e, m, iso, cp);
    } else {
      match e.kind {
        case KindIso2022Jp => IsoReadIsEncodable(e, m, data, iso);
        case KindGb18030 => Gb18030ReadIsEncodable(e, m, data, iso);
        case KindBig5 => Big5ReadIsEncodable(e, m, data, iso);
        case KindEucJp => EucJpReadIsEncodable(e, m, data, iso);
        case KindShiftJis => ShiftJisReadIsEncodable(e, m, data, iso);
        case _ => PlainReadIsEncodable(e, m, data, iso);
      }
    }
  }

  lemma AsciiIsWritten(e: Target, m: Mode, iso: Iso, cp: nat)
    requires e.tables.Valid() && EncoderState(iso) && cp < 0x80
    requires e.kind == KindIso2022Jp ==> cp !in {0x0E, 0x0F, 0x1B}
    ensures EncodeOne(e, iso, cp).error == NoError
  {}

  lemma Gb18030ReadIsEncodable(e: Target, m: Mode, data: seq<byte>, iso: Iso)
    requires e.tables.Valid() && data != [] && EncoderState(iso) && e.kind == KindGb18030
    requires var k := First(e.kind, e.tables, m, data);
             !k.bad && |k.text| == 1 && k.text[0] >= 0x80 && !SetAside(e, m, data, k)
    ensures EncodeOne(e, iso, First(e.kind, e.tables, m, data).text[0]).error == NoError
  {
    hide PairNumber;
    hide RangesPointer;
    hide RangesCodePoint;
    hide FourBytes;
    var k := First(e.kind, e.tables, m, data);
    if k.length == 2 {
      MappedIsCandidate(RevGb18030, e.tables, PairNumber(KindGb18030, data[0], data[1]), k.text[0]);
    }
  }

  /** What the index maps a pointer to has a pointer. */
  lemma MappedIsCandidate(id: RevId, t: Tables, p: nat, cp: nat)
    requires Mapped(Source(id, t), p) == [cp] && !Excluded(id, p)
    ensures IndexPointer(id, t, cp).Found?
  {
    assert Candidate(id, Source(id, t), cp, p);
  }

  lemma Big5ReadIsEncodable(e: Target, m: Mode, data: seq<byte>, iso: Iso)
    requires e.tables.Valid() && data != [] && EncoderState(iso) && e.kind == KindBig5
    requires var k := First(e.kind, e.tables, m, data);
             !k.bad && |k.text| == 1 && k.text[0] >= 0x80 && !SetAside(e, m, data, k)
    ensures EncodeOne(e, iso, First(e.kind, e.tables, m, data).text[0]).error == NoError
  {
    hide PairNumber;
    var k := First(e.kind, e.tables, m, data);
    Big5Number(data[0], data[1]);
    MappedIsCandidate(RevBig5, e.tables, PairNumber(KindBig5, data[0], data[1]), k.text[0]);
  }

  lemma EucJpReadIsEncodable(e: Target, m: Mode, data: seq<byte>, iso: Iso)
    requires e.tables.Valid() && data != [] && EncoderState(iso) && e.kind == KindEucJp
    requires var k := First(e.kind, e.tables, m, data);
             && !k.bad && |k.text| == 1 && k.text[0] >= 0x80 && Folded(e, k.text[0]) == k.text[0]
             && !SetAside(e, m, data, k)
    ensures EncodeOne(e, iso, First(e.kind, e.tables, m, data).text[0]).error == NoError
  {
    hide PairNumber;
    var k := First(e.kind, e.tables, m, data);
    if data[0] != 0x8E {
      MappedIsCandidate(RevJis0208, e.tables, PairNumber(KindEucJp, data[0], data[1]), k.text[0]);
    }
  }

  lemma ShiftJisReadIsEncodable(e: Target, m: Mode, data: seq<byte>, iso: Iso)
    requires e.tables.Valid() && data != [] && EncoderState(iso) && e.kind == KindShiftJis
    requires var k := First(e.kind, e.tables, m, data);
             && !k.bad && |k.text| == 1 && k.text[0] >= 0x80 && Folded(e, k.text[0]) == k.text[0]
             && !SetAside(e, m, data, k)
    ensures EncodeOne(e, iso, First(e.kind, e.tables, m, data).text[0]).error == NoError
  {
    hide PairNumber;
    var k := First(e.kind, e.tables, m, data);
    if k.length == 2 {
      ShiftJisNumber(data[0], data[1]);
      MappedIsCandidate(RevShiftJis, e.tables, PairNumber(KindShiftJis, data[0], data[1]), k.text[0]);
    }
  }

  lemma IsoReadIsEncodable(e: Target, m: Mode, data: seq<byte>, iso: Iso)
    requires e.tables.Valid() && data != [] && EncoderState(iso) && e.kind == KindIso2022Jp
    requires var k := First(e.kind, e.tables, m, data);
             && !k.bad && |k.text| == 1 && k.text[0] >= 0x80 && Folded(e, k.text[0]) == k.text[0]
             && !SetAside(e, m, data, k)
    ensures EncodeOne(e, iso, First(e.kind, e.tables, m, data).text[0]).error == NoError
  {
    hide PairNumber;
    hide Selected;
    var k := First(e.kind, e.tables, m, data);
    if k.length == 2 {
      MappedIsCandidate(RevJis0208, e.tables, PairNumber(KindIso2022Jp, data[0], data[1]), k.text[0]);
    }
  }

  lemma PlainReadIsEncodable(e: Target, m: Mode, data: seq<byte>, iso: Iso)
    requires e.tables.Valid() && data != [] && EncoderState(iso)
    requires e.kind !in {KindIso2022Jp, KindGb18030, KindBig5, KindEucJp, KindShiftJis}
    requires var k := First(e.kind, e.tables, m, data); !k.bad && |k.text| == 1 && k.text[0] >= 0x80
    ensures EncodeOne(e, iso, First(e.kind, e.tables, m, data).text[0]).error == NoError
  {
    hide PairNumber;
    hide Utf8Token;
    hide Utf16Token;
    var k := First(e.kind, e.tables, m, data);
    if e.kind == KindEucKr {
      MappedIsCandidate(RevEucKr, e.tables, PairNumber(KindEucKr, data[0], data[1]), k.text[0]);
    }
  }
}
