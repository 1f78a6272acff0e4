/** The encoder handlers as functions. */
module EncoderSpec {
  import opened Utf8
  import opened DecoderSpec
  import opened ReverseIndex

  /** An output encoding; `gbk` restricts gb18030 to its two-byte part. */
  datatype Target = Target(kind: Kind, tables: Tables, gbk: bool)

  /** Bytes written, the ISO-2022-JP state after them, and whether the code point must be tried again. */
  datatype Encoded = Written(bytes: seq<byte>, iso: Iso, again: bool) | Unmappable(asReplacement: bool)

  /** Casts to unsigned bytes keep the low eight bits. */
  function One(value: int): seq<byte> { [value % 256] }

  function Two(lead: int, trail: int): seq<byte> { [lead % 256, trail % 256] }

  function SingleByteIndex(index: seq<nat>, cp: nat, from: nat): (r: Lookup)
    requires from <= |index|
    ensures r.Found? ==> from <= r.pointer < |index| && index[r.pointer] == cp
    ensures r.Absent? ==> forall b :: from <= b < |index| ==> index[b] != cp
    decreases |index| - from
  {
    if from == |index| then Absent
    else if index[from] == cp then Found(from)
    else SingleByteIndex(index, cp, from + 1)
  }

  /** Position of the last range whose code point is at most `cp`, searched in [lo, hi). */
  function RangeByCodePoint(ranges: seq<Range>, cp: nat, lo: nat, hi: nat): (r: nat)
    requires lo < hi <= |ranges|
    ensures lo <= r < hi
    decreases hi - lo
  {
    if hi - lo <= 1 then lo
    else
      var mid := lo + (hi - lo) / 2;
      if ranges[mid].codePoint <= cp then RangeByCodePoint(ranges, cp, mid, hi)
      else RangeByCodePoint(ranges, cp, lo, mid)
  }

  function RangesPointer(ranges: seq<Range>, cp: nat): nat
    requires |ranges| > 0
  {
    if cp == 0xE7C7 then 7457
    else
      var r := ranges[RangeByCodePoint(ranges, cp, 0, |ranges|)];
      (r.index + cp - r.codePoint) % 0x1_0000_0000
  }

  datatype FixedPair = NotFixed | FixedPair(lead: byte, trail: byte)

  /** The gb18030 code points with a two-byte form the index does not give. */
  function Fixed(cp: nat): FixedPair {
    if 0xE78D <= cp <= 0xE793 then FixedPair(0xA6, 0xD9 + cp - 0xE78D)
    else if cp == 0xE794 then FixedPair(0xA6, 0xEC)
    else if cp == 0xE795 then FixedPair(0xA6, 0xED)
    else if cp == 0xE796 then FixedPair(0xA6, 0xF3)
    else if cp == 0xE81E then FixedPair(0xFE, 0x59)
    else if cp == 0xE826 then FixedPair(0xFE, 0x61)
    else if cp == 0xE82B then FixedPair(0xFE, 0x66)
    else if cp == 0xE82C then FixedPair(0xFE, 0x67)
    else if cp == 0xE832 then FixedPair(0xFE, 0x6D)
    else if cp == 0xE843 then FixedPair(0xFE, 0x7E)
    else if cp == 0xE854 then FixedPair(0xFE, 0x90)
    else if cp == 0xE864 then FixedPair(0xFE, 0xA0)
    else NotFixed
  }

  function FourBytes(pointer: nat): seq<byte> {
    [(pointer / 12600 + 0x81) % 256, pointer % 12600 / 1260 + 0x30, pointer % 1260 / 10 + 0x81, pointer % 10 + 0x30]
  }

  ghost function EncodeGb18030(e: Target, iso: Iso, cp: nat): Encoded
    requires e.tables.Valid()
  {
    if cp == 0xE5E5 then Unmappable(false)
    else if e.gbk && cp == 0x20AC then Written([0x80], iso, false)
    else if Fixed(cp).FixedPair? then Written([Fixed(cp).lead, Fixed(cp).trail], iso, false)
    else
      var p := IndexPointer(RevGb18030, e.tables, cp);
      if p.Found? then
        var trail := p.pointer % 190;
        Written(Two(p.pointer / 190 + 0x81, trail + (if trail < 0x3F then 0x40 else 0x41)), iso, false)
      else if e.gbk then Unmappable(false)
      else Written(FourBytes(RangesPointer(e.tables.ranges, cp)), iso, false)
  }

  ghost function EncodeBig5(e: Target, iso: Iso, cp: nat): Encoded {
    var p := IndexPointer(RevBig5, e.tables, cp);
    if p.Absent? then Unmappable(false)
    else
      var trail := p.pointer % 157;
      Written(Two(p.pointer / 157 + 0x81, trail + (if trail < 0x3F then 0x40 else 0x62)), iso, false)
  }

  ghost function EncodeEucJp(e: Target, iso: Iso, cp: nat): Encoded {
    if cp == 0xA5 then Written([0x5C], iso, false)
    else if cp == 0x203E then Written([0x7E], iso, false)
    else if 0xFF61 <= cp <= 0xFF9F then Written([0x8E, cp - 0xFF61 + 0xA1], iso, false)
    else
      var p := IndexPointer(RevJis0208, e.tables, if cp == 0x2212 then 0xFF0D else cp);
      if p.Absent? then Unmappable(false)
      else Written(Two(p.pointer / 94 + 0xA1, p.pointer % 94 + 0xA1), iso, false)
  }

  /** The escape sequence into `iso`, after which the code point is tried again. */
  function IsoSwitch(iso: Iso): Encoded {
    Written([0x1B, if iso == IsoLead then 0x24 else 0x28, if iso == IsoRoman then 0x4A else 0x42], iso, true)
  }

  /** The code point looked up in JIS X 0208 for `cp`. */
  function IsoMapped(t: Tables, cp: nat): nat
    requires t.Valid()
  {
    if cp == 0x2212 then 0xFF0D
    else if 0xFF61 <= cp <= 0xFF9F then t.katakana[cp - 0xFF61]
    else cp
  }

  ghost function EncodeIso2022Jp(e: Target, iso: Iso, cp: nat): Encoded
    requires e.tables.Valid()
  {
    var ascii := cp < 0x80;
    if (iso == IsoAscii || iso == IsoRoman) && (cp == 0x0E || cp == 0x0F || cp == 0x1B) then Unmappable(true)
    else if iso == IsoAscii && ascii then Written(One(cp), iso, false)
    else if iso == IsoRoman && ((ascii && cp != 0x5C && cp != 0x7E) || cp == 0xA5 || cp == 0x203E) then
      Written(One(if cp == 0xA5 then 0x5C else if cp == 0x203E then 0x7E else cp), iso, false)
    else if ascii then IsoSwitch(IsoAscii)
    else if cp == 0xA5 || cp == 0x203E then IsoSwitch(IsoRoman)
    else
      var p := IndexPointer(RevJis0208, e.tables, IsoMapped(e.tables, cp));
      if p.Absent? then
        if iso == IsoLead then IsoSwitch(IsoAscii) else Unmappable(false)
      else if iso != IsoLead then IsoSwitch(IsoLead)
      else Written(Two(p.pointer / 94 + 0x21, p.pointer % 94 + 0x21), iso, false)
  }

  ghost function EncodeShiftJis(e: Target, iso: Iso, cp: nat): Encoded {
    if cp == 0x80 then Written([0x80], iso, false)
    else if cp == 0xA5 then Written([0x5C], iso, false)
    else if cp == 0x203E then Written([0x7E], iso, false)
    else if 0xFF61 <= cp <= 0xFF9F then Written([cp - 0xFF61 + 0xA1], iso, false)
    else
      var p := IndexPointer(RevShiftJis, e.tables, if cp == 0x2212 then 0xFF0D else cp);
      if p.Absent? then Unmappable(false)
      else
        var lead, trail := p.pointer / 188, p.pointer % 188;
        Written(Two(lead + (if lead < 0x1F then 0x81 else 0xC1), trail + (if trail < 0x3F then 0x40 else 0x41)),
                iso, false)
  }

  ghost function EncodeEucKr(e: Target, iso: Iso, cp: nat): Encoded {
    var p := IndexPointer(RevEucKr, e.tables, cp);
    if p.Absent? then Unmappable(false)
    else Written(Two(p.pointer / 190 + 0x81, p.pointer % 190 + 0x41), iso, false)
  }

  /** One call of the encoder. */
  ghost function EncodeStep(e: Target, iso: Iso, cp: nat): Encoded
    requires e.tables.Valid()
  {
    if e.kind == KindIso2022Jp then EncodeIso2022Jp(e, iso, cp)
    else if cp < 0x80 then Written(One(cp), iso, false)
    else
      match e.kind
      case KindSingleByte =>
        var b := SingleByteIndex(e.tables.single, cp, 0);
        if b.Found? then Written(One(b.pointer + 0x80), iso, false) else Unmappable(false)
      case KindGb18030 => EncodeGb18030(e, iso, cp)
      case KindBig5 => EncodeBig5(e, iso, cp)
      case KindEucJp => EncodeEucJp(e, iso, cp)
      case KindShiftJis => EncodeShiftJis(e, iso, cp)
      case KindEucKr => EncodeEucKr(e, iso, cp)
      case KindXUserDefined =>
        if 0xF780 <= cp <= 0xF7FF then Written(One(cp - 0xF780 + 0x80), iso, false) else Unmappable(false)
      case _ => Written(Encode(cp), iso, false)
  }

  /** The states an encoder can be in. */
  predicate EncoderState(iso: Iso) {
    iso in {IsoAscii, IsoRoman, IsoLead}
  }

  /** Whatever the state and the code point, a second try is the last. */
  lemma RetriesOnce(e: Target, iso: Iso, cp: nat)
    requires e.tables.Valid() && EncoderState(iso)
    ensures var r := EncodeStep(e, iso, cp);
            r.Written? ==>
              && EncoderState(r.iso)
              && (r.again ==> r.iso != iso && var r2 := EncodeStep(e, r.iso, cp); r2.Written? ==> !r2.again)
  {}

  /** What becomes of one code point, retry included; `error` is set when nothing stands for it. */
  datatype Attempt = Attempt(bytes: seq<byte>, iso: Iso, error: Trouble)

  datatype Trouble = NoError | Unencodable | UseReplacement

  ghost function EncodeOne(e: Target, iso: Iso, cp: nat): (a: Attempt)
    requires e.tables.Valid() && EncoderState(iso)
    ensures EncoderState(a.iso)
  {
    RetriesOnce(e, iso, cp);
    match EncodeStep(e, iso, cp)
    case Unmappable(r) => Attempt([], iso, if r then UseReplacement else Unencodable)
    case Written(bytes, iso1, again) =>
      if !again then Attempt(bytes, iso1, NoError)
      else
        match EncodeStep(e, iso1, cp)
        case Unmappable(r) => Attempt(bytes, iso1, if r then UseReplacement else Unencodable)
        case Written(more, iso2, _) => RetriesOnce(e, iso1, cp); Attempt(bytes + more, iso2, NoError)
  }

  /** The escape back to ASCII at the end of ISO-2022-JP output. */
  function EncodeEnd(e: Target, iso: Iso): seq<byte> {
    if e.kind != KindIso2022Jp || iso == IsoAscii then [] else IsoSwitch(IsoAscii).bytes
  }

  /** A string all of whose code points are encodable, from a given state. */
  ghost predicate Encodable(e: Target, iso: Iso, cps: seq<nat>)
    requires e.tables.Valid() && EncoderState(iso)
    decreases |cps|
  {
    cps == [] ||
    var a := EncodeOne(e, iso, cps[0]);
    a.error == NoError && Encodable(e, a.iso, cps[1..])
  }

  /** Its encoding, the closing escape included. */
  ghost function EncodeString(e: Target, iso: Iso, cps: seq<nat>): seq<byte>
    requires e.tables.Valid() && EncoderState(iso)
    decreases |cps|
  {
    if cps == [] then EncodeEnd(e, iso)
    else
      var a := EncodeOne(e, iso, cps[0]);
      a.bytes + EncodeString(e, a.iso, cps[1..])
  }
}
