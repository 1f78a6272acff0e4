/** Encoding, then decoding. */
module RoundTrip {
  import opened Utf8
  import opened DecoderSpec
  import opened DecodeRun
  import opened Feed
  import opened FastPath
  import opened ReverseIndex
  import opened EncoderSpec

  /** What the index tables must satisfy for the bytes written to be the bytes meant: every
      pointer that can be chosen fits the two-byte form, Shift_JIS keeps its private-use rows
      empty, and the gb18030 ranges cover what its index leaves out. */
  ghost predicate TablesFit(e: Target) {
    && e.tables.Valid()
    && (e.kind == KindGb18030 ==> |e.tables.gb18030| <= 23940 && (e.gbk || RangesFit(e.tables)))
    && (e.kind == KindBig5 ==> |e.tables.big5| <= 19782)
    && (e.kind == KindEucKr ==> |e.tables.eucKr| <= 23940)
    && (e.kind == KindShiftJis ==>
          && |e.tables.jis0208| <= 11280
          && forall p :: 8836 <= p <= 10715 && p < |e.tables.jis0208| ==> e.tables.jis0208[p] == 0)
    && (e.kind == KindEucJp || e.kind == KindIso2022Jp ==>
          forall cp, p :: IndexPointer(RevJis0208, e.tables, cp) == Found(p) ==> p < 8836)
  }

  /** The gb18030 ranges: increasing both ways, and for every code point that is neither in
      the index nor special, the pointer stays inside its range and inside the valid blocks. */
  ghost predicate RangesFit(t: Tables) {
    && |t.ranges| > 0 && t.ranges[0].codePoint <= 0x80 && t.ranges[0].index == 0
    && (forall i, j :: 0 <= i < j < |t.ranges| ==>
          t.ranges[i].index < t.ranges[j].index && t.ranges[i].codePoint < t.ranges[j].codePoint)
    && (forall cp: nat, i: nat :: InRange(t.ranges, i, cp) && OnlyInRanges(t, cp) ==> PointerFits(t.ranges, cp, i))
  }

  /** Code points that only the four-byte form can encode. */
  ghost predicate OnlyInRanges(t: Tables, cp: nat) {
    && 0x80 <= cp && IsScalar(cp) && cp != 0xE5E5 && cp != 0xE7C7
    && Fixed(cp).NotFixed? && IndexPointer(RevGb18030, t, cp).Absent?
  }

  predicate PointerFits(ranges: seq<Range>, cp: nat, i: nat)
    requires InRange(ranges, i, cp)
  {
    var p := ranges[i].index + cp - ranges[i].codePoint;
    && (i + 1 < |ranges| ==> p < ranges[i + 1].index)
    && (p <= 39419 || 189000 <= p <= 1237575) && p != 7457
  }

  /** Range `i` is the last one starting at or before `cp`. */
  predicate InRange(ranges: seq<Range>, i: int, cp: nat) {
    && 0 <= i < |ranges| && ranges[i].codePoint <= cp
    && (i + 1 < |ranges| ==> cp < ranges[i + 1].codePoint)
  }

  lemma {:induction false} RangeByCodePointFinds(ranges: seq<Range>, cp: nat, lo: nat, hi: nat)
    requires lo < hi <= |ranges| && ranges[lo].codePoint <= cp
    requires hi < |ranges| ==> cp < ranges[hi].codePoint
    ensures InRange(ranges, RangeByCodePoint(ranges, cp, lo, hi), cp)
    decreases hi - lo
  {
    if hi - lo > 1 {
      var mid := lo + (hi - lo) / 2;
      if ranges[mid].codePoint <= cp {
        RangeByCodePointFinds(ranges, cp, mid, hi);
      } else {
        RangeByCodePointFinds(ranges, cp, lo, mid);
      }
    }
  }

  lemma {:induction false} RangeByIndexFinds(ranges: seq<Range>, pointer: nat, lo: nat, hi: nat, i: nat)
    requires lo <= i < hi <= |ranges|
    requires forall a, b :: 0 <= a < b < |ranges| ==> ranges[a].index < ranges[b].index
    requires ranges[i].index <= pointer && (i + 1 < |ranges| ==> pointer < ranges[i + 1].index)
    ensures RangeByIndex(ranges, pointer, lo, hi) == i
    decreases hi - lo
  {
    if hi - lo > 1 {
      var mid := lo + (hi - lo) / 2;
      if ranges[mid].index <= pointer {
        assert mid <= i;
        RangeByIndexFinds(ranges, pointer, mid, hi, i);
      } else {
        assert i < mid;
        RangeByIndexFinds(ranges, pointer, lo, mid, i);
      }
    }
  }

  /** The code point that comes back. Encoders fold a few code points onto others; every
      other one comes back as itself. */
  function Folded(e: Target, cp: nat): nat
    requires e.tables.Valid()
  {
    match e.kind
    case KindEucJp => FoldedJapanese(cp)
    case KindShiftJis => FoldedJapanese(cp)
    case KindIso2022Jp => IsoMapped(e.tables, cp)
    case KindGb18030 =>
      if e.gbk && cp == 0x20AC then cp
      else if cp >= 0x80 && Fixed(cp).FixedPair? then IndexCodePoint(e.tables.gb18030, FixedPointer(cp))
      else cp
    case _ => cp
  }

  function FoldedJapanese(cp: nat): nat {
    if cp == 0xA5 then 0x5C else if cp == 0x203E then 0x7E else if cp == 0x2212 then 0xFF0D else cp
  }

  /** The index pointer that a fixed gb18030 pair spells. */
  function FixedPointer(cp: nat): nat
    requires Fixed(cp).FixedPair?
  {
    var f := Fixed(cp);
    (f.lead - 0x81) * 190 + f.trail - (if f.trail < 0x7F then 0x40 else 0x41)
  }

  /** The decoder state that goes with an encoder state, between code points. */
  predicate InStep(e: Target, iso: Iso, s: State) {
    if e.kind == KindIso2022Jp then EncoderState(iso) && s.iso == iso && s.outputIso == iso && !s.output
    else s == RESET
  }

  /** Code points considered: scalar values, the fixed gb18030 ones only where the index maps
      their pair to something. */
  predicate Covered(e: Target, cp: nat) {
    && IsScalar(cp)
    && (e.kind == KindGb18030 && Fixed(cp).FixedPair? ==> IndexCodePoint(e.tables.gb18030, FixedPointer(cp)) != 0)
  }

  // ----- two-byte forms: pointer to bytes and back -----

  lemma SplitPointer(p: nat, row: nat)
    requires row > 0
    ensures p / row * row + p % row == p && 0 <= p % row < row && p / row >= 0
  {}

  lemma Gb18030Pair(t: Tables, p: nat)
    requires t.Valid() && p < |t.gb18030| <= 23940 && t.gb18030[p] != 0
    ensures var trail := p % 190;
            Eat(KindGb18030, t, RESET, Two(p / 190 + 0x81, trail + (if trail < 0x3F then 0x40 else 0x41)))
            == Fed(RESET, [t.gb18030[p]])
  {
    hide Eat;
    SplitPointer(p, 190);
    var lead, trail := p / 190 + 0x81, p % 190 + (if p % 190 < 0x3F then 0x40 else 0x41);
    assert 0x81 <= lead <= 0xFE && Two(lead, trail) == [lead, trail];
    EatTwo(KindGb18030, t, RESET, lead, RESET.(lead := lead), trail, RESET, [t.gb18030[p]]);
  }

  lemma Gb18030Fixed(t: Tables, cp: nat)
    requires t.Valid() && Fixed(cp).FixedPair? && IndexCodePoint(t.gb18030, FixedPointer(cp)) != 0
    ensures Eat(KindGb18030, t, RESET, [Fixed(cp).lead, Fixed(cp).trail])
            == Fed(RESET, [IndexCodePoint(t.gb18030, FixedPointer(cp))])
  {
    hide Eat;
    var f := Fixed(cp);
    assert (f.lead == 0xA6 || f.lead == 0xFE) && 0x59 <= f.trail && f.trail != 0x7F && f.trail <= 0xF3;
    EatTwo(KindGb18030, t, RESET, f.lead, RESET.(lead := f.lead), f.trail, RESET,
           [IndexCodePoint(t.gb18030, FixedPointer(cp))]);
  }

  /** The four digits of a pointer, read back by the decoder's formula. */
  lemma FourByteDigits(p: nat)
    requires p <= 1237575
    ensures 0x81 <= p / 12600 + 0x81 <= 0xFE
    ensures 0x30 <= p % 12600 / 1260 + 0x30 <= 0x39
    ensures 0x81 <= p % 1260 / 10 + 0x81 <= 0xFE
    ensures 0x30 <= p % 10 + 0x30 <= 0x39
    ensures FourBytePointer(p / 12600 + 0x81, p % 12600 / 1260 + 0x30, p % 1260 / 10 + 0x81, p % 10 + 0x30) == p
  {
    SplitPointer(p, 12600);
    SplitPointer(p % 12600, 1260);
    SplitPointer(p % 1260, 10);
    assert p % 12600 % 1260 == p % 1260 && p % 1260 % 10 == p % 10;
  }

  lemma Gb18030Four(t: Tables, p: nat, cp: nat)
    requires t.Valid() && p <= 1237575 && RangesCodePoint(t.ranges, p) == cp != 0
    ensures Eat(KindGb18030, t, RESET, FourBytes(p)) == Fed(RESET, [cp])
  {
    hide Eat;
    hide RangesCodePoint;
    hide DecoderStep;
    hide StateOk;
    hide FourBytePointer;
    FourByteDigits(p);
    var b0, b1, b2, b3 := p / 12600 + 0x81, p % 12600 / 1260 + 0x30, p % 1260 / 10 + 0x81, p % 10 + 0x30;
    assert FourBytes(p) == [b0, b1, b2, b3];
    var s1, s2, s3 := Gb18030Turns(t, b0, b1, b2, b3, cp);
    EatFour(KindGb18030, t, RESET, b0, s1, b1, s2, b2, s3, b3, RESET, [cp]);
  }

  /** The states between the four bytes. */
  lemma Gb18030Turns(t: Tables, b0: byte, b1: byte, b2: byte, b3: byte, cp: nat) returns (s1: State, s2: State, s3: State)
    requires t.Valid() && 0x81 <= b0 <= 0xFE && 0x30 <= b1 <= 0x39 && 0x81 <= b2 <= 0xFE && 0x30 <= b3 <= 0x39
    requires RangesCodePoint(t.ranges, FourBytePointer(b0, b1, b2, b3)) == cp != 0
    ensures StateOk(KindGb18030, RESET) && StateOk(KindGb18030, s1) && StateOk(KindGb18030, s2) && StateOk(KindGb18030, s3)
    ensures DecoderStep(KindGb18030, t, RESET, b0) == Step(s1, [], Continue)
    ensures DecoderStep(KindGb18030, t, s1, b1) == Step(s2, [], Continue)
    ensures DecoderStep(KindGb18030, t, s2, b2) == Step(s3, [], Continue)
    ensures DecoderStep(KindGb18030, t, s3, b3) == Step(RESET, [], Emit([cp]))
  {
    hide RangesCodePoint;
    hide FourBytePointer;
    s1 := RESET.(lead := b0);
    s2 := s1.(second := b1);
    s3 := s2.(third := b2);
  }

  /** The ranges send a code point to a pointer that leads back to it. */
  lemma RangesInvert(t: Tables, cp: nat)
    requires t.Valid() && RangesFit(t) && 0x80 <= cp && IsScalar(cp) && cp != 0xE5E5
    requires Fixed(cp).NotFixed? && IndexPointer(RevGb18030, t, cp).Absent?
    ensures RangesPointer(t.ranges, cp) <= 1237575
    ensures RangesCodePoint(t.ranges, RangesPointer(t.ranges, cp)) == cp
  {
    hide IndexPointer;
    hide Fixed;
    if cp != 0xE7C7 {
      RangeByCodePointFinds(t.ranges, cp, 0, |t.ranges|);
      var i := RangeByCodePoint(t.ranges, cp, 0, |t.ranges|);
      var p := t.ranges[i].index + cp - t.ranges[i].codePoint;
      assert OnlyInRanges(t, cp) && PointerFits(t.ranges, cp, i);
      RangeByIndexFinds(t.ranges, p, 0, |t.ranges|, i);
      assert RangesPointer(t.ranges, cp) == p;
      assert RangesCodePoint(t.ranges, p) == (t.ranges[i].codePoint + p - t.ranges[i].index) % 0x1_0000_0000;
    }
  }

  lemma Big5Pointer(t: Tables, p: nat)
    requires t.Valid() && (0xA1 - 0x81) * 157 <= p < |t.big5| <= 19782 && t.big5[p] != 0
    ensures var trail := p % 157;
            Eat(KindBig5, t, RESET, Two(p / 157 + 0x81, trail + (if trail < 0x3F then 0x40 else 0x62)))
            == Fed(RESET, [t.big5[p]])
  {
    hide Eat;
    SplitPointer(p, 157);
    var lead, trail := p / 157 + 0x81, p % 157 + (if p % 157 < 0x3F then 0x40 else 0x62);
    assert 0x81 <= lead <= 0xFE && Two(lead, trail) == [lead, trail];
    EatTwo(KindBig5, t, RESET, lead, RESET.(lead := lead), trail, RESET, [t.big5[p]]);
  }

  lemma EucKrPointer(t: Tables, p: nat)
    requires t.Valid() && p < |t.eucKr| <= 23940 && t.eucKr[p] != 0
    ensures Eat(KindEucKr, t, RESET, Two(p / 190 + 0x81, p % 190 + 0x41)) == Fed(RESET, [t.eucKr[p]])
  {
    hide Eat;
    SplitPointer(p, 190);
    var lead, trail := p / 190 + 0x81, p % 190 + 0x41;
    assert 0x81 <= lead <= 0xFE && Two(lead, trail) == [lead, trail];
    EatTwo(KindEucKr, t, RESET, lead, RESET.(lead := lead), trail, RESET, [t.eucKr[p]]);
  }

  lemma EucJpPointer(t: Tables, p: nat)
    requires t.Valid() && p < |t.jis0208| && p < 8836 && t.jis0208[p] != 0
    ensures Eat(KindEucJp, t, RESET, Two(p / 94 + 0xA1, p % 94 + 0xA1)) == Fed(RESET, [t.jis0208[p]])
  {
    hide Eat;
    SplitPointer(p, 94);
    var lead, trail := p / 94 + 0xA1, p % 94 + 0xA1;
    assert 0xA1 <= lead <= 0xFE && Two(lead, trail) == [lead, trail];
    EatTwo(KindEucJp, t, RESET, lead, RESET.(lead := lead), trail, RESET, [t.jis0208[p]]);
  }

  lemma ShiftJisPointer(t: Tables, p: nat)
    requires t.Valid() && p < |t.jis0208| <= 11280 && t.jis0208[p] != 0 && !(8836 <= p <= 10715)
    ensures var lead, trail := p / 188, p % 188;
            Eat(KindShiftJis, t, RESET, Two(lead + (if lead < 0x1F then 0x81 else 0xC1),
                                            trail + (if trail < 0x3F then 0x40 else 0x41)))
            == Fed(RESET, [t.jis0208[p]])
  {
    hide Eat;
    SplitPointer(p, 188);
    var lead := p / 188 + (if p / 188 < 0x1F then 0x81 else 0xC1);
    var trail := p % 188 + (if p % 188 < 0x3F then 0x40 else 0x41);
    assert p / 188 < 60;
    assert Two(lead, trail) == [lead, trail];
    EatTwo(KindShiftJis, t, RESET, lead, RESET.(lead := lead), trail, RESET, [t.jis0208[p]]);
  }

  // ----- one code point -----

  lemma AsciiIsEaten(kind: Kind, t: Tables, cp: nat)
    requires t.Valid() && cp < 0x80
    requires kind !in {KindIso2022Jp, KindReplacement, KindUtf16Be, KindUtf16Le}
    ensures Eat(kind, t, RESET, [cp]) == Fed(RESET, [cp])
  {
    hide Eat;
    EatOne(kind, t, RESET, cp, RESET, [cp]);
  }

  lemma Gb18030OneIsEaten(e: Target, cp: nat)
    requires e.kind == KindGb18030 && TablesFit(e) && Covered(e, cp) && cp >= 0x80
    requires EncodeStep(e, IsoAscii, cp).Written?
    ensures Eat(KindGb18030, e.tables, RESET, EncodeStep(e, IsoAscii, cp).bytes) == Fed(RESET, [Folded(e, cp)])
  {
    hide FourBytes;
    hide RangesCodePoint;
    hide Eat;
    var t := e.tables;
    if e.gbk && cp == 0x20AC {
      EatOne(KindGb18030, t, RESET, 0x80, RESET, [0x20AC]);
    } else if Fixed(cp).FixedPair? {
      Gb18030Fixed(t, cp);
    } else {
      var p := IndexPointer(RevGb18030, t, cp);
      if p.Found? {
        Gb18030Pair(t, p.pointer);
      } else {
        RangesInvert(t, cp);
        Gb18030Four(t, RangesPointer(t.ranges, cp), cp);
      }
    }
  }

  lemma EucJpOneIsEaten(e: Target, cp: nat)
    requires e.kind == KindEucJp && TablesFit(e) && cp >= 0x80
    requires EncodeStep(e, IsoAscii, cp).Written?
    ensures Eat(KindEucJp, e.tables, RESET, EncodeStep(e, IsoAscii, cp).bytes) == Fed(RESET, [Folded(e, cp)])
  {
    hide Eat;
    var t := e.tables;
    if cp == 0xA5 || cp == 0x203E {
      AsciiIsEaten(KindEucJp, t, Folded(e, cp));
    } else if 0xFF61 <= cp <= 0xFF9F {
      EatTwo(KindEucJp, t, RESET, 0x8E, RESET.(lead := 0x8E), cp - 0xFF61 + 0xA1, RESET, [cp]);
    } else {
      var mapped := if cp == 0x2212 then 0xFF0D else cp;
      EucJpPointer(t, IndexPointer(RevJis0208, t, mapped).pointer);
    }
  }

  lemma ShiftJisOneIsEaten(e: Target, cp: nat)
    requires e.kind == KindShiftJis && TablesFit(e) && cp >= 0x80
    requires EncodeStep(e, IsoAscii, cp).Written?
    ensures Eat(KindShiftJis, e.tables, RESET, EncodeStep(e, IsoAscii, cp).bytes) == Fed(RESET, [Folded(e, cp)])
  {
    hide Eat;
    var t := e.tables;
    if cp == 0x80 {
      EatOne(KindShiftJis, t, RESET, 0x80, RESET, [0x80]);
    } else if cp == 0xA5 || cp == 0x203E {
      AsciiIsEaten(KindShiftJis, t, Folded(e, cp));
    } else if 0xFF61 <= cp <= 0xFF9F {
      EatOne(KindShiftJis, t, RESET, cp - 0xFF61 + 0xA1, RESET, [cp]);
    } else {
      var mapped := if cp == 0x2212 then 0xFF0D else cp;
      ShiftJisPointer(t, IndexPointer(RevShiftJis, t, mapped).pointer);
    }
  }

  /** The kinds an output encoding can have: UTF-16 and replacement are output as UTF-8. */
  predicate IsOutputKind(kind: Kind) {
    kind !in {KindReplacement, KindUtf16Be, KindUtf16Le}
  }

  /** Every encodable code point of a stateless encoding is decoded to its folded self, and
      leaves the decoder as it found it. */
  lemma StatelessOneIsEaten(e: Target, cp: nat)
    requires e.kind != KindIso2022Jp && IsOutputKind(e.kind) && TablesFit(e) && Covered(e, cp)
    requires EncodeStep(e, IsoAscii, cp).Written?
    ensures Eat(e.kind, e.tables, RESET, EncodeStep(e, IsoAscii, cp).bytes) == Fed(RESET, [Folded(e, cp)])
  {
    hide Eat;
    var t := e.tables;
    if cp < 0x80 {
      AsciiIsEaten(e.kind, t, cp);
    } else {
      hide EncodeStep;
      hide Folded;
      match e.kind
      case KindGb18030 => Gb18030OneIsEaten(e, cp);
      case KindEucJp => EucJpOneIsEaten(e, cp);
      case KindShiftJis => ShiftJisOneIsEaten(e, cp);
      case _ => UnfoldedOneIsEaten(e, cp);
    }
  }

  /** The encodings that fold nothing. */
  lemma UnfoldedOneIsEaten(e: Target, cp: nat)
    requires e.kind !in {KindIso2022Jp, KindGb18030, KindEucJp, KindShiftJis} && IsOutputKind(e.kind)
    requires TablesFit(e) && Covered(e, cp) && cp >= 0x80 && EncodeStep(e, IsoAscii, cp).Written?
    ensures Eat(e.kind, e.tables, RESET, EncodeStep(e, IsoAscii, cp).bytes) == Fed(RESET, [Folded(e, cp)])
  {
    hide Eat;
    var t := e.tables;
    match e.kind
    case KindUtf8 => ScalarIsEaten(t, cp);
    case KindSingleByte =>
      EatOne(e.kind, t, RESET, SingleByteIndex(t.single, cp, 0).pointer + 0x80, RESET, [cp]);
    case KindBig5 => Big5Pointer(t, IndexPointer(RevBig5, t, cp).pointer);
    case KindEucKr => EucKrPointer(t, IndexPointer(RevEucKr, t, cp).pointer);
    case KindXUserDefined => EatOne(e.kind, t, RESET, cp - 0xF780 + 0x80, RESET, [cp]);
  }

  // ----- ISO-2022-JP -----

  /** The decoder is in the charset the encoder is in; an escape may just have been read. */
  predicate InCharset(iso: Iso, s: State) {
    EncoderState(iso) && s.iso == iso && s.outputIso == iso
  }

  lemma IsoPairIsEaten(e: Target, cp: nat, s: State) returns (s': State)
    requires e.kind == KindIso2022Jp && TablesFit(e) && InCharset(IsoLead, s)
    requires var r := EncodeStep(e, IsoLead, cp); r.Written? && !r.again
    ensures Eat(KindIso2022Jp, e.tables, s, EncodeStep(e, IsoLead, cp).bytes) == Fed(s', [Folded(e, cp)])
    ensures InCharset(IsoLead, s') && !s'.output && EncodeStep(e, IsoLead, cp).iso == IsoLead
  {
    hide Eat;
    hide DecoderStep;
    hide StateOk;
    var p := IsoPairPointer(e, cp);
    var b0, b1 := p / 94 + 0x21, p % 94 + 0x21;
    var s1: State;
    s1, s' := IsoPairTurns(e.tables, s, p, Folded(e, cp));
    EatTwo(KindIso2022Jp, e.tables, s, b0, s1, b1, s', [Folded(e, cp)]);
  }

  /** The pointer the two bytes spell. */
  lemma IsoPairPointer(e: Target, cp: nat) returns (p: nat)
    requires e.kind == KindIso2022Jp && TablesFit(e)
    requires var r := EncodeStep(e, IsoLead, cp); r.Written? && !r.again
    ensures p / 94 < 94 && EncodeStep(e, IsoLead, cp).bytes == [p / 94 + 0x21, p % 94 + 0x21]
    ensures EncodeStep(e, IsoLead, cp).iso == IsoLead
    ensures Folded(e, cp) != 0 && IndexCodePoint(e.tables.jis0208, p) == Folded(e, cp)
  {
    p := IndexPointer(RevJis0208, e.tables, IsoMapped(e.tables, cp)).pointer;
    SplitPointer(p, 94);
  }

  lemma IsoPairTurns(t: Tables, s: State, p: nat, cp: nat) returns (s1: State, s2: State)
    requires t.Valid() && InCharset(IsoLead, s) && p / 94 < 94 && cp != 0 && IndexCodePoint(t.jis0208, p) == cp
    ensures StateOk(KindIso2022Jp, s) && StateOk(KindIso2022Jp, s1)
    ensures DecoderStep(KindIso2022Jp, t, s, p / 94 + 0x21) == Step(s1, [], Continue)
    ensures DecoderStep(KindIso2022Jp, t, s1, p % 94 + 0x21) == Step(s2, [], Emit([cp]))
    ensures InCharset(IsoLead, s2) && !s2.output
  {
    hide IndexCodePoint;
    SplitPointer(p, 94);
    s1 := s.(lead := p / 94 + 0x21, iso := IsoTrail, output := false);
    s2 := s1.(iso := IsoLead);
  }

  lemma IsoByteIsEaten(e: Target, iso: Iso, cp: nat, s: State) returns (s': State)
    requires e.kind == KindIso2022Jp && TablesFit(e) && InCharset(iso, s) && iso != IsoLead
    requires var r := EncodeStep(e, iso, cp); r.Written? && !r.again
    ensures Eat(KindIso2022Jp, e.tables, s, EncodeStep(e, iso, cp).bytes) == Fed(s', [Folded(e, cp)])
    ensures InCharset(iso, s') && !s'.output && EncodeStep(e, iso, cp).iso == iso
  {
    hide Eat;
    var bytes := EncodeStep(e, iso, cp).bytes;
    s' := s.(output := false);
    assert bytes == [bytes[0]];
    EatOne(KindIso2022Jp, e.tables, s, bytes[0], s', [cp]);
  }

  lemma IsoCharIsEaten(e: Target, iso: Iso, cp: nat, s: State) returns (s': State)
    requires e.kind == KindIso2022Jp && TablesFit(e) && InCharset(iso, s)
    requires var r := EncodeStep(e, iso, cp); r.Written? && !r.again
    ensures Eat(KindIso2022Jp, e.tables, s, EncodeStep(e, iso, cp).bytes) == Fed(s', [Folded(e, cp)])
    ensures InCharset(iso, s') && !s'.output && EncodeStep(e, iso, cp).iso == iso
  {
    hide Eat;
    hide EncodeStep;
    hide Folded;
    hide TablesFit;
    if iso == IsoLead {
      s' := IsoPairIsEaten(e, cp, s);
    } else {
      s' := IsoByteIsEaten(e, iso, cp, s);
    }
  }

  /** The decoder state after the escape sequence into `iso`. */
  function Switched(s: State, iso: Iso): State {
    s.(lead := 0, iso := iso, outputIso := iso, output := true)
  }

  lemma EscapeIsEaten(t: Tables, from: Iso, s: State, iso: Iso)
    requires t.Valid() && InCharset(from, s) && !s.output && EncoderState(iso)
    ensures StateOk(KindIso2022Jp, Switched(s, iso)) && InCharset(iso, Switched(s, iso))
    ensures Eat(KindIso2022Jp, t, s, IsoSwitch(iso).bytes) == Fed(Switched(s, iso), [])
  {
    var b := IsoSwitch(iso).bytes;
    var s1 := s.(iso := IsoEscapeStart);
    var s2 := s1.(lead := b[1], iso := IsoEscape);
    assert b == [b[0]] + [b[1], b[2]] && [b[1], b[2]] == [b[1]] + [b[2]] && [b[2]] == [b[2]] + [];
    EatMore(KindIso2022Jp, t, s, b[0], s1, [b[1], b[2]]);
    EatMore(KindIso2022Jp, t, s1, b[1], s2, [b[2]]);
    EatMore(KindIso2022Jp, t, s2, b[2], Switched(s, iso), []);
  }

  /** One code point, the escape in front of it included if there is one. */
  lemma IsoOneIsEaten(e: Target, iso: Iso, cp: nat, s: State) returns (s': State)
    requires e.kind == KindIso2022Jp && TablesFit(e) && InStep(e, iso, s)
    requires EncodeOne(e, iso, cp).error == NoError
    ensures Eat(KindIso2022Jp, e.tables, s, EncodeOne(e, iso, cp).bytes) == Fed(s', [Folded(e, cp)])
    ensures InStep(e, EncodeOne(e, iso, cp).iso, s')
  {
    hide Eat;
    hide EncodeStep;
    hide DecoderStep;
    hide Folded;
    var r := EncodeStep(e, iso, cp);
    RetriesOnce(e, iso, cp);
    if !r.again {
      s' := IsoCharIsEaten(e, iso, cp, s);
    } else {
      SwitchIsSwitch(e, iso, cp);
      EscapeIsEaten(e.tables, iso, s, r.iso);
      var s1 := Switched(s, r.iso);
      s' := IsoCharIsEaten(e, r.iso, cp, s1);
      var more := EncodeStep(e, r.iso, cp).bytes;
      EatConcat(KindIso2022Jp, e.tables, s, r.bytes, more);
      assert [] + [Folded(e, cp)] == [Folded(e, cp)];
    }
  }

  lemma SwitchIsSwitch(e: Target, iso: Iso, cp: nat)
    requires e.kind == KindIso2022Jp && e.tables.Valid() && EncoderState(iso)
    requires var r := EncodeStep(e, iso, cp); r.Written? && r.again
    ensures EncodeStep(e, iso, cp) == IsoSwitch(EncodeStep(e, iso, cp).iso)
    ensures EncoderState(EncodeStep(e, iso, cp).iso)
  {}

  // ----- whole strings -----

  lemma OneIsEaten(e: Target, iso: Iso, cp: nat, s: State) returns (s': State)
    requires IsOutputKind(e.kind) && TablesFit(e) && Covered(e, cp)
    requires EncoderState(iso) && InStep(e, iso, s)
    requires e.kind != KindIso2022Jp ==> iso == IsoAscii
    requires EncodeOne(e, iso, cp).error == NoError
    ensures StateOk(e.kind, s)
    ensures Eat(e.kind, e.tables, s, EncodeOne(e, iso, cp).bytes) == Fed(s', [Folded(e, cp)])
    ensures InStep(e, EncodeOne(e, iso, cp).iso, s')
    ensures e.kind != KindIso2022Jp ==> EncodeOne(e, iso, cp).iso == IsoAscii
  {
    hide Eat;
    hide Folded;
    hide DecoderStep;
    if e.kind == KindIso2022Jp {
      hide EncodeStep;
      s' := IsoOneIsEaten(e, iso, cp, s);
    } else {
      s' := RESET;
      StatelessStep(e, cp);
      hide EncodeStep;
      StatelessOneIsEaten(e, cp);
    }
  }

  lemma StatelessStep(e: Target, cp: nat)
    requires e.tables.Valid() && e.kind != KindIso2022Jp && EncodeStep(e, IsoAscii, cp).Written?
    ensures var r := EncodeStep(e, IsoAscii, cp); r.iso == IsoAscii && !r.again
  {}

  function FoldedAll(e: Target, cps: seq<nat>): seq<nat>
    requires e.tables.Valid()
  {
    seq(|cps|, i requires 0 <= i < |cps| => Folded(e, cps[i]))
  }

  /** The end of the stream, after the closing escape, finishes the decode quietly. */
  lemma EndIsDecoded(e: Target, c: Config, iso: Iso, s: State)
    requires c.Valid() && c.kind == e.kind && c.tables == e.tables && IsOutputKind(e.kind)
    requires EncoderState(iso) && InStep(e, iso, s)
    ensures StateOk(e.kind, s) && Reachable(e.kind, Snapshot(s, []))
    ensures var r := Decode(c, Snapshot(s, []), EncodeEnd(e, iso), true); r.ok && r.out == []
  {
    var last := s;
    if e.kind == KindIso2022Jp && iso != IsoAscii {
      EscapeIsEaten(e.tables, iso, s, IsoAscii);
      EatenIsDecoded(c, s, EncodeEnd(e, iso), [], true);
      assert EncodeEnd(e, iso) + [] == EncodeEnd(e, iso);
      last := Switched(s, IsoAscii);
    }
    assert DecoderStep(c.kind, c.tables, last, EOS) == Step(last, [], Finished);
    assert Decode(c, Snapshot(last, []), [], true) == Run(Snapshot(last, []), [], true);
  }

  lemma {:induction false} StringIsDecoded(e: Target, c: Config, iso: Iso, s: State, cps: seq<nat>)
    requires c.Valid() && c.kind == e.kind && c.tables == e.tables
    requires IsOutputKind(e.kind) && TablesFit(e) && forall cp :: cp in cps ==> Covered(e, cp)
    requires EncoderState(iso) && InStep(e, iso, s)
    requires e.kind != KindIso2022Jp ==> iso == IsoAscii
    requires Encodable(e, iso, cps)
    ensures StateOk(e.kind, s) && Reachable(e.kind, Snapshot(s, []))
    ensures var r := Decode(c, Snapshot(s, []), EncodeString(e, iso, cps), true);
            r.ok && r.out == EncodeAll(FoldedAll(e, cps))
    decreases |cps|
  {
    hide Tables.Valid;
    hide TablesFit;
    hide StateOk;
    hide InStep;
    hide DecoderStep;
    hide EncodeStep;
    hide EncodeOne;
    hide Decode;
    hide Eat;
    hide Folded;
    hide Covered;
    EndIsDecoded(e, c, iso, s);
    if cps == [] {
    } else {
      var a := EncodeOne(e, iso, cps[0]);
      var s' := OneIsEaten(e, iso, cps[0], s);
      var rest := EncodeString(e, a.iso, cps[1..]);
      EatenIsDecoded(c, s, a.bytes, rest, true);
      StringIsDecoded(e, c, a.iso, s', cps[1..]);
      assert FoldedAll(e, cps) == [Folded(e, cps[0])] + FoldedAll(e, cps[1..]);
      EncodeAllConcat([Folded(e, cps[0])], FoldedAll(e, cps[1..]));
    }
  }

  /** Decoding what was encoded: no error, even in fatal mode, and the text is the original
      with its few folded code points replaced. */
  lemma DecodeAfterEncode(e: Target, cps: seq<nat>, fatal: bool)
    requires IsOutputKind(e.kind) && TablesFit(e) && forall cp :: cp in cps ==> Covered(e, cp)
    requires Encodable(e, IsoAscii, cps)
    ensures var r := Decode(Config(e.kind, e.tables, fatal), START, EncodeString(e, IsoAscii, cps), true);
            r.ok && r.out == EncodeAll(FoldedAll(e, cps))
  {
    hide Decode;
    hide EncodeString;
    hide Encodable;
    StringIsDecoded(e, Config(e.kind, e.tables, fatal), IsoAscii, RESET, cps);
  }

  lemma FoldsNothing(e: Target, cps: seq<nat>)
    requires e.tables.Valid() && forall cp :: cp in cps ==> Folded(e, cp) == cp
    ensures FoldedAll(e, cps) == cps
  {
    assert forall k :: 0 <= k < |cps| ==> cps[k] in cps;
  }

  /** The original text comes back exactly when it contains no folded code point. */
  lemma RoundTripsExactly(e: Target, cps: seq<nat>, fatal: bool)
    requires IsOutputKind(e.kind) && TablesFit(e) && forall cp :: cp in cps ==> Covered(e, cp)
    requires Encodable(e, IsoAscii, cps)
    requires forall cp :: cp in cps ==> Folded(e, cp) <= MAX_CODE_POINT
    ensures Decode(Config(e.kind, e.tables, fatal), START, EncodeString(e, IsoAscii, cps), true).out == EncodeAll(cps)
        <==> forall cp :: cp in cps ==> Folded(e, cp) == cp
  {
    hide Decode;
    hide EncodeString;
    hide Encodable;
    hide Folded;
    DecodeAfterEncode(e, cps, fatal);
    var back := FoldedAll(e, cps);
    if forall cp :: cp in cps ==> Folded(e, cp) == cp { FoldsNothing(e, cps); }
    if EncodeAll(back) == EncodeAll(cps) {
      assert forall k :: 0 <= k < |cps| ==> cps[k] in cps && Covered(e, cps[k]);
      EncodeAllInjective(back, cps);
      forall cp | cp in cps ensures Folded(e, cp) == cp {
        var k :| 0 <= k < |cps| && cps[k] == cp;
        assert back[k] == Folded(e, cps[k]);
      }
    }
  }
}
