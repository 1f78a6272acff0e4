/** The encoder as it runs: a state field, the retry loop, percent-encoding. */
module Encoder {
  import opened Utf8
  import opened DecoderSpec
  import opened ReverseIndex
  import opened EncoderSpec
  import opened PercentEncoding

  const ENCODE_ERROR := -1
  const ENCODE_ERROR_FFFD := -2

  /** What a handler's return value and output buffer mean. */
  function Meaning(n: int, out: seq<byte>, iso: Iso, again: bool): Encoded {
    if n == ENCODE_ERROR_FFFD then Unmappable(true)
    else if n < 0 then Unmappable(false)
    else Written(out, iso, again)
  }

  class TextEncoder {
    const target: Target
    const maps: ReverseMaps
    var isoState: Iso

    ghost predicate Valid() reads this, maps {
      maps.Valid() && target.tables.Valid() && maps.tables == target.tables && EncoderState(isoState)
    }

    constructor (target: Target, maps: ReverseMaps)
      requires maps.Valid() && target.tables.Valid() && maps.tables == target.tables
      ensures Valid() && isoState == IsoAscii && this.target == target && this.maps == maps
    {
      this.target, this.maps, isoState := target, maps, IsoAscii;
    }

    /** Linear search of the high half of a single-byte encoding. */
    method SingleByte(cp: nat) returns (n: int, out: seq<byte>)
      requires Valid() && cp >= 0x80 && target.kind == KindSingleByte
      ensures Meaning(n, out, isoState, false) == EncodeStep(target, isoState, cp)
    {
      var index := target.tables.single;
      for b := 0 to 128
        invariant SingleByteIndex(index, cp, b) == SingleByteIndex(index, cp, 0)
      {
        if index[b] == cp { return 1, One(b + 0x80); }
      }
      return ENCODE_ERROR, [];
    }

    method Gb18030RangesPointer(cp: nat) returns (pointer: nat)
      requires |target.tables.ranges| > 0
      ensures pointer == RangesPointer(target.tables.ranges, cp)
    {
      if cp == 0xE7C7 { return 7457; }
      var ranges := target.tables.ranges;
      var lo, hi := 0, |ranges|;
      while hi - lo > 1
        invariant 0 <= lo < hi <= |ranges|
        invariant RangeByCodePoint(ranges, cp, lo, hi) == RangeByCodePoint(ranges, cp, 0, |ranges|)
      {
        var mid := lo + (hi - lo) / 2;
        if ranges[mid].codePoint <= cp { lo := mid; } else { hi := mid; }
      }
      return (ranges[lo].index + cp - ranges[lo].codePoint) % 0x1_0000_0000;
    }

    method Gb18030(cp: nat) returns (n: int, out: seq<byte>)
      requires Valid()
      modifies maps
      ensures Valid()
      ensures Meaning(n, out, isoState, false) == EncodeGb18030(target, isoState, cp)
    {
      if cp == 0xE5E5 { return ENCODE_ERROR, []; }
      if target.gbk && cp == 0x20AC { return 1, [0x80]; }
      var fixed := Fixed(cp);
      if fixed.FixedPair? { return 2, [fixed.lead, fixed.trail]; }
      var found, pointer := maps.RevPointer(RevGb18030, cp);
      if found {
        var trail := pointer % 190;
        return 2, Two(pointer / 190 + 0x81, trail + (if trail < 0x3F then 0x40 else 0x41));
      }
      if target.gbk { return ENCODE_ERROR, []; }
      pointer := Gb18030RangesPointer(cp);
      out := WriteFour(pointer);
      return 4, out;
    }

    method WriteFour(whole: nat) returns (out: seq<byte>)
      ensures out == FourBytes(whole)
    {
      NestedRemainders(whole);
      var pointer := whole;
      var b0 := (pointer / (10 * 126 * 10) + 0x81) % 256;
      pointer := pointer % (10 * 126 * 10);
      var b1 := pointer / (10 * 126) + 0x30;
      pointer := pointer % (10 * 126);
      out := [b0, b1, pointer / 10 + 0x81, pointer % 10 + 0x30];
    }

    method Big5(cp: nat) returns (n: int, out: seq<byte>)
      requires Valid()
      modifies maps
      ensures Valid()
      ensures Meaning(n, out, isoState, false) == EncodeBig5(target, isoState, cp)
    {
      var found, pointer := maps.RevPointer(RevBig5, cp);
      if !found { return ENCODE_ERROR, []; }
      var trail := pointer % 157;
      return 2, Two(pointer / 157 + 0x81, trail + (if trail < 0x3F then 0x40 else 0x62));
    }

    method EucJp(codePoint: nat) returns (n: int, out: seq<byte>)
      requires Valid()
      modifies maps
      ensures Valid()
      ensures Meaning(n, out, isoState, false) == EncodeEucJp(target, isoState, codePoint)
    {
      var cp := codePoint;
      if cp == 0xA5 { return 1, [0x5C]; }
      if cp == 0x203E { return 1, [0x7E]; }
      if 0xFF61 <= cp <= 0xFF9F { return 2, [0x8E, cp - 0xFF61 + 0xA1]; }
      if cp == 0x2212 { cp := 0xFF0D; }
      var found, pointer := maps.RevPointer(RevJis0208, cp);
      if !found { return ENCODE_ERROR, []; }
      return 2, Two(pointer / 94 + 0xA1, pointer % 94 + 0xA1);
    }

    /** Enters `iso`, writes its escape sequence and asks for the code point again. */
    method IsoSwitchTo(iso: Iso) returns (n: int, out: seq<byte>, again: bool)
      modifies `isoState
      ensures isoState == iso && Meaning(n, out, isoState, again) == IsoSwitch(iso)
    {
      isoState := iso;
      return 3, [0x1B, if iso == IsoLead then 0x24 else 0x28, if iso == IsoRoman then 0x4A else 0x42], true;
    }

    method Iso2022Jp(cp: nat) returns (n: int, out: seq<byte>, again: bool)
      requires Valid()
      modifies `isoState, maps
      ensures Valid()
      ensures Meaning(n, out, isoState, again) == EncodeIso2022Jp(target, old(isoState), cp)
      ensures n < 0 ==> isoState == old(isoState) && !again
    {
      again := false;
      var state := isoState;
      var ascii := cp < 0x80;
      if (state == IsoAscii || state == IsoRoman) && (cp == 0x0E || cp == 0x0F || cp == 0x1B) {
        return ENCODE_ERROR_FFFD, [], false;
      }
      if state == IsoAscii && ascii { return 1, One(cp), false; }
      if state == IsoRoman && ((ascii && cp != 0x5C && cp != 0x7E) || cp == 0xA5 || cp == 0x203E) {
        return 1, One(if cp == 0xA5 then 0x5C else if cp == 0x203E then 0x7E else cp), false;
      }
      if ascii {
        n, out, again := IsoSwitchTo(IsoAscii);
        return;
      }
      if cp == 0xA5 || cp == 0x203E {
        n, out, again := IsoSwitchTo(IsoRoman);
        return;
      }
      var mapped := if cp == 0x2212 then 0xFF0D else cp;
      if 0xFF61 <= mapped <= 0xFF9F { mapped := target.tables.katakana[mapped - 0xFF61]; }
      var found, pointer := maps.RevPointer(RevJis0208, mapped);
      if !found {
        if state == IsoLead {
          n, out, again := IsoSwitchTo(IsoAscii);
          return;
        }
        return ENCODE_ERROR, [], false;
      }
      if state != IsoLead {
        n, out, again := IsoSwitchTo(IsoLead);
        return;
      }
      return 2, Two(pointer / 94 + 0x21, pointer % 94 + 0x21), false;
    }

    method ShiftJis(codePoint: nat) returns (n: int, out: seq<byte>)
      requires Valid()
      modifies maps
      ensures Valid()
      ensures Meaning(n, out, isoState, false) == EncodeShiftJis(target, isoState, codePoint)
    {
      var cp := codePoint;
      if cp == 0x80 { return 1, [0x80]; }
      if cp == 0xA5 { return 1, [0x5C]; }
      if cp == 0x203E { return 1, [0x7E]; }
      if 0xFF61 <= cp <= 0xFF9F { return 1, [cp - 0xFF61 + 0xA1]; }
      if cp == 0x2212 { cp := 0xFF0D; }
      var found, pointer := maps.RevPointer(RevShiftJis, cp);
      if !found { return ENCODE_ERROR, []; }
      var lead, trail := pointer / 188, pointer % 188;
      return 2, Two(lead + (if lead < 0x1F then 0x81 else 0xC1), trail + (if trail < 0x3F then 0x40 else 0x41));
    }

    method EucKr(cp: nat) returns (n: int, out: seq<byte>)
      requires Valid()
      modifies maps
      ensures Valid()
      ensures Meaning(n, out, isoState, false) == EncodeEucKr(target, isoState, cp)
    {
      var found, pointer := maps.RevPointer(RevEucKr, cp);
      if !found { return ENCODE_ERROR, []; }
      return 2, Two(pointer / 190 + 0x81, pointer % 190 + 0x41);
    }

    /** One encoder call, dispatched on the encoding kind. */
    method Step(cp: nat) returns (n: int, out: seq<byte>, again: bool)
      requires Valid()
      modifies `isoState, maps
      ensures Valid()
      ensures Meaning(n, out, isoState, again) == EncodeStep(target, old(isoState), cp)
      ensures n < 0 ==> isoState == old(isoState) && !again
    {
      again := false;
      if target.kind == KindIso2022Jp {
        n, out, again := Iso2022Jp(cp);
        return;
      }
      if cp < 0x80 { return 1, One(cp), false; }
      match target.kind {
        case KindSingleByte => n, out := SingleByte(cp);
        case KindGb18030 => n, out := Gb18030(cp);
        case KindBig5 => n, out := Big5(cp);
        case KindEucJp => n, out := EucJp(cp);
        case KindShiftJis => n, out := ShiftJis(cp);
        case KindEucKr => n, out := EucKr(cp);
        case KindXUserDefined =>
          if cp < 0xF780 || cp > 0xF7FF { return ENCODE_ERROR, [], false; }
          return 1, One(cp - 0xF780 + 0x80), false;
        case _ => n, out := |Encode(cp)|, Encode(cp);
      }
    }

    /** The closing escape back to ASCII. */
    method End() returns (out: seq<byte>)
      requires Valid()
      modifies `isoState
      ensures out == EncodeEnd(target, old(isoState))
      ensures Valid() && (target.kind == KindIso2022Jp ==> isoState == IsoAscii)
    {
      if target.kind != KindIso2022Jp || isoState == IsoAscii { return []; }
      var n, again;
      n, out, again := IsoSwitchTo(IsoAscii);
    }

    /** One code point, tried again after an escape: the loop runs at most twice. */
    method PercentEncodeOne(cp: nat, set_: PercentSet, plus: bool) returns (text: seq<byte>)
      requires Valid()
      modifies `isoState, maps
      ensures Valid()
      ensures var a := EncodeOne(target, old(isoState), cp);
              && isoState == a.iso
              && text == EscapeAll(a.bytes, set_, plus)
                         + (if a.error == NoError then [] else EscapedReference(Named(a.error, cp)))
    {
      hide EncodeStep;
      ghost var started := isoState;
      RetriesOnce(target, isoState, cp);
      var n, out, again := Step(cp);
      if n < 0 {
        return EscapedReference(if n == ENCODE_ERROR_FFFD then 0xFFFD else cp);
      }
      text := PercentAppend([], out, set_, plus);
      ghost var tries := 1;
      ghost var written := out;
      while again
        invariant Valid() && 1 <= tries <= 2
        invariant tries == 1 ==> Written(written, isoState, again) == EncodeStep(target, started, cp)
        invariant tries == 2 ==> !again && EncodeOne(target, started, cp) == Attempt(written, isoState, NoError)
        invariant text == EscapeAll(written, set_, plus)
        decreases 2 - tries
      {
        n, out, again := Step(cp);
        if n < 0 {
          return text + EscapedReference(if n == ENCODE_ERROR_FFFD then 0xFFFD else cp);
        }
        text := PercentAppend(text, out, set_, plus);
        EscapeConcat(written, out, set_, plus);
        written := written + out;
        tries := 2;
      }
      assert text + [] == text;
    }

    /** URL percent-encoding of a text after encoding it. */
    method PercentEncode(cps: seq<nat>, set_: PercentSet, plus: bool) returns (text: seq<byte>)
      requires Valid()
      modifies `isoState, maps
      ensures Valid()
      ensures text == PercentText(target, old(isoState), cps, set_, plus)
    {
      hide EncodeOne;
      hide EscapeAll;
      ghost var whole := PercentText(target, isoState, cps, set_, plus);
      text := [];
      assert cps[0..] == cps && [] + whole == whole;
      for i := 0 to |cps|
        invariant Valid()
        invariant text + PercentText(target, isoState, cps[i..], set_, plus) == whole
      {
        ghost var before, iso, rest := text, isoState, cps[i..];
        var piece := PercentEncodeOne(cps[i], set_, plus);
        text := text + piece;
        assert rest[0] == cps[i] && rest[1..] == cps[i + 1..];
        assert before + (piece + PercentText(target, isoState, cps[i + 1..], set_, plus))
            == (before + piece) + PercentText(target, isoState, cps[i + 1..], set_, plus);
      }
      assert cps[|cps|..] == [];
      var end := End();
      text := PercentAppend(text, end, set_, plus);
    }
  }

  lemma NestedRemainders(n: nat)
    ensures n % 12600 % 1260 == n % 1260
    ensures n % 1260 % 10 == n % 10
  {
    assert n == 1260 * (10 * (n / 12600) + n % 12600 / 1260) + n % 12600 % 1260;
    assert n == 10 * (126 * (n / 1260) + n % 1260 / 10) + n % 1260 % 10;
  }

  /** Appends bytes one at a time, escaping the ones in the set. */
  method PercentAppend(text: seq<byte>, bytes: seq<byte>, set_: PercentSet, plus: bool) returns (r: seq<byte>)
    ensures r == text + EscapeAll(bytes, set_, plus)
  {
    r := text;
    assert bytes[0..] == bytes;
    for i := 0 to |bytes|
      invariant r + EscapeAll(bytes[i..], set_, plus) == text + EscapeAll(bytes, set_, plus)
    {
      var b := bytes[i];
      assert bytes[i..][0] == b && bytes[i..][1..] == bytes[i + 1..];
      ghost var before := r;
      r := r + EscapeByte(b, set_, plus);
      assert before + (EscapeByte(b, set_, plus) + EscapeAll(bytes[i + 1..], set_, plus))
          == r + EscapeAll(bytes[i + 1..], set_, plus);
    }
    assert bytes[|bytes|..] == [];
    assert r + [] == r;
  }
}
