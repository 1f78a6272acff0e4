/** Any text, there and back. */
module EncodedText {
  import opened Utf8
  import opened DecoderSpec
  import opened DecodeRun
  import opened Feed
  import opened ReverseIndex
  import opened EncoderSpec
  import opened PercentEncoding
  import opened RoundTrip

  /** What the decoder is to show for one code point: its folded self, or the reference that stands for it. */
  ghost function Shown(e: Target, iso: Iso, cp: nat): seq<nat>
    requires e.tables.Valid() && EncoderState(iso)
  {
    var a := EncodeOne(e, iso, cp);
    if a.error == NoError then [Folded(e, cp)] else Reference(Named(a.error, cp))
  }

  ghost function ShownAll(e: Target, iso: Iso, cps: seq<nat>): seq<nat>
    requires e.tables.Valid() && EncoderState(iso)
    decreases |cps|
  {
    if cps == [] then [] else Shown(e, iso, cps[0]) + ShownAll(e, EncodeOne(e, iso, cps[0]).iso, cps[1..])
  }

  // ----- references -----

  /** A code point becomes a reference to U+FFFD exactly where ISO-2022-JP uses it for itself. */
  lemma ReplacedExactly(e: Target, iso: Iso, cp: nat)
    requires e.tables.Valid() && EncoderState(iso)
    ensures EncodeOne(e, iso, cp).error == UseReplacement <==> e.kind == KindIso2022Jp && cp in {0x0E, 0x0F, 0x1B}
    ensures Named(EncodeOne(e, iso, cp).error, cp) == if e.kind == KindIso2022Jp && cp in {0x0E, 0x0F, 0x1B} then 0xFFFD else cp
  {
    hide FourBytes;
    hide RangesPointer;
    hide Fixed;
  }

  /** What cannot be encoded leaves the encoder in a charset of single bytes, with nothing written but
      the escape there. */
  lemma ErrorLeavesSingleBytes(e: Target, iso: Iso, cp: nat)
    requires e.tables.Valid() && EncoderState(iso) && EncodeOne(e, iso, cp).error != NoError
    requires e.kind != KindIso2022Jp ==> iso == IsoAscii
    ensures var a := EncodeOne(e, iso, cp);
            || (a.bytes == [] && a.iso == iso && (e.kind == KindIso2022Jp ==> iso != IsoLead))
            || (e.kind == KindIso2022Jp && a.bytes == IsoSwitch(IsoAscii).bytes && a.iso == IsoAscii && iso == IsoLead)
  {
    hide FourBytes;
    hide RangesPointer;
    hide Fixed;
  }

  /** Letters of a reference. */
  predicate Lettered(bytes: seq<byte>) {
    forall k :: 0 <= k < |bytes| ==> 0x20 <= bytes[k] < 0x5C
  }

  lemma {:induction false} DecimalIsLettered(n: nat)
    ensures Lettered(Decimal(n))
  {
    if n >= 10 { DecimalIsLettered(n / 10); }
  }

  lemma ReferenceIsLettered(n: nat)
    ensures Lettered(Reference(n)) && Reference(n) != []
  {
    DecimalIsLettered(n);
  }

  /** The state after a letter. */
  function Read(kind: Kind, s: State): State {
    if kind == KindIso2022Jp then s.(output := false) else s
  }

  /** Where a letter stands for itself. */
  predicate ReadsLetters(kind: Kind, s: State) {
    IsOutputKind(kind) && if kind == KindIso2022Jp then s.iso == s.outputIso && s.iso in {IsoAscii, IsoRoman} else s == RESET
  }

  lemma LetterIsEaten(kind: Kind, t: Tables, s: State, b: byte)
    requires t.Valid() && ReadsLetters(kind, s) && 0x20 <= b < 0x5C
    ensures StateOk(kind, s) && ReadsLetters(kind, Read(kind, s))
    ensures DecoderStep(kind, t, s, b) == Step(Read(kind, s), [], Emit([b]))
  {}

  lemma {:induction false} LettersAreEaten(kind: Kind, t: Tables, s: State, bytes: seq<byte>)
    requires t.Valid() && ReadsLetters(kind, s) && Lettered(bytes) && bytes != []
    ensures StateOk(kind, s) && Eat(kind, t, s, bytes) == Fed(Read(kind, s), bytes)
    decreases |bytes|
  {
    hide DecoderStep;
    hide StateOk;
    hide Eat;
    LetterIsEaten(kind, t, s, bytes[0]);
    EatOne(kind, t, s, bytes[0], Read(kind, s), [bytes[0]]);
    assert bytes == [bytes[0]] + bytes[1..];
    if bytes[1..] == [] {
      assert bytes == [bytes[0]];
    } else {
      LettersAreEaten(kind, t, Read(kind, s), bytes[1..]);
      EatConcat(kind, t, s, [bytes[0]], bytes[1..]);
      assert Read(kind, Read(kind, s)) == Read(kind, s);
    }
  }

  /** A reference, with the escape in front of it if there is one. */
  lemma ReferenceIsEaten(e: Target, iso: Iso, cp: nat, s: State) returns (s': State)
    requires IsOutputKind(e.kind) && e.tables.Valid() && EncoderState(iso) && InStep(e, iso, s)
    requires (e.kind != KindIso2022Jp ==> iso == IsoAscii) && EncodeOne(e, iso, cp).error != NoError
    ensures StateOk(e.kind, s)
    ensures var a := EncodeOne(e, iso, cp);
            var ref := Reference(Named(a.error, cp));
            Eat(e.kind, e.tables, s, a.bytes + ref) == Fed(s', ref) && InStep(e, a.iso, s')
  {
    hide Eat;
    hide EncodeOne;
    hide Reference;
    hide IsoSwitch;
    var a := EncodeOne(e, iso, cp);
    var ref := Reference(Named(a.error, cp));
    ErrorLeavesSingleBytes(e, iso, cp);
    ReferenceIsLettered(Named(a.error, cp));
    var s1 := s;
    if a.bytes == [] && a.iso == iso {
      assert a.bytes + ref == ref;
    } else {
      EscapeIsEaten(e.tables, iso, s, IsoAscii);
      s1 := Switched(s, IsoAscii);
    }
    LettersAreEaten(e.kind, e.tables, s1, ref);
    s' := Read(e.kind, s1);
    if s1 != s {
      EatConcat(e.kind, e.tables, s, a.bytes, ref);
      assert [] + ref == ref;
    }
  }

  // ----- whole texts -----

  /** One code point, encodable or not. */
  lemma ShownIsEaten(e: Target, iso: Iso, cp: nat, s: State) returns (s': State)
    requires IsOutputKind(e.kind) && TablesFit(e) && EncoderState(iso) && InStep(e, iso, s)
    requires (e.kind != KindIso2022Jp ==> iso == IsoAscii) && Covered(e, cp)
    ensures StateOk(e.kind, s)
    ensures var a := EncodeOne(e, iso, cp);
            var bytes := a.bytes + (if a.error == NoError then [] else Reference(Named(a.error, cp)));
            Eat(e.kind, e.tables, s, bytes) == Fed(s', Shown(e, iso, cp)) && InStep(e, a.iso, s')
    ensures e.kind != KindIso2022Jp ==> EncodeOne(e, iso, cp).iso == IsoAscii
  {
    hide Eat;
    hide EncodeOne;
    hide Reference;
    hide TablesFit;
    hide Covered;
    hide Folded;
    FitIsValid(e);
    var a := EncodeOne(e, iso, cp);
    if a.error == NoError {
      s' := OneIsEaten(e, iso, cp, s);
      assert a.bytes + [] == a.bytes;
    } else {
      s' := ReferenceIsEaten(e, iso, cp, s);
      ErrorLeavesSingleBytes(e, iso, cp);
    }
  }

  lemma FitIsValid(e: Target)
    requires TablesFit(e)
    ensures e.tables.Valid()
  {}

  /** Every text is written so that it is read without error, with a reference for each code point the
      encoding lacks. */
  lemma {:induction false} AnyTextIsDecoded(e: Target, c: Config, iso: Iso, s: State, cps: seq<nat>)
    requires c.Valid() && c.kind == e.kind && c.tables == e.tables
    requires IsOutputKind(e.kind) && TablesFit(e) && forall cp :: cp in cps ==> Covered(e, cp)
    requires EncoderState(iso) && InStep(e, iso, s)
    requires e.kind != KindIso2022Jp ==> iso == IsoAscii
    ensures StateOk(e.kind, s) && Reachable(e.kind, Snapshot(s, []))
    ensures var r := Decode(c, Snapshot(s, []), RawText(e, iso, cps), true);
            r.ok && r.out == EncodeAll(ShownAll(e, iso, cps))
    decreases |cps|
  {
    hide Tables.Valid;
    hide TablesFit;
    hide StateOk;
    hide InStep;
    hide DecoderStep;
    hide EncodeOne;
    hide Decode;
    hide Eat;
    hide Shown;
    hide Covered;
    hide Reference;
    EndIsDecoded(e, c, iso, s);
    if cps != [] {
      var a := EncodeOne(e, iso, cps[0]);
      var bytes := a.bytes + (if a.error == NoError then [] else Reference(Named(a.error, cps[0])));
      var s' := ShownIsEaten(e, iso, cps[0], s);
      var rest := RawText(e, a.iso, cps[1..]);
      EatenIsDecoded(c, s, bytes, rest, true);
      AnyTextIsDecoded(e, c, a.iso, s', cps[1..]);
      EncodeAllConcat(Shown(e, iso, cps[0]), ShownAll(e, a.iso, cps[1..]));
    }
  }

  /** The last escape brings the decoder back to ASCII. */
  lemma EndsInAscii(e: Target, iso: Iso, s: State) returns (s': State)
    requires e.kind == KindIso2022Jp && e.tables.Valid() && EncoderState(iso) && InStep(e, iso, s)
    ensures StateOk(e.kind, s)
    ensures Eat(e.kind, e.tables, s, EncodeEnd(e, iso)) == Fed(s', []) && InCharset(IsoAscii, s')
  {
    hide Eat;
    s' := s;
    if iso == IsoAscii {
      NothingIsEaten(e.kind, e.tables, s);
    } else {
      EscapeIsEaten(e.tables, iso, s, IsoAscii);
      s' := Switched(s, IsoAscii);
    }
  }

  lemma NothingIsEaten(kind: Kind, t: Tables, s: State)
    requires t.Valid() && StateOk(kind, s)
    ensures Eat(kind, t, s, []) == Fed(s, [])
  {}

  // ----- what is folded, and what is never written -----

  /** A folded code point is written as what it is folded onto. */
  lemma FoldedIsWrittenAlike(e: Target, iso: Iso, cp: nat)
    requires e.tables.Valid() && EncoderState(iso) && e.kind in {KindEucJp, KindShiftJis}
    requires cp in {0xA5, 0x203E, 0x2212}
    ensures var plain := if cp == 0xA5 then 0x5C else if cp == 0x203E then 0x7E else 0xFF0D;
            EncodeOne(e, iso, cp) == EncodeOne(e, iso, plain)
  {}

  /** In ISO-2022-JP half-width katakana is written as full-width katakana, a minus sign as a full-width one. */
  lemma HalfWidthIsWidened(e: Target, iso: Iso, i: nat)
    requires e.tables.Valid() && EncoderState(iso) && e.kind == KindIso2022Jp && i < 63
    requires var wide := e.tables.katakana[i];
             wide >= 0x80 && wide !in {0xA5, 0x203E, 0x2212} && !(0xFF61 <= wide <= 0xFF9F)
    ensures EncodeOne(e, iso, 0xFF61 + i) == EncodeOne(e, iso, e.tables.katakana[i])
    ensures EncodeOne(e, iso, 0x2212) == EncodeOne(e, iso, 0xFF0D)
  {}

  /** The rows set aside are never written: in Shift_JIS those that repeat others, in Big5 those before
      the standard ones. */
  lemma SetAsideIsNotWritten(e: Target, iso: Iso, cp: nat)
    requires TablesFit(e) && EncoderState(iso) && EncodeStep(e, iso, cp).Written? && |EncodeStep(e, iso, cp).bytes| == 2
    ensures e.kind == KindShiftJis ==> !(0xED <= EncodeStep(e, iso, cp).bytes[0] <= 0xEF)
    ensures e.kind == KindBig5 ==> 0xA1 <= EncodeStep(e, iso, cp).bytes[0] <= 0xFE
  {}
}
