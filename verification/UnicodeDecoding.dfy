/** Decoders write text; UTF decoders accept text only. */
module UnicodeDecoding {
  import opened Utf8
  import opened DecoderSpec
  import opened DecodeRun
  import opened Feed
  import opened FastPath

  predicate AllScalar(cps: seq<nat>) {
    forall cp :: cp in cps ==> IsScalar(cp)
  }

  // ----- whatever the bytes, the output is well-formed UTF-8 -----

  /** The index tables hold scalar values only. */
  ghost predicate TablesAreScalar(t: Tables) {
    && t.Valid()
    && (forall cp :: cp in t.single && cp != SINGLE_UNMAPPED ==> IsScalar(cp))
    && AllScalar(t.jis0208) && AllScalar(t.jis0212) && AllScalar(t.eucKr) && AllScalar(t.gb18030) && AllScalar(t.big5)
    && (forall pointer: nat :: IsScalar(RangesCodePoint(t.ranges, pointer)))
  }

  /** The first bits of a UTF-8 sequence leave only scalar values to end on. */
  predicate Promising(s: State) {
    match s.needed
    case 0 => true
    case 1 => s.codePoint < 32
    case 2 =>
      if s.seen == 0 then s.codePoint < 16 && (s.codePoint == 0xD ==> s.upper <= 0x9F)
      else s.codePoint < 0x400 && !(0x360 <= s.codePoint < 0x380)
    case _ =>
      if s.seen == 0 then
        s.codePoint <= 4 && (s.codePoint == 0 ==> s.lower >= 0x90) && (s.codePoint == 4 ==> s.upper <= 0x8F)
      else if s.seen == 1 then 0x10 <= s.codePoint <= 0x10F
      else 0x400 <= s.codePoint <= 0x43FF
  }

  /** The states reached from the start of a decode. */
  predicate Decoding(kind: Kind, s: State) {
    kind == KindUtf8 ==> Promising(s) && 0x80 <= s.lower && s.upper <= 0xBF
  }

  predicate Emits(kind: Kind, r: Step) {
    Decoding(kind, r.state) && (r.outcome.Emit? ==> AllScalar(r.outcome.cps))
  }

  lemma LeadEmits(s: State, x: Symbol)
    requires StateOk(KindUtf8, s) && Decoding(KindUtf8, s) && s.needed == 0
    ensures Emits(KindUtf8, Utf8Step(s, x))
  {}

  lemma TrailEmits(s: State, x: Symbol)
    requires StateOk(KindUtf8, s) && Decoding(KindUtf8, s) && s.needed > 0
    ensures Emits(KindUtf8, Utf8Step(s, x))
  {
    if s.lower <= x <= s.upper {
      assert x % 64 == x - 0x80;
    }
  }

  lemma Gb18030Emits(t: Tables, s: State, x: Symbol)
    requires TablesAreScalar(t) && StateOk(KindGb18030, s)
    ensures Emits(KindGb18030, Gb18030Step(t, s, x))
  {
    hide RangesCodePoint;
  }

  lemma JapaneseEmits(kind: Kind, t: Tables, s: State, x: Symbol)
    requires kind in {KindEucJp, KindIso2022Jp, KindShiftJis}
    requires TablesAreScalar(t) && StateOk(kind, s)
    ensures Emits(kind, DecoderStep(kind, t, s, x))
  {
    hide RangesCodePoint;
  }

  lemma OthersEmit(kind: Kind, t: Tables, s: State, x: Symbol)
    requires kind !in {KindUtf8, KindGb18030, KindEucJp, KindIso2022Jp, KindShiftJis}
    requires TablesAreScalar(t) && StateOk(kind, s)
    ensures Emits(kind, DecoderStep(kind, t, s, x))
  {
    hide RangesCodePoint;
  }

  lemma StepEmits(kind: Kind, t: Tables, s: State, x: Symbol)
    requires TablesAreScalar(t) && StateOk(kind, s) && Decoding(kind, s)
    ensures Emits(kind, DecoderStep(kind, t, s, x))
  {
    if kind == KindUtf8 {
      if s.needed == 0 { LeadEmits(s, x); } else { TrailEmits(s, x); }
    } else if kind == KindGb18030 {
      Gb18030Emits(t, s, x);
    } else if kind in {KindEucJp, KindIso2022Jp, KindShiftJis} {
      JapaneseEmits(kind, t, s, x);
    } else {
      OthersEmit(kind, t, s, x);
    }
  }

  /** Any bytes, in any encoding, in any mode: the output is the encoding of scalar values. */
  lemma {:induction false} OutputIsText(c: Config, d: Snapshot, input: seq<byte>, flush: bool) returns (cps: seq<nat>)
    requires TablesAreScalar(c.tables) && Reachable(c.kind, d) && Decoding(c.kind, d.state)
    ensures AllScalar(cps) && Decode(c, d, input, flush).out == EncodeAll(cps)
    ensures Decoding(c.kind, Decode(c, d, input, flush).decoder.state)
    decreases InFlight(c.kind, d, input), |d.queue| + |input|
  {
    hide DecoderStep;
    hide Decode;
    hide TablesAreScalar;
    if d.queue == [] && input == [] && !flush {
      assert c.Valid() by { TablesAreValid(c.tables); }
      DecodeNothing(c, d);
      cps := [];
    } else {
      TablesAreValid(c.tables);
      DecodeUnfolds(c, d, input, flush);
      var t := TakeTurn(c, d, input);
      StepEmits(c.kind, c.tables, d.state, if d.queue != [] then d.queue[0] else if input != [] then input[0] else EOS);
      if t.outcome == Finished || (t.outcome == Error && c.fatal) {
        cps := [];
      } else {
        var more := OutputIsText(c, t.decoder, t.rest, flush);
        var now: seq<nat> := if t.outcome.Emit? then t.outcome.cps else if t.outcome == Error then [REPLACEMENT_CHARACTER] else [];
        cps := now + more;
        EncodeAllConcat(now, more);
      }
    }
  }

  lemma TablesAreValid(t: Tables)
    requires TablesAreScalar(t)
    ensures t.Valid()
  {}

  // ----- UTF-8: what is accepted -----

  ghost predicate Spells(data: seq<byte>, cps: seq<nat>) {
    AllScalar(cps) && data == EncodeAll(cps)
  }

  /** Inside a sequence, a decode without error finds all the continuation bytes it needs. */
  lemma {:induction false} RestOfSequence(c: Config, s: State, rest: seq<byte>)
    requires c.Valid() && c.kind == KindUtf8 && c.fatal && StateOk(KindUtf8, s) && s.needed > 0
    requires Decode(c, Snapshot(s, []), rest, true).ok
    ensures |rest| >= s.needed - s.seen && s.lower <= rest[0] <= s.upper
    ensures forall k :: 1 <= k < s.needed - s.seen ==> Continuation(rest[k])
    decreases s.needed - s.seen
  {
    hide Decode;
    DecodeUnfolds(c, Snapshot(s, []), rest, true);
    if rest != [] && s.lower <= rest[0] <= s.upper && s.seen + 1 != s.needed {
      RestOfSequence(c, Utf8Step(s, rest[0]).state, rest[1..]);
    }
  }

  /** Between sequences, a decode without error finds a NUL or a well-formed character. */
  lemma FirstCharacter(c: Config, s: State, data: seq<byte>)
    requires c.Valid() && c.kind == KindUtf8 && c.fatal && StateOk(KindUtf8, s) && s.needed == 0 && data != []
    requires Decode(c, Snapshot(s, []), data, true).ok
    ensures data[0] == 0 || CharLength(data, 0) > 0
  {
    hide Decode;
    DecodeUnfolds(c, Snapshot(s, []), data, true);
    var next := Utf8Step(s, data[0]).state;
    if next.needed > 0 {
      RestOfSequence(c, next, data[1..]);
    }
  }

  lemma {:induction false} AcceptedIsText(c: Config, data: seq<byte>) returns (cps: seq<nat>)
    requires c.Valid() && c.kind == KindUtf8 && c.fatal
    requires Decode(c, START, data, true).ok
    ensures Spells(data, cps)
    decreases |data|
  {
    hide Decode;
    if data == [] {
      cps := [];
    } else {
      FirstCharacter(c, RESET, data);
      var n, cp := 1, 0;
      if data[0] == 0 {
        EatOne(KindUtf8, c.tables, RESET, 0, RESET, [0]);
      } else {
        n := CharLength(data, 0);
        cp := Value(data[..n]);
        assert WellFormed(data[..n]);
        CharIsEaten(c.tables, RESET, data[..n]);
        EncodeOfValue(data[..n]);
      }
      assert data == data[..n] + data[n..] && Encode(cp) == data[..n];
      EatenIsDecoded(c, RESET, data[..n], data[n..], true);
      var more := AcceptedIsText(c, data[n..]);
      cps := [cp] + more;
    }
  }

  lemma {:induction false} TextIsAccepted(c: Config, cps: seq<nat>)
    requires c.Valid() && c.kind == KindUtf8 && AllScalar(cps)
    ensures var r := Decode(c, START, EncodeAll(cps), true); r.ok && r.out == EncodeAll(cps)
    decreases |cps|
  {
    hide Decode;
    hide DecoderStep;
    hide Encode;
    if cps == [] {
      EmptyIsAccepted(c);
    } else {
      ScalarIsEaten(c.tables, cps[0]);
      EatenIsDecoded(c, RESET, Encode(cps[0]), EncodeAll(cps[1..]), true);
      TextIsAccepted(c, cps[1..]);
      assert EncodeAll([cps[0]]) == Encode(cps[0]) by { assert Encode(cps[0]) + [] == Encode(cps[0]); }
    }
  }

  lemma EmptyIsAccepted(c: Config)
    requires c.Valid() && c.kind in {KindUtf8, KindUtf16Be, KindUtf16Le}
    ensures Decode(c, START, [], true) == Run(START, [], true)
  {}

  /** A fatal UTF-8 decode succeeds on exactly the encodings of scalar values, and then copies them. */
  lemma Utf8AcceptsText(t: Tables, data: seq<byte>)
    requires t.Valid()
    ensures var r := Decode(Config(KindUtf8, t, true), START, data, true);
            (r.ok <==> exists cps :: Spells(data, cps)) && (r.ok ==> r.out == data)
  {
    hide Decode;
    var c := Config(KindUtf8, t, true);
    if Decode(c, START, data, true).ok {
      var cps := AcceptedIsText(c, data);
      TextIsAccepted(c, cps);
    }
    if cps :| Spells(data, cps) {
      TextIsAccepted(c, cps);
    }
  }

  // ----- UTF-16 -----

  function Utf16Kind(be: bool): Kind { if be then KindUtf16Be else KindUtf16Le }

  function UnitBytes(unit: nat, be: bool): seq<byte>
    requires unit < 0x10000
  {
    if be then [unit / 256, unit % 256] else [unit % 256, unit / 256]
  }

  /** The UTF-16 form of a scalar value: one unit, or a surrogate pair. */
  function Encode16(cp: nat, be: bool): seq<byte>
    requires IsScalar(cp)
  {
    if cp < 0x10000 then UnitBytes(cp, be)
    else UnitBytes(0xD800 + (cp - 0x10000) / 1024, be) + UnitBytes(0xDC00 + (cp - 0x10000) % 1024, be)
  }

  function Encode16All(cps: seq<nat>, be: bool): seq<byte>
    requires AllScalar(cps)
  {
    if cps == [] then [] else Encode16(cps[0], be) + Encode16All(cps[1..], be)
  }

  ghost predicate Spells16(data: seq<byte>, cps: seq<nat>, be: bool) {
    AllScalar(cps) && data == Encode16All(cps, be)
  }

  lemma Scalar16IsEaten(t: Tables, cp: nat, be: bool)
    requires t.Valid() && IsScalar(cp)
    ensures Eat(Utf16Kind(be), t, RESET, Encode16(cp, be)) == Fed(RESET, [cp])
  {
    hide Eat;
    var kind, b := Utf16Kind(be), Encode16(cp, be);
    var s1 := RESET.(leadByte := b[0]);
    if cp < 0x10000 {
      assert b == [b[0], b[1]];
      EatTwo(kind, t, RESET, b[0], s1, b[1], RESET, [cp]);
    } else {
      var high := 0xD800 + (cp - 0x10000) / 1024;
      var s2 := RESET.(leadSurrogate := high);
      assert b == [b[0], b[1], b[2], b[3]];
      EatFour(kind, t, RESET, b[0], s1, b[1], s2, b[2], s2.(leadByte := b[2]), b[3], RESET, [cp]);
    }
  }

  lemma {:induction false} Text16IsAccepted(c: Config, cps: seq<nat>, be: bool)
    requires c.Valid() && c.kind == Utf16Kind(be) && AllScalar(cps)
    ensures var r := Decode(c, START, Encode16All(cps, be), true); r.ok && r.out == EncodeAll(cps)
    decreases |cps|
  {
    hide Decode;
    hide DecoderStep;
    hide Encode;
    hide Encode16;
    if cps == [] {
      EmptyIsAccepted(c);
    } else {
      Scalar16IsEaten(c.tables, cps[0], be);
      EatenIsDecoded(c, RESET, Encode16(cps[0], be), Encode16All(cps[1..], be), true);
      Text16IsAccepted(c, cps[1..], be);
      assert EncodeAll([cps[0]]) == Encode(cps[0]) by { assert Encode(cps[0]) + [] == Encode(cps[0]); }
    }
  }

  function UnitAt(data: seq<byte>, be: bool): (unit: nat)
    requires |data| >= 2
    ensures unit < 0x10000 && UnitBytes(unit, be) == data[..2]
  {
    var high: int, low: int := if be then data[0] else data[1], if be then data[1] else data[0];
    high * 256 + low
  }

  /** An unfinished unit or pair at the end of the stream is an error. */
  lemma CutShort(c: Config, s: State)
    requires c.Valid() && c.kind in {KindUtf16Be, KindUtf16Le} && c.fatal && SurrogateState(s)
    requires s.leadByte >= 0 || s.leadSurrogate != 0
    ensures !Decode(c, Snapshot(s, []), [], true).ok
  {
    hide Decode;
    DecodeUnfolds(c, Snapshot(s, []), [], true);
  }

  lemma HalfUnit(c: Config, s: State, data: seq<byte>)
    requires c.Valid() && c.kind in {KindUtf16Be, KindUtf16Le} && SurrogateState(s) && s.leadByte < 0 && data != []
    ensures Decode(c, Snapshot(s, []), data, true).ok == Decode(c, Snapshot(s.(leadByte := data[0]), []), data[1..], true).ok
  {
    hide Decode;
    hide DecoderStep;
    hide StateOk;
    hide Reachable;
    hide Clean;
    hide EncodeAll;
    assert data == [data[0]] + data[1..];
    FirstByte(c, s, data[0]);
    CleanByte(c, s, data[0], data[1..], true);
  }

  /** The first byte of a unit is kept. */
  lemma FirstByte(c: Config, s: State, x: byte)
    requires c.Valid() && c.kind in {KindUtf16Be, KindUtf16Le} && SurrogateState(s) && s.leadByte < 0
    ensures StateOk(c.kind, s) && Reachable(c.kind, Snapshot(s, []))
    ensures var r := DecoderStep(c.kind, c.tables, s, x); r == Step(s.(leadByte := x), [], Continue) && Clean(r)
  {
    hide Utf16UnitStep;
  }

  /** What the second byte of a unit does. */
  lemma UnitStep(c: Config, s: State, x: byte, be: bool) returns (unit: nat)
    requires c.Valid() && c.kind == Utf16Kind(be) && SurrogateState(s) && s.leadByte >= 0
    ensures unit == UnitAt([s.leadByte, x], be)
    ensures var r := DecoderStep(c.kind, c.tables, s, x);
            r.outcome == Error
            || if s.leadSurrogate != 0 then 0xDC00 <= unit <= 0xDFFF
               else if 0xD800 <= unit <= 0xDBFF then r == Step(s.(leadByte := -1, leadSurrogate := unit), [], Continue)
               else IsScalar(unit)
  {
    unit := UnitAt([s.leadByte, x], be);
  }

  lemma WholeUnit(c: Config, s: State, data: seq<byte>, be: bool)
    requires c.Valid() && c.kind == Utf16Kind(be) && c.fatal && SurrogateState(s) && s.leadByte >= 0 && data != []
    requires Decode(c, Snapshot(s, []), data, true).ok
    ensures var unit := UnitAt([s.leadByte, data[0]], be);
            if s.leadSurrogate != 0 then 0xDC00 <= unit <= 0xDFFF
            else if 0xD800 <= unit <= 0xDBFF then
              Decode(c, Snapshot(s.(leadByte := -1, leadSurrogate := unit), []), data[1..], true).ok
            else IsScalar(unit)
  {
    hide Decode;
    hide DecoderStep;
    hide UnitAt;
    DecodeUnfolds(c, Snapshot(s, []), data, true);
    var unit := UnitStep(c, s, data[0], be);
  }

  /** Without an error, a whole unit comes next, and after a leading surrogate a trailing one. */
  lemma FirstUnit(c: Config, high: nat, data: seq<byte>, be: bool)
    requires c.Valid() && c.kind == Utf16Kind(be) && c.fatal && (high == 0 || 0xD800 <= high <= 0xDBFF)
    requires data != [] || high != 0
    requires Decode(c, Snapshot(RESET.(leadSurrogate := high), []), data, true).ok
    ensures |data| >= 2
    ensures var unit := UnitAt(data, be);
            if high != 0 then 0xDC00 <= unit <= 0xDFFF
            else if 0xD800 <= unit <= 0xDBFF then Decode(c, Snapshot(RESET.(leadSurrogate := unit), []), data[2..], true).ok
            else IsScalar(unit)
  {
    hide Decode;
    hide DecoderStep;
    hide UnitBytes;
    var s := RESET.(leadSurrogate := high);
    if data == [] { CutShort(c, s); }
    HalfUnit(c, s, data);
    var s1 := s.(leadByte := data[0]);
    if |data| == 1 { assert data[1..] == []; CutShort(c, s1); }
    assert UnitAt([s1.leadByte, data[1..][0]], be) == UnitAt(data, be);
    assert s1.(leadByte := -1) == s && data[1..][1..] == data[2..];
    WholeUnit(c, s1, data[1..], be);
  }

  /** Without an error, the next bytes are a unit, or a surrogate pair. */
  lemma FirstUnits(c: Config, data: seq<byte>, be: bool) returns (cp: nat, n: nat)
    requires c.Valid() && c.kind == Utf16Kind(be) && c.fatal && data != []
    requires Decode(c, START, data, true).ok
    ensures n <= |data| && 0 < n && IsScalar(cp) && data[..n] == Encode16(cp, be)
  {
    hide Decode;
    hide DecoderStep;
    FirstUnit(c, 0, data, be);
    var unit := UnitAt(data, be);
    cp, n := unit, 2;
    if 0xD800 <= unit <= 0xDBFF {
      FirstUnit(c, unit, data[2..], be);
      var low := UnitAt(data[2..], be);
      cp, n := 0x10000 + (unit - 0xD800) * 1024 + (low - 0xDC00), 4;
      assert data[..4] == data[..2] + data[2..][..2];
    }
  }

  lemma {:induction false} Accepted16IsText(c: Config, data: seq<byte>, be: bool) returns (cps: seq<nat>)
    requires c.Valid() && c.kind == Utf16Kind(be) && c.fatal
    requires Decode(c, START, data, true).ok
    ensures Spells16(data, cps, be)
    decreases |data|
  {
    hide Decode;
    hide DecoderStep;
    hide Encode16;
    if data == [] {
      cps := [];
    } else {
      var cp, n := FirstUnits(c, data, be);
      Scalar16IsEaten(c.tables, cp, be);
      assert data == data[..n] + data[n..];
      EatenIsDecoded(c, RESET, data[..n], data[n..], true);
      var more := Accepted16IsText(c, data[n..], be);
      cps := [cp] + more;
    }
  }

  /** A fatal UTF-16 decode succeeds on exactly the UTF-16 forms of scalar values, and writes
      those values; in particular on no odd number of bytes and no lone surrogate. */
  lemma Utf16AcceptsText(t: Tables, data: seq<byte>, be: bool)
    requires t.Valid()
    ensures var r := Decode(Config(Utf16Kind(be), t, true), START, data, true);
            && (r.ok <==> exists cps :: Spells16(data, cps, be))
            && forall cps :: Spells16(data, cps, be) ==> r.out == EncodeAll(cps)
  {
    hide Decode;
    var c := Config(Utf16Kind(be), t, true);
    if Decode(c, START, data, true).ok {
      var cps := Accepted16IsText(c, data, be);
      assert Spells16(data, cps, be);
    }
    forall cps | Spells16(data, cps, be)
      ensures Decode(c, START, data, true).ok && Decode(c, START, data, true).out == EncodeAll(cps)
    {
      Text16IsAccepted(c, cps, be);
    }
  }
}
