/** The legacy encodings as a decoder reads them, broken or not. */
module LegacyReading {
  import opened Utf8
  import opened DecoderSpec
  import opened DecodeRun
  import opened Feed
  import opened Reading
  import opened Utf8Reading

  /** The decoder between two tokens. */
  predicate Settled(kind: Kind, s: State, m: Mode) {
    if kind == KindIso2022Jp then
      m.charset in {IsoAscii, IsoRoman, IsoKatakana, IsoLead}
      && s.iso == s.outputIso == m.charset && s.output == m.justSet
    else s == RESET
  }

  /** The decoder reads the token in front of the data, and goes on from `last`. */
  ghost predicate Takes(c: Config, s: State, data: seq<byte>, k: Token, last: State)
    requires c.Valid() && Reachable(c.kind, Snapshot(s, []))
  {
    && k.length <= |data| && Reachable(c.kind, Snapshot(last, []))
    && Hear(c, s, data) == if k.bad then AfterError(c, last, data[k.length..])
                           else Hear(c, last, data[k.length..]).After(EncodeAll(k.text))
  }

  // ----- tokens byte by byte -----

  predicate Ahead(c: Config, s: State, data: seq<byte>, p: nat, middle: State)
    requires c.Valid() && Reachable(c.kind, Snapshot(s, []))
  {
    p <= |data| && StateOk(c.kind, middle) && Eat(c.kind, c.tables, s, data[..p]) == Fed(middle, [])
  }

  lemma AtFront(c: Config, s: State, data: seq<byte>)
    requires c.Valid() && Reachable(c.kind, Snapshot(s, []))
    ensures Ahead(c, s, data, 0, s)
  {}

  lemma GoesAhead(c: Config, s: State, data: seq<byte>, p: nat, middle: State, next: State)
    requires c.Valid() && Reachable(c.kind, Snapshot(s, [])) && p < |data| && Ahead(c, s, data, p, middle)
    requires DecoderStep(c.kind, c.tables, middle, data[p]) == Step(next, [], Continue)
    ensures Ahead(c, s, data, p + 1, next)
  {
    hide DecoderStep;
    hide Eat;
    EatMore(c.kind, c.tables, middle, data[p], next, []);
    NothingLeft(c, next);
    assert data[..p + 1] == data[..p] + [data[p]] && [data[p]] + [] == [data[p]];
    EatConcat(c.kind, c.tables, s, data[..p], [data[p]]);
  }

  lemma NothingLeft(c: Config, s: State)
    requires c.Valid() && StateOk(c.kind, s)
    ensures Eat(c.kind, c.tables, s, []) == Fed(s, [])
  {}

  /** The token ends well. */
  lemma Ends(c: Config, s: State, data: seq<byte>, p: nat, middle: State, text: seq<nat>, last: State, k: Token)
    requires c.Valid() && Reachable(c.kind, Snapshot(s, [])) && p < |data| && Ahead(c, s, data, p, middle)
    requires DecoderStep(c.kind, c.tables, middle, data[p]) == Step(last, [], Emit(text))
    requires k.length == p + 1 && !k.bad && k.text == text
    ensures Takes(c, s, data, k, last)
  {
    hide DecoderStep;
    hide Eat;
    hide Hear;
    EatOne(c.kind, c.tables, middle, data[p], last, text);
    assert data[..p + 1] == data[..p] + [data[p]] && [] + text == text;
    EatConcat(c.kind, c.tables, s, data[..p], [data[p]]);
    GoodIsRead(c, s, data, p + 1, text, last);
  }

  /** The token is malformed. */
  lemma Breaks(c: Config, s: State, data: seq<byte>, p: nat, middle: State, last: State, k: Token)
    requires c.Valid() && Reachable(c.kind, Snapshot(s, [])) && Ahead(c, s, data, p, middle)
    requires k.bad && k.length <= Least(p + 1, |data|)
    requires DecoderStep(c.kind, c.tables, middle, SymbolAt(data, p)) == Step(last, data[k.length..Least(p + 1, |data|)], Error)
    ensures Takes(c, s, data, k, last)
  {
    hide Eat;
    hide Hear;
    hide AfterError;
    BadIsRead(c, s, data, p, k.length, middle, last);
  }

  // ----- rows and cells in closed form -----

  lemma {:induction false} Rows(kind: Kind, x: nat)
    requires x <= 256
    ensures Row(kind, x) ==
            match kind
            case KindShiftJis =>
              if x <= 0x81 then 0 else if x <= 0xA0 then x - 0x81 else if x <= 0xE0 then 0x1F
              else if x <= 0xFD then x - 0xC1 else 60
            case KindEucJp => if x <= 0xA1 then 0 else if x <= 0xFF then x - 0xA1 else 94
            case KindIso2022Jp => if x <= 0x21 then 0 else if x <= 0x7F then x - 0x21 else 94
            case _ => if x <= 0x81 then 0 else if x <= 0xFF then x - 0x81 else 126
  {
    if x > 0 { Rows(kind, x - 1); }
  }

  lemma {:induction false} Cells(kind: Kind, x: nat)
    requires x <= 256
    ensures Cell(kind, x) ==
            match kind
            case KindShiftJis =>
              if x <= 0x40 then 0 else if x <= 0x7F then x - 0x40 else if x <= 0x80 then 63
              else if x <= 0xFD then x - 0x41 else 188
            case KindGb18030 =>
              if x <= 0x40 then 0 else if x <= 0x7F then x - 0x40 else if x <= 0x80 then 63
              else if x <= 0xFF then x - 0x41 else 190
            case KindBig5 =>
              if x <= 0x40 then 0 else if x <= 0x7F then x - 0x40 else if x <= 0xA1 then 63
              else if x <= 0xFF then x - 0x62 else 157
            case KindEucKr => if x <= 0x41 then 0 else if x <= 0xFF then x - 0x41 else 190
            case KindEucJp => if x <= 0xA1 then 0 else if x <= 0xFF then x - 0xA1 else 94
            case _ => if x <= 0x21 then 0 else if x <= 0x7F then x - 0x21 else 94
  {
    if x > 0 { Cells(kind, x - 1); }
  }

  // ----- the pairs -----

  /** The trail byte of a pair, in the state its lead byte left. */
  lemma Big5Trail(t: Tables, lead: byte, x: Symbol)
    requires t.Valid() && 0x81 <= lead <= 0xFE
    ensures Big5Step(t, RESET.(lead := lead), x) ==
            if x != EOS && PairText(KindBig5, t, lead, x) != [] then Step(RESET, [], Emit(PairText(KindBig5, t, lead, x)))
            else Step(RESET, if 0 <= x < 0x80 then [x] else [], Error)
  {
    hide PairNumber;
    if x != EOS && IsTrail(KindBig5, x) { Big5Number(lead, x); }
  }

  lemma Big5Number(lead: byte, x: byte)
    requires 0x81 <= lead <= 0xFE && IsTrail(KindBig5, x)
    ensures PairNumber(KindBig5, lead, x) == (lead - 0x81) * 157 + x - (if x < 0x7F then 0x40 else 0x62)
  {
    Rows(KindBig5, lead);
    Cells(KindBig5, x);
    Cells(KindBig5, 256);
  }

  lemma EucKrTrail(t: Tables, lead: byte, x: Symbol)
    requires t.Valid() && 0x81 <= lead <= 0xFE
    ensures EucKrStep(t, RESET.(lead := lead), x) ==
            if x != EOS && PairText(KindEucKr, t, lead, x) != [] then Step(RESET, [], Emit(PairText(KindEucKr, t, lead, x)))
            else Step(RESET, if 0 <= x < 0x80 then [x] else [], Error)
  {
    if x != EOS { Rows(KindEucKr, lead); Cells(KindEucKr, x); Cells(KindEucKr, 256); }
  }

  lemma ShiftJisTrail(t: Tables, lead: byte, x: Symbol)
    requires t.Valid() && IsLead(KindShiftJis, lead)
    ensures ShiftJisStep(t, RESET.(lead := lead), x) ==
            if x != EOS && PairText(KindShiftJis, t, lead, x) != [] then Step(RESET, [], Emit(PairText(KindShiftJis, t, lead, x)))
            else Step(RESET, if 0 <= x < 0x80 then [x] else [], Error)
  {
    hide PairNumber;
    if x != EOS && IsTrail(KindShiftJis, x) {
      ShiftJisNumber(lead, x);
      Cells(KindShiftJis, x);
    }
  }

  lemma ShiftJisNumber(lead: byte, x: byte)
    requires IsLead(KindShiftJis, lead) && IsTrail(KindShiftJis, x)
    ensures PairNumber(KindShiftJis, lead, x)
            == (lead - (if lead < 0xA0 then 0x81 else 0xC1)) * 188 + x - (if x < 0x7F then 0x40 else 0x41)
  {
    Rows(KindShiftJis, lead);
    Cells(KindShiftJis, x);
    Cells(KindShiftJis, 256);
  }

  lemma Gb18030Trail(t: Tables, lead: byte, x: Symbol)
    requires t.Valid() && 0x81 <= lead <= 0xFE && !(0x30 <= x <= 0x39)
    ensures Gb18030Step(t, RESET.(lead := lead), x) ==
            if x != EOS && PairText(KindGb18030, t, lead, x) != [] then Step(RESET, [], Emit(PairText(KindGb18030, t, lead, x)))
            else Step(RESET, if 0 <= x < 0x80 then [x] else [], Error)
  {
    hide PairNumber;
    if x != EOS && IsTrail(KindGb18030, x) { Gb18030Number(lead, x); }
  }

  lemma Gb18030Number(lead: byte, x: byte)
    requires 0x81 <= lead <= 0xFE && IsTrail(KindGb18030, x)
    ensures PairNumber(KindGb18030, lead, x) == (lead - 0x81) * 190 + x - (if x < 0x7F then 0x40 else 0x41)
  {
    Rows(KindGb18030, lead);
    Cells(KindGb18030, x);
    Cells(KindGb18030, 256);
  }

  /** In EUC-JP the lead byte may also be one of the two prefixes. */
  lemma EucJpTrail(t: Tables, lead: byte, x: Symbol)
    requires t.Valid() && (lead == 0x8E || lead == 0x8F || 0xA1 <= lead <= 0xFE)
    requires lead == 0x8E ==> !(0xA1 <= x <= 0xDF)
    requires lead == 0x8F ==> !(0xA1 <= x <= 0xFE)
    ensures EucJpStep(t, RESET.(lead := lead), x) ==
            if x != EOS && PairText(KindEucJp, t, lead, x) != [] then Step(RESET, [], Emit(PairText(KindEucJp, t, lead, x)))
            else Step(RESET, if 0 <= x < 0x80 then [x] else [], Error)
  {
    if x != EOS { Rows(KindEucJp, lead); Cells(KindEucJp, x); Cells(KindEucJp, 256); }
  }

  /** The third byte, after a JIS X 0212 lead byte. */
  lemma EucJpThird(t: Tables, lead: byte, x: Symbol)
    requires t.Valid() && 0xA1 <= lead <= 0xFE
    ensures var text := if x != EOS && IsTrail(KindEucJp, x) then Mapped(t.jis0212, PairNumber(KindEucJp, lead, x)) else [];
            EucJpStep(t, RESET.(jis0212 := true, lead := lead), x) ==
            if text != [] then Step(RESET, [], Emit(text)) else Step(RESET, if 0 <= x < 0x80 then [x] else [], Error)
  {
    if x != EOS { Rows(KindEucJp, lead); Cells(KindEucJp, x); Cells(KindEucJp, 256); }
  }

  /** A pair whose trail byte does what these lemmas say. */
  lemma PairIsRead(c: Config, data: seq<byte>)
    requires c.Valid() && data != [] && StateOk(c.kind, RESET) && Reachable(c.kind, Snapshot(RESET, []))
    requires StateOk(c.kind, RESET.(lead := data[0]))
    requires DecoderStep(c.kind, c.tables, RESET, data[0]) == Step(RESET.(lead := data[0]), [], Continue)
    requires var x := SymbolAt(data, 1);
             DecoderStep(c.kind, c.tables, RESET.(lead := data[0]), x) ==
             if x != EOS && PairText(c.kind, c.tables, data[0], x) != []
             then Step(RESET, [], Emit(PairText(c.kind, c.tables, data[0], x)))
             else Step(RESET, if 0 <= x < 0x80 then [x] else [], Error)
    ensures Takes(c, RESET, data, Paired(c.kind, c.tables, data), RESET)
  {
    hide DecoderStep;
    hide Eat;
    hide Takes;
    hide PairText;
    hide Ahead;
    var k, middle := Paired(c.kind, c.tables, data), RESET.(lead := data[0]);
    AtFront(c, RESET, data);
    GoesAhead(c, RESET, data, 0, RESET, middle);
    if k.bad {
      assert data[k.length..Least(2, |data|)] == if |data| >= 2 && data[1] < 0x80 then [data[1]] else [];
      Breaks(c, RESET, data, 1, middle, RESET, k);
    } else {
      Ends(c, RESET, data, 1, middle, k.text, RESET, k);
    }
  }

  /** One byte that is a token. */
  lemma ByteIsRead(c: Config, s: State, data: seq<byte>, last: State, k: Token)
    requires c.Valid() && data != [] && StateOk(c.kind, s) && Reachable(c.kind, Snapshot(s, []))
    requires DecoderStep(c.kind, c.tables, s, data[0]) == Step(last, [], if k.bad then Error else Emit(k.text))
    requires k.length == 1
    ensures Takes(c, s, data, k, last)
  {
    hide DecoderStep;
    hide Eat;
    hide Takes;
    hide Ahead;
    AtFront(c, s, data);
    if k.bad { Breaks(c, s, data, 0, s, last, k); } else { Ends(c, s, data, 0, s, k.text, last, k); }
  }

  lemma PlainTokenIsRead(c: Config, data: seq<byte>)
    requires c.Valid() && c.kind in {KindBig5, KindEucKr} && data != []
    ensures Takes(c, RESET, data, PlainToken(c.kind, c.tables, data), RESET)
  {
    hide Takes;
    hide PairText;
    if 0x81 <= data[0] <= 0xFE {
      if c.kind == KindBig5 { Big5Trail(c.tables, data[0], SymbolAt(data, 1)); }
      else { EucKrTrail(c.tables, data[0], SymbolAt(data, 1)); }
      PairIsRead(c, data);
    } else {
      ByteIsRead(c, RESET, data, RESET, PlainToken(c.kind, c.tables, data));
    }
  }

  lemma ShiftJisTokenIsRead(c: Config, data: seq<byte>)
    requires c.Valid() && c.kind == KindShiftJis && data != []
    ensures Takes(c, RESET, data, ShiftJisToken(c.tables, data), RESET)
  {
    hide Takes;
    hide PairText;
    if IsLead(KindShiftJis, data[0]) {
      ShiftJisTrail(c.tables, data[0], SymbolAt(data, 1));
      PairIsRead(c, data);
    } else {
      ByteIsRead(c, RESET, data, RESET, ShiftJisToken(c.tables, data));
    }
  }

  lemma SingleTokenIsRead(c: Config, data: seq<byte>)
    requires c.Valid() && c.kind in {KindSingleByte, KindXUserDefined} && data != []
    ensures Takes(c, RESET, data, First(c.kind, c.tables, FIRST_MODE, data), RESET)
  {
    hide Takes;
    ByteIsRead(c, RESET, data, RESET, First(c.kind, c.tables, FIRST_MODE, data));
  }

  // ----- EUC-JP -----

  lemma EucJpThreeAreRead(c: Config, data: seq<byte>)
    requires c.Valid() && c.kind == KindEucJp && |data| >= 2 && data[0] == 0x8F && 0xA1 <= data[1] <= 0xFE
    ensures Takes(c, RESET, data, EucJpToken(c.tables, data), RESET)
  {
    hide Eat;
    hide Takes;
    hide Ahead;
    hide PairNumber;
    var k := EucJpToken(c.tables, data);
    var one, two := RESET.(lead := 0x8F), RESET.(jis0212 := true, lead := data[1]);
    AtFront(c, RESET, data);
    GoesAhead(c, RESET, data, 0, RESET, one);
    GoesAhead(c, RESET, data, 1, one, two);
    EucJpThird(c.tables, data[1], SymbolAt(data, 2));
    if k.bad {
      assert data[k.length..Least(3, |data|)] == if |data| >= 3 && data[2] < 0x80 then [data[2]] else [];
      Breaks(c, RESET, data, 2, two, RESET, k);
    } else {
      Ends(c, RESET, data, 2, two, k.text, RESET, k);
    }
  }

  lemma HalfWidthIsRead(c: Config, data: seq<byte>)
    requires c.Valid() && c.kind == KindEucJp && |data| >= 2 && data[0] == 0x8E && 0xA1 <= data[1] <= 0xDF
    ensures Takes(c, RESET, data, EucJpToken(c.tables, data), RESET)
  {
    hide Eat;
    hide Takes;
    hide Ahead;
    var k, one := EucJpToken(c.tables, data), RESET.(lead := 0x8E);
    AtFront(c, RESET, data);
    GoesAhead(c, RESET, data, 0, RESET, one);
    Ends(c, RESET, data, 1, one, k.text, RESET, k);
  }

  lemma EucJpTokenIsRead(c: Config, data: seq<byte>)
    requires c.Valid() && c.kind == KindEucJp && data != []
    ensures Takes(c, RESET, data, EucJpToken(c.tables, data), RESET)
  {
    hide Takes;
    hide PairText;
    if |data| >= 2 && data[0] == 0x8F && 0xA1 <= data[1] <= 0xFE {
      EucJpThreeAreRead(c, data);
    } else if |data| >= 2 && data[0] == 0x8E && 0xA1 <= data[1] <= 0xDF {
      HalfWidthIsRead(c, data);
    } else if data[0] == 0x8E || data[0] == 0x8F || 0xA1 <= data[0] <= 0xFE {
      EucJpTrail(c.tables, data[0], SymbolAt(data, 1));
      PairIsRead(c, data);
    } else {
      ByteIsRead(c, RESET, data, RESET, EucJpToken(c.tables, data));
    }
  }

  // ----- gb18030 -----

  /** What the byte after a lead, a digit and a lead does. */
  lemma Gb18030Fourth(t: Tables, b0: byte, b1: byte, b2: byte, x: Symbol)
    requires t.Valid() && 0x81 <= b0 <= 0xFE && 0x30 <= b1 <= 0x39 && 0x81 <= b2 <= 0xFE
    ensures Gb18030State(RESET.(lead := b0, second := b1, third := b2))
    ensures var r := Gb18030Step(t, RESET.(lead := b0, second := b1, third := b2), x);
            if x == EOS then r == Step(RESET, [], Error)
            else if !Digit(x) then r == Step(RESET, [b1, b2, x], Error)
            else
              var row0, digit1: nat := Row(KindGb18030, b0), b1 - 0x30;
              var row2, digit3: nat := Row(KindGb18030, b2), x - 0x30;
              var pointer := row0 * 12600 + digit1 * 1260 + row2 * 10 + digit3;
              var cp := RangesCodePoint(t.ranges, pointer);
              r == if cp != 0 && (pointer <= 39419 || 189000 <= pointer <= 1237575) then Step(RESET, [], Emit([cp]))
                   else Step(RESET, [], Error)
  {
    hide RangesCodePoint;
    Rows(KindGb18030, b0);
    Rows(KindGb18030, b2);
    if x != EOS && Digit(x) { OutsideRanges(t, FourBytePointer(b0, b1, b2, x)); }
  }

  lemma OutsideRanges(t: Tables, pointer: nat)
    requires t.Valid()
    ensures RangesCodePoint(t.ranges, pointer) != 0 ==> pointer <= 39419 || 189000 <= pointer <= 1237575
  {}

  /** The states after one, two and three bytes of a four-byte form. */
  lemma Gb18030Ahead(c: Config, data: seq<byte>, p: nat) returns (middle: State)
    requires c.Valid() && c.kind == KindGb18030 && 2 <= p <= 3 && p <= |data|
    requires 0x81 <= data[0] <= 0xFE && Digit(data[1]) && (p == 3 ==> 0x81 <= data[2] <= 0xFE)
    ensures middle == RESET.(lead := data[0], second := data[1], third := if p == 3 then data[2] else 0)
    ensures StateOk(KindGb18030, middle) && Ahead(c, RESET, data, p, middle)
  {
    hide Eat;
    hide Ahead;
    hide RangesCodePoint;
    var one := RESET.(lead := data[0]);
    var two := one.(second := data[1]);
    AtFront(c, RESET, data);
    GoesAhead(c, RESET, data, 0, RESET, one);
    GoesAhead(c, RESET, data, 1, one, two);
    middle := two;
    if p == 3 {
      middle := two.(third := data[2]);
      GoesAhead(c, RESET, data, 2, two, middle);
    }
  }

  lemma Gb18030LongIsRead(c: Config, data: seq<byte>)
    requires c.Valid() && c.kind == KindGb18030 && |data| >= 2 && 0x81 <= data[0] <= 0xFE && Digit(data[1])
    ensures Takes(c, RESET, data, Gb18030Token(c.tables, data), RESET)
  {
    hide Eat;
    hide Takes;
    hide Ahead;
    hide RangesCodePoint;
    hide DecoderStep;
    var k := Gb18030Token(c.tables, data);
    if |data| == 2 || !IsLead(KindGb18030, data[2]) {
      Gb18030ThirdMissing(c, data, k);
    } else {
      Gb18030ThirdThere(c, data, k);
    }
  }

  /** The code point of a four-byte form, 0 for none. */
  function FourBytesText(t: Tables, b0: byte, b1: byte, b2: byte, b3: byte): nat
    requires t.Valid() && Digit(b1) && Digit(b3)
  {
    var row0, digit1: nat := Row(KindGb18030, b0), b1 - 0x30;
    var row2, digit3: nat := Row(KindGb18030, b2), b3 - 0x30;
    var pointer := row0 * 12600 + digit1 * 1260 + row2 * 10 + digit3;
    if pointer <= 39419 || 189000 <= pointer <= 1237575 then RangesCodePoint(t.ranges, pointer) else 0
  }

  lemma FourBytesToken(t: Tables, data: seq<byte>)
    requires t.Valid() && |data| >= 3 && 0x81 <= data[0] <= 0xFE && Digit(data[1]) && 0x81 <= data[2] <= 0xFE
    ensures Gb18030Token(t, data) ==
            if |data| == 3 then Bad(3)
            else if !Digit(data[3]) then Bad(1)
            else
              var cp := FourBytesText(t, data[0], data[1], data[2], data[3]);
              if cp != 0 then Good(4, [cp]) else Bad(4)
  {
    hide RangesCodePoint;
    hide Row;
  }

  lemma FourthStep(t: Tables, b0: byte, b1: byte, b2: byte, x: Symbol)
    requires t.Valid() && 0x81 <= b0 <= 0xFE && Digit(b1) && 0x81 <= b2 <= 0xFE
    ensures var s := RESET.(lead := b0, second := b1, third := b2);
            && StateOk(KindGb18030, s)
            && DecoderStep(KindGb18030, t, s, x) ==
               if x == EOS then Step(RESET, [], Error)
               else if !Digit(x) then Step(RESET, [b1, b2, x], Error)
               else
                 var cp := FourBytesText(t, b0, b1, b2, x);
                 if cp != 0 then Step(RESET, [], Emit([cp])) else Step(RESET, [], Error)
  {
    hide RangesCodePoint;
    hide Gb18030Step;
    Gb18030Fourth(t, b0, b1, b2, x);
  }

  lemma Gb18030ThirdThere(c: Config, data: seq<byte>, k: Token)
    requires c.Valid() && c.kind == KindGb18030 && |data| >= 3 && 0x81 <= data[0] <= 0xFE && Digit(data[1])
    requires 0x81 <= data[2] <= 0xFE && k == Gb18030Token(c.tables, data)
    ensures Takes(c, RESET, data, k, RESET)
  {
    hide Eat;
    hide Takes;
    hide Ahead;
    hide FourBytesText;
    hide Gb18030Token;
    hide DecoderStep;
    var middle := Gb18030Ahead(c, data, 3);
    FourthStep(c.tables, data[0], data[1], data[2], SymbolAt(data, 3));
    FourBytesToken(c.tables, data);
    if k.bad {
      ThirdOn(data, k.length);
      Breaks(c, RESET, data, 3, middle, RESET, k);
    } else {
      Ends(c, RESET, data, 3, middle, k.text, RESET, k);
    }
  }

  lemma ThirdOn(data: seq<byte>, n: nat)
    requires |data| >= 3 && (n == 1 ==> |data| >= 4) && (n == 1 || n == Least(4, |data|))
    ensures data[n..Least(4, |data|)] == if n == 1 then [data[1], data[2], data[3]] else []
  {}

  lemma Gb18030ThirdMissing(c: Config, data: seq<byte>, k: Token)
    requires c.Valid() && c.kind == KindGb18030 && |data| >= 2 && 0x81 <= data[0] <= 0xFE && Digit(data[1])
    requires |data| == 2 || !(0x81 <= data[2] <= 0xFE)
    requires k.bad && k.length == if |data| == 2 then 2 else 1
    ensures Takes(c, RESET, data, k, RESET)
  {
    hide Eat;
    hide Takes;
    hide Ahead;
    hide DecoderStep;
    var middle := Gb18030Ahead(c, data, 2);
    Gb18030Third(c.tables, middle, SymbolAt(data, 2));
    assert data[k.length..Least(3, |data|)] == if |data| == 2 then [] else [data[1], data[2]];
    Breaks(c, RESET, data, 2, middle, RESET, k);
  }

  lemma Gb18030Third(t: Tables, s: State, x: Symbol)
    requires t.Valid() && StateOk(KindGb18030, s) && s.second != 0 && s.third == 0 && !(0x81 <= x <= 0xFE)
    requires s == RESET.(lead := s.lead, second := s.second)
    ensures DecoderStep(KindGb18030, t, s, x) == Step(RESET, if x == EOS then [] else [s.second, x], Error)
  {}

  lemma Gb18030TokenIsRead(c: Config, data: seq<byte>)
    requires c.Valid() && c.kind == KindGb18030 && data != []
    ensures Takes(c, RESET, data, Gb18030Token(c.tables, data), RESET)
  {
    hide Takes;
    hide PairText;
    hide RangesCodePoint;
    if !(0x81 <= data[0] <= 0xFE) {
      ByteIsRead(c, RESET, data, RESET, Gb18030Token(c.tables, data));
    } else if |data| >= 2 && Digit(data[1]) {
      Gb18030LongIsRead(c, data);
    } else {
      Gb18030Trail(c.tables, data[0], SymbolAt(data, 1));
      PairIsRead(c, data);
    }
  }

  // ----- UTF-16 -----

  lemma Utf16Whole(s: State, data: seq<byte>, be: bool)
    requires SurrogateState(s) && |data| >= 2 && s.leadByte == data[0]
    ensures Utf16Step(s, data[1], be) == Utf16UnitStep(s.(leadByte := -1), Unit(data, be), be)
  {}

  lemma Utf16FirstIsRead(c: Config, data: seq<byte>, be: bool) returns (one: State)
    requires c.Valid() && c.kind == (if be then KindUtf16Be else KindUtf16Le) && data != []
    ensures one == RESET.(leadByte := data[0])
    ensures SurrogateState(one) && Ahead(c, RESET, data, 1, one)
  {
    hide Eat;
    hide Ahead;
    hide Utf16UnitStep;
    one := RESET.(leadByte := data[0]);
    AtFront(c, RESET, data);
    GoesAhead(c, RESET, data, 0, RESET, one);
  }

  lemma Utf16TokenIsRead(c: Config, data: seq<byte>, be: bool)
    requires c.Valid() && c.kind == (if be then KindUtf16Be else KindUtf16Le) && data != []
    ensures Takes(c, RESET, data, Utf16Token(data, be), RESET)
  {
    hide Eat;
    hide Takes;
    hide Ahead;
    var k := Utf16Token(data, be);
    var one := Utf16FirstIsRead(c, data, be);
    if |data| == 1 {
      Breaks(c, RESET, data, 1, one, RESET, k);
    } else if 0xD800 <= Unit(data, be) <= 0xDBFF {
      Utf16PairIsRead(c, data, be, one);
    } else {
      Utf16Whole(one, data, be);
      if k.bad {
        assert data[2..Least(2, |data|)] == [];
        Breaks(c, RESET, data, 1, one, RESET, k);
      } else {
        Ends(c, RESET, data, 1, one, k.text, RESET, k);
      }
    }
  }

  lemma Utf16PairIsRead(c: Config, data: seq<byte>, be: bool, one: State)
    requires c.Valid() && c.kind == (if be then KindUtf16Be else KindUtf16Le) && |data| >= 2
    requires 0xD800 <= Unit(data, be) <= 0xDBFF
    requires one == RESET.(leadByte := data[0]) && Ahead(c, RESET, data, 1, one)
    ensures Takes(c, RESET, data, Utf16Token(data, be), RESET)
  {
    hide Eat;
    hide Takes;
    hide Ahead;
    var k := Utf16Token(data, be);
    var two := RESET.(leadSurrogate := Unit(data, be));
    Utf16Whole(one, data, be);
    GoesAhead(c, RESET, data, 1, one, two);
    if |data| == 2 {
      Breaks(c, RESET, data, 2, two, RESET, k);
    } else {
      var three := two.(leadByte := data[2]);
      GoesAhead(c, RESET, data, 2, two, three);
      if |data| == 3 {
        Breaks(c, RESET, data, 3, three, RESET, k);
      } else {
        Utf16Whole(three, data[2..], be);
        UnitIsItsBytes(data[2..], be);
        if k.bad {
          assert data[2..4] == [data[2], data[3]];
          Breaks(c, RESET, data, 3, three, RESET, k);
        } else {
          Ends(c, RESET, data, 3, three, k.text, RESET, k);
        }
      }
    }
  }

  lemma UnitIsItsBytes(data: seq<byte>, be: bool)
    requires |data| >= 2
    ensures var u := Unit(data, be);
            u < 0x10000 && (if be then [u / 256, u % 256] else [u % 256, u / 256]) == [data[0], data[1]]
  {}

  // ----- ISO-2022-JP -----

  /** A token of no text. */
  lemma Passes(c: Config, s: State, data: seq<byte>, k: Token, last: State)
    requires c.Valid() && StateOk(c.kind, s) && Reachable(c.kind, Snapshot(s, []))
    requires Ahead(c, s, data, k.length, last) && !k.bad && k.text == []
    ensures Takes(c, s, data, k, last)
  {
    hide Eat;
    hide Hear;
    GoodIsRead(c, s, data, k.length, [], last);
  }

  lemma SettledIsReachable(s: State, m: Mode)
    requires Settled(KindIso2022Jp, s, m)
    ensures IsoState(s) && StateOk(KindIso2022Jp, s) && Reachable(KindIso2022Jp, Snapshot(s, []))
  {}

  predicate IsSelector(x: Symbol) { x == 0x24 || x == 0x28 }

  /** The bytes of an escape sequence, one by one. */
  lemma EscapeSteps(t: Tables, s: State, m: Mode, x1: Symbol, x2: Symbol) returns (one: State, two: State)
    requires t.Valid() && Settled(KindIso2022Jp, s, m)
    ensures StateOk(KindIso2022Jp, s) && StateOk(KindIso2022Jp, one)
    ensures DecoderStep(KindIso2022Jp, t, s, 0x1B) == Step(one, [], Continue)
    ensures if IsSelector(x1) then
              && StateOk(KindIso2022Jp, two)
              && DecoderStep(KindIso2022Jp, t, one, x1) == Step(two, [], Continue)
              && DecoderStep(KindIso2022Jp, t, two, x2) == Iso2022JpEscape(two, x2)
              && two == s.(lead := x1, iso := IsoEscape)
            else
              DecoderStep(KindIso2022Jp, t, one, x1) == Step(s.(output := false), if x1 == EOS then [] else [x1], Error)
  {
    hide Iso2022JpEscape;
    one := s.(iso := IsoEscapeStart);
    two := if IsSelector(x1) then s.(lead := x1, iso := IsoEscape) else s;
  }

  lemma SelectedIsTarget(data: seq<byte>)
    requires data != [] && data[0] == 0x1B
    ensures Selected(data) ==
            if |data| >= 3 && IsSelector(data[1]) then EscapeTarget(data[1], data[2]) else IsoEscape
  {}

  lemma NoEscapeYet(x: Symbol, lead: byte)
    requires x == EOS
    ensures EscapeTarget(lead, x) == IsoEscape
  {}

  lemma EscapeIsRead(c: Config, s: State, m: Mode, data: seq<byte>) returns (last: State)
    requires c.Valid() && c.kind == KindIso2022Jp && Settled(c.kind, s, m) && data != [] && data[0] == 0x1B
    ensures Reachable(c.kind, Snapshot(s, []))
    ensures var k := IsoToken(c.tables, m, data); Settled(c.kind, last, k.mode) && Takes(c, s, data, k, last)
  {
    hide Eat;
    hide Takes;
    hide Ahead;
    hide DecoderStep;
    hide Selected;
    hide EscapeTarget;
    hide IsoToken;
    SettledIsReachable(s, m);
    var one, two := EscapeSteps(c.tables, s, m, SymbolAt(data, 1), SymbolAt(data, 2));
    AtFront(c, s, data);
    GoesAhead(c, s, data, 0, s, one);
    EscapeToken(c.tables, m, data);
    if |data| >= 2 && IsSelector(data[1]) {
      GoesAhead(c, s, data, 1, one, two);
      last := SelectorIsRead(c, s, m, data, two);
    } else {
      last := s.(output := false);
      SecondOn(data);
      Breaks(c, s, data, 1, one, last, IsoToken(c.tables, m, data));
    }
  }

  /** The token that starts with an escape character. */
  lemma EscapeToken(t: Tables, m: Mode, data: seq<byte>)
    requires data != [] && data[0] == 0x1B
    ensures IsoToken(t, m, data) ==
            if |data| >= 3 && IsSelector(data[1]) && EscapeTarget(data[1], data[2]) != IsoEscape then
              Token(3, m.justSet, [], Mode(EscapeTarget(data[1], data[2]), true))
            else Token(1, true, [], m.(justSet := false))
  {
    hide Selected;
    SelectedIsTarget(data);
  }

  /** What is read again when the first byte alone is given up. */
  lemma SecondOn(data: seq<byte>)
    requires data != []
    ensures data[1..Least(2, |data|)] == if |data| == 1 then [] else [data[1]]
    ensures |data| >= 2 ==> data[1..Least(3, |data|)] == if |data| == 2 then [data[1]] else [data[1], data[2]]
  {}

  lemma SelectorIsRead(c: Config, s: State, m: Mode, data: seq<byte>, two: State) returns (last: State)
    requires c.Valid() && c.kind == KindIso2022Jp && Settled(c.kind, s, m) && |data| >= 2 && data[0] == 0x1B && IsSelector(data[1])
    requires Reachable(c.kind, Snapshot(s, [])) && Ahead(c, s, data, 2, two) && two == s.(lead := data[1], iso := IsoEscape)
    requires DecoderStep(c.kind, c.tables, two, SymbolAt(data, 2)) == Iso2022JpEscape(two, SymbolAt(data, 2))
    ensures var k := IsoToken(c.tables, m, data); Settled(c.kind, last, k.mode) && Takes(c, s, data, k, last)
  {
    hide Eat;
    hide Takes;
    hide Ahead;
    hide DecoderStep;
    hide EscapeTarget;
    hide IsoToken;
    SettledIsReachable(s, m);
    var k, x2 := IsoToken(c.tables, m, data), SymbolAt(data, 2);
    EscapeToken(c.tables, m, data);
    if |data| == 2 { NoEscapeYet(x2, data[1]); }
    last := Iso2022JpEscape(two, x2).state;
    if EscapeTarget(data[1], x2) == IsoEscape {
      SecondOn(data);
      Breaks(c, s, data, 2, two, last, k);
    } else {
      TargetIsCharset(data[1], x2);
      if m.justSet {
        Breaks(c, s, data, 2, two, last, k);
      } else {
        GoesAhead(c, s, data, 2, two, last);
        Passes(c, s, data, k, last);
      }
    }
  }

  lemma TargetIsCharset(lead: byte, x: Symbol)
    ensures EscapeTarget(lead, x) in {IsoEscape, IsoAscii, IsoRoman, IsoKatakana, IsoLead}
  {}

  /** The second byte of a pair. */
  lemma IsoTrailStep(t: Tables, s: State, x: Symbol)
    requires t.Valid() && IsoState(s) && s.iso == IsoTrail
    ensures Iso2022JpStep(t, s, x) ==
            if x == 0x1B then Step(s.(iso := IsoEscapeStart), [], Error)
            else if x == EOS || PairText(KindIso2022Jp, t, s.lead, x) == [] then Step(s.(iso := IsoLead), [], Error)
            else Step(s.(iso := IsoLead), [], Emit(PairText(KindIso2022Jp, t, s.lead, x)))
  {
    if x != EOS { Rows(KindIso2022Jp, s.lead); Cells(KindIso2022Jp, x); Cells(KindIso2022Jp, 256); }
  }

  lemma LeadStep(t: Tables, s: State, m: Mode, x: byte) returns (one: State)
    requires t.Valid() && Settled(KindIso2022Jp, s, m) && m.charset == IsoLead && IsLead(KindIso2022Jp, x)
    ensures IsoState(s) && StateOk(KindIso2022Jp, s) && StateOk(KindIso2022Jp, one)
    ensures one == s.(output := false, lead := x, iso := IsoTrail)
    ensures DecoderStep(KindIso2022Jp, t, s, x) == Step(one, [], Continue)
  {
    one := s.(output := false, lead := x, iso := IsoTrail);
  }

  /** An escape character where a trail byte was due starts an escape sequence of its own. */
  lemma CutByEscape(c: Config, s: State, m: Mode, data: seq<byte>, one: State) returns (last: State)
    requires c.Valid() && c.kind == KindIso2022Jp && Settled(c.kind, s, m) && m.charset == IsoLead
    requires |data| >= 2 && IsLead(KindIso2022Jp, data[0]) && data[1] == 0x1B
    requires one == s.(output := false, lead := data[0], iso := IsoTrail)
    requires Reachable(c.kind, Snapshot(s, [])) && Ahead(c, s, data, 1, one)
    ensures var k := IsoToken(c.tables, m, data); Settled(c.kind, last, k.mode) && Takes(c, s, data, k, last)
  {
    hide Eat;
    hide Ahead;
    hide DecoderStep;
    hide Hear;
    IsoTrailStep(c.tables, one, 0x1B);
    IsoDispatch(c.tables, one, 0x1B);
    last := one.(iso := IsoLead);
    var inEscape := one.(iso := IsoEscapeStart);
    Breaks(c, s, data, 1, one, inEscape, Bad(2));
    SettledIsReachable(last, Mode(IsoLead, false));
    var next, two := EscapeSteps(c.tables, last, Mode(IsoLead, false), EOS, EOS);
    EscapeStarts(c.tables, last, next);
    AtFront(c, last, data[1..]);
    GoesAhead(c, last, data[1..], 0, last, inEscape);
    Passes(c, last, data[1..], Good(1, []), inEscape);
    NothingEncodes();
    assert data[1..][1..] == data[2..];
    var rest := Hear(c, inEscape, data[2..]);
    assert [] + rest.text == rest.text;
  }

  lemma EscapeStarts(t: Tables, s: State, next: State)
    requires t.Valid() && StateOk(KindIso2022Jp, s) && s.iso == IsoLead
    requires DecoderStep(KindIso2022Jp, t, s, 0x1B) == Step(next, [], Continue)
    ensures next == s.(iso := IsoEscapeStart)
  {}

  lemma IsoDispatch(t: Tables, s: State, x: Symbol)
    requires t.Valid() && StateOk(KindIso2022Jp, s)
    ensures DecoderStep(KindIso2022Jp, t, s, x) == Iso2022JpStep(t, s, x)
  {}

  lemma IsoPairIsRead(c: Config, s: State, m: Mode, data: seq<byte>) returns (last: State)
    requires c.Valid() && c.kind == KindIso2022Jp && Settled(c.kind, s, m) && m.charset == IsoLead
    requires data != [] && IsLead(KindIso2022Jp, data[0])
    ensures Reachable(c.kind, Snapshot(s, []))
    ensures var k := IsoToken(c.tables, m, data); Settled(c.kind, last, k.mode) && Takes(c, s, data, k, last)
  {
    hide Eat;
    hide Takes;
    hide Ahead;
    hide DecoderStep;
    hide PairText;
    SettledIsReachable(s, m);
    var k := IsoToken(c.tables, m, data);
    var one := LeadStep(c.tables, s, m, data[0]);
    AtFront(c, s, data);
    GoesAhead(c, s, data, 0, s, one);
    if |data| >= 2 && data[1] == 0x1B {
      last := CutByEscape(c, s, m, data, one);
    } else {
      IsoTrailStep(c.tables, one, SymbolAt(data, 1));
      IsoDispatch(c.tables, one, SymbolAt(data, 1));
      last := one.(iso := IsoLead);
      if k.bad {
        assert data[k.length..Least(2, |data|)] == [];
        Breaks(c, s, data, 1, one, last, k);
      } else {
        Ends(c, s, data, 1, one, k.text, last, k);
      }
    }
  }

  /** One byte on its own, in any charset. */
  lemma IsoByteStep(t: Tables, s: State, m: Mode, data: seq<byte>) returns (last: State)
    requires t.Valid() && Settled(KindIso2022Jp, s, m) && data != [] && data[0] != 0x1B
    requires !(m.charset == IsoLead && IsLead(KindIso2022Jp, data[0]))
    ensures IsoState(s)
    ensures var k := IsoToken(t, m, data);
            && Settled(KindIso2022Jp, last, k.mode) && k.length == 1
            && Iso2022JpStep(t, s, data[0]) == Step(last, [], if k.bad then Error else Emit(k.text))
  {
    last := s.(output := false);
  }

  lemma IsoTokenIsRead(c: Config, s: State, m: Mode, data: seq<byte>) returns (last: State)
    requires c.Valid() && c.kind == KindIso2022Jp && Settled(c.kind, s, m) && data != []
    ensures Reachable(c.kind, Snapshot(s, []))
    ensures var k := IsoToken(c.tables, m, data); Settled(c.kind, last, k.mode) && Takes(c, s, data, k, last)
  {
    hide Takes;
    hide IsoToken;
    hide Iso2022JpStep;
    if data[0] == 0x1B {
      last := EscapeIsRead(c, s, m, data);
    } else if m.charset == IsoLead && IsLead(KindIso2022Jp, data[0]) {
      last := IsoPairIsRead(c, s, m, data);
    } else {
      SettledIsReachable(s, m);
      last := IsoByteStep(c.tables, s, m, data);
      IsoDispatch(c.tables, s, data[0]);
      ByteIsRead(c, s, data, last, IsoToken(c.tables, m, data));
    }
  }
}
