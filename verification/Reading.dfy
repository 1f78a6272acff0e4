/** Every byte of a decode, read in one look. */
module Reading {
  import opened Utf8
  import opened DecoderSpec
  import opened DecodeRun
  import opened Feed
  import opened FastPath

  // ----- UTF-8: characters, cut characters and stray bytes -----

  ghost predicate IsChar(bytes: seq<byte>) {
    exists cp: nat :: IsScalar(cp) && Encode(cp) == bytes
  }

  /** Some character starts with these bytes. */
  ghost predicate Begins(bytes: seq<byte>) {
    exists cp: nat :: IsScalar(cp) && bytes <= Encode(cp)
  }

  /** How many bytes at the front some character starts with, counted on from `n`. */
  ghost function Longest(data: seq<byte>, n: nat): (end: nat)
    requires n <= |data|
    ensures n <= end <= |data|
    ensures end == |data| || !Begins(data[..end + 1])
    ensures n == end || Begins(data[..end])
    decreases |data| - n
  {
    if n < |data| && Begins(data[..n + 1]) then Longest(data, n + 1) else n
  }

  // ----- the two-byte encodings: rows of cells -----

  predicate IsLead(kind: Kind, x: byte) {
    match kind
    case KindShiftJis => 0x81 <= x <= 0x9F || 0xE0 <= x <= 0xFC
    case KindEucJp => 0xA1 <= x <= 0xFE
    case KindIso2022Jp => 0x21 <= x <= 0x7E
    case _ => 0x81 <= x <= 0xFE
  }

  predicate IsTrail(kind: Kind, x: byte) {
    match kind
    case KindShiftJis => 0x40 <= x <= 0x7E || 0x80 <= x <= 0xFC
    case KindGb18030 => 0x40 <= x <= 0x7E || 0x80 <= x <= 0xFE
    case KindBig5 => 0x40 <= x <= 0x7E || 0xA1 <= x <= 0xFE
    case KindEucKr => 0x41 <= x <= 0xFE
    case KindEucJp => 0xA1 <= x <= 0xFE
    case _ => 0x21 <= x <= 0x7E
  }

  /** How many lead bytes, or trail bytes, come before `x`. */
  function Row(kind: Kind, x: nat): nat
    requires x <= 256
  {
    if x == 0 then 0 else Row(kind, x - 1) + (if IsLead(kind, x - 1) then 1 else 0)
  }

  function Cell(kind: Kind, x: nat): nat
    requires x <= 256
  {
    if x == 0 then 0 else Cell(kind, x - 1) + (if IsTrail(kind, x - 1) then 1 else 0)
  }

  /** The place of a pair when all pairs are listed in order. */
  function PairNumber(kind: Kind, lead: byte, trail: byte): nat {
    Row(kind, lead) * Cell(kind, 256) + Cell(kind, trail)
  }

  /** The code point as far after `there` as `x` is after `here`. */
  function Moved(x: nat, here: nat, there: nat): seq<nat>
    requires x >= here
  {
    [there + (x - here)]
  }

  function Mapped(table: seq<nat>, pointer: nat): seq<nat> {
    if pointer < |table| && table[pointer] != 0 then [table[pointer]] else []
  }

  /** What a pair of bytes stands for; nothing if it stands for nothing. */
  function PairText(kind: Kind, t: Tables, lead: byte, trail: byte): seq<nat> {
    if !IsLead(kind, lead) || !IsTrail(kind, trail) then []
    else
      var p := PairNumber(kind, lead, trail);
      match kind
      case KindGb18030 => Mapped(t.gb18030, p)
      case KindEucKr => Mapped(t.eucKr, p)
      case KindBig5 =>
        if lead == 0x88 && trail == 0x62 then [0xCA, 0x304]
        else if lead == 0x88 && trail == 0x64 then [0xCA, 0x30C]
        else if lead == 0x88 && trail == 0xA3 then [0xEA, 0x304]
        else if lead == 0x88 && trail == 0xA5 then [0xEA, 0x30C]
        else Mapped(t.big5, p)
      case KindShiftJis =>
        if 0xF0 <= lead <= 0xF9 then Moved(188 * lead + Cell(kind, trail), 188 * 0xF0, 0xE000)
        else Mapped(t.jis0208, p)
      case _ => Mapped(t.jis0208, p)
  }

  // ----- the first thing in the bytes -----

  /** The charset in force, and whether nothing was read since it was selected. */
  datatype Mode = Mode(charset: Iso, justSet: bool)

  const FIRST_MODE := Mode(IsoAscii, false)

  /** What stands at the front: how many bytes it takes, and its text unless it is malformed. */
  datatype Token = Token(length: nat, bad: bool, text: seq<nat>, mode: Mode)

  function Good(length: nat, text: seq<nat>): Token {
    Token(length, false, text, FIRST_MODE)
  }

  function Bad(length: nat): Token {
    Token(length, true, [], FIRST_MODE)
  }

  /** A malformed pair takes its second byte along unless that is ASCII. */
  function BadPair(data: seq<byte>): Token
    requires data != []
  {
    Bad(if |data| >= 2 && data[1] >= 0x80 then 2 else 1)
  }

  function Paired(kind: Kind, t: Tables, data: seq<byte>): Token
    requires data != []
  {
    var text := if |data| >= 2 then PairText(kind, t, data[0], data[1]) else [];
    if text != [] then Good(2, text) else BadPair(data)
  }

  ghost function Utf8Token(data: seq<byte>): Token
    requires data != []
  {
    var n := Longest(data, 0);
    if IsChar(data[..n]) then
      var cp: nat :| IsScalar(cp) && Encode(cp) == data[..n];
      Good(n, [cp])
    else Bad(if n == 0 then 1 else n)
  }

  function Unit(data: seq<byte>, be: bool): nat
    requires |data| >= 2
  {
    var first: nat, second: nat := data[0], data[1];
    if be then first * 256 + second else second * 256 + first
  }

  function Utf16Token(data: seq<byte>, be: bool): Token
    requires data != []
  {
    if |data| == 1 then Bad(1)
    else if 0xDC00 <= Unit(data, be) <= 0xDFFF then Bad(2)
    else if !(0xD800 <= Unit(data, be) <= 0xDBFF) then Good(2, [Unit(data, be)])
    else if |data| < 4 then Bad(|data|)
    else if 0xDC00 <= Unit(data[2..], be) <= 0xDFFF then
      Good(4, [0x10000 + (Unit(data, be) - 0xD800) * 0x400 + (Unit(data[2..], be) - 0xDC00)])
    else Bad(2)
  }

  predicate Digit(x: byte) { 0x30 <= x <= 0x39 }

  function Gb18030Token(t: Tables, data: seq<byte>): Token
    requires t.Valid() && data != []
  {
    if data[0] < 0x80 then Good(1, [data[0]])
    else if data[0] == 0x80 then Good(1, [0x20AC])
    else if data[0] == 0xFF then Bad(1)
    else if |data| == 1 || !Digit(data[1]) then Paired(KindGb18030, t, data)
    else if |data| == 2 then Bad(2)
    else if !IsLead(KindGb18030, data[2]) then Bad(1)
    else if |data| == 3 then Bad(3)
    else if !Digit(data[3]) then Bad(1)
    else
      var row0, digit1: nat := Row(KindGb18030, data[0]), data[1] - 0x30;
      var row2, digit3: nat := Row(KindGb18030, data[2]), data[3] - 0x30;
      var pointer := row0 * 12600 + digit1 * 1260 + row2 * 10 + digit3;
      var cp := RangesCodePoint(t.ranges, pointer);
      if cp != 0 && (pointer <= 39419 || 189000 <= pointer <= 1237575) then Good(4, [cp]) else Bad(4)
  }

  function EucJpToken(t: Tables, data: seq<byte>): Token
    requires data != []
  {
    if data[0] < 0x80 then Good(1, [data[0]])
    else if data[0] == 0x8E && |data| >= 2 && 0xA1 <= data[1] <= 0xDF then Good(2, Moved(data[1], 0xA1, 0xFF61))
    else if data[0] == 0x8F && |data| >= 2 && IsTrail(KindEucJp, data[1]) then
      var text := if |data| >= 3 && IsTrail(KindEucJp, data[2])
                  then Mapped(t.jis0212, PairNumber(KindEucJp, data[1], data[2])) else [];
      if text != [] then Good(3, text) else Bad(if |data| >= 3 && data[2] >= 0x80 then 3 else 2)
    else if data[0] == 0x8E || data[0] == 0x8F || IsLead(KindEucJp, data[0]) then Paired(KindEucJp, t, data)
    else Bad(1)
  }

  function ShiftJisToken(t: Tables, data: seq<byte>): Token
    requires data != []
  {
    if data[0] <= 0x80 then Good(1, [data[0]])
    else if 0xA1 <= data[0] <= 0xDF then Good(1, Moved(data[0], 0xA1, 0xFF61))
    else if IsLead(KindShiftJis, data[0]) then Paired(KindShiftJis, t, data)
    else Bad(1)
  }

  /** Big5 and EUC-KR. */
  function PlainToken(kind: Kind, t: Tables, data: seq<byte>): Token
    requires data != []
  {
    if data[0] < 0x80 then Good(1, [data[0]])
    else if IsLead(kind, data[0]) then Paired(kind, t, data)
    else Bad(1)
  }

  /** The charset an escape sequence at the front selects. */
  function Selected(data: seq<byte>): Iso {
    if [0x1B, 0x28, 0x42] <= data then IsoAscii
    else if [0x1B, 0x28, 0x4A] <= data then IsoRoman
    else if [0x1B, 0x28, 0x49] <= data then IsoKatakana
    else if [0x1B, 0x24, 0x40] <= data || [0x1B, 0x24, 0x42] <= data then IsoLead
    else IsoEscape
  }

  function IsoToken(t: Tables, m: Mode, data: seq<byte>): Token
    requires data != []
  {
    var x := data[0];
    var still := m.(justSet := false);
    if Selected(data) != IsoEscape then Token(3, m.justSet, [], Mode(Selected(data), true))
    else if x == 0x1B then Token(1, true, [], still)
    else if m.charset == IsoLead then
      if !IsLead(KindIso2022Jp, x) || |data| == 1 || data[1] == 0x1B then Token(1, true, [], still)
      else
        var text := PairText(KindIso2022Jp, t, x, data[1]);
        Token(2, text == [], text, still)
    else if m.charset == IsoKatakana then
      if 0x21 <= x <= 0x5F then Token(1, false, Moved(x, 0x21, 0xFF61), still) else Token(1, true, [], still)
    else if x >= 0x80 || x == 0x0E || x == 0x0F then Token(1, true, [], still)
    else if m.charset == IsoRoman && x == 0x5C then Token(1, false, [0xA5], still)
    else if m.charset == IsoRoman && x == 0x7E then Token(1, false, [0x203E], still)
    else Token(1, false, [x], still)
  }

  function SingleByteToken(t: Tables, data: seq<byte>): Token
    requires t.Valid() && data != []
  {
    if data[0] < 0x80 then Good(1, [data[0]])
    else
      var cp := t.single[data[0] - 0x80];
      if cp == SINGLE_UNMAPPED then Bad(1) else Good(1, [cp])
  }

  ghost function First(kind: Kind, t: Tables, m: Mode, data: seq<byte>): Token
    requires t.Valid() && data != []
  {
    match kind
    case KindUtf8 => Utf8Token(data)
    case KindUtf16Be => Utf16Token(data, true)
    case KindUtf16Le => Utf16Token(data, false)
    case KindSingleByte => SingleByteToken(t, data)
    case KindGb18030 => Gb18030Token(t, data)
    case KindBig5 => PlainToken(kind, t, data)
    case KindEucKr => PlainToken(kind, t, data)
    case KindEucJp => EucJpToken(t, data)
    case KindShiftJis => ShiftJisToken(t, data)
    case KindIso2022Jp => IsoToken(t, m, data)
    case KindReplacement => Bad(|data|)
    case KindXUserDefined => Good(1, if data[0] < 0x80 then [data[0]] else Moved(data[0], 0x80, 0xF780))
  }

  lemma TokenFits(kind: Kind, t: Tables, m: Mode, data: seq<byte>)
    requires t.Valid() && data != []
    ensures 1 <= First(kind, t, m, data).length <= |data|
  {
    hide PairText;
    hide PairNumber;
    hide RangesCodePoint;
    hide Selected;
    match kind {
      case KindUtf8 => Utf8TokenFits(data);
      case KindIso2022Jp => SelectedFits(data);
      case _ =>
    }
  }

  lemma SelectedFits(data: seq<byte>)
    ensures Selected(data) != IsoEscape ==> |data| >= 3
  {}

  lemma Utf8TokenFits(data: seq<byte>)
    requires data != []
    ensures 1 <= Utf8Token(data).length <= |data|
  {
    if IsChar(data[..Longest(data, 0)]) {
      var cp: nat :| IsScalar(cp) && Encode(cp) == data[..Longest(data, 0)];
    }
  }

  // ----- the whole input -----

  /** The text written and the verdict. */
  datatype Heard = Heard(text: seq<byte>, ok: bool) {
    function After(prefix: seq<byte>): Heard {
      this.(text := prefix + text)
    }
  }

  /** One token after the other: its text, or U+FFFD where it is malformed; a fatal decode
      ends there. */
  ghost function Reads(c: Config, m: Mode, data: seq<byte>): Heard
    requires c.Valid()
    decreases |data|
  {
    if data == [] then Heard([], true)
    else
      var k := First(c.kind, c.tables, m, data);
      TokenFits(c.kind, c.tables, m, data);
      if k.bad && c.fatal then Heard([], false)
      else Reads(c, k.mode, data[k.length..]).After(if k.bad then Encode(REPLACEMENT_CHARACTER) else EncodeAll(k.text))
  }

  /** What the decoder makes of the whole input. */
  function Hear(c: Config, s: State, data: seq<byte>): Heard
    requires c.Valid() && Reachable(c.kind, Snapshot(s, []))
  {
    var r := Decode(c, Snapshot(s, []), data, true);
    Heard(r.out, r.ok)
  }
}
