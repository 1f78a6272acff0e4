/** The decoder handlers as a transition function on decoder states. */
module DecoderSpec {
  import opened Utf8

  datatype Kind =
    | KindUtf8
    | KindSingleByte
    | KindGb18030
    | KindBig5
    | KindEucJp
    | KindIso2022Jp
    | KindShiftJis
    | KindEucKr
    | KindReplacement
    | KindUtf16Be
    | KindUtf16Le
    | KindXUserDefined

  datatype Range = Range(index: nat, codePoint: nat)

  /** The index tables, taken as arbitrary data. Entry 0 means "unmapped" in the
      multi-byte indexes; SINGLE_UNMAPPED does in the single-byte one. */
  datatype Tables = Tables(
    single: seq<nat>,
    jis0208: seq<nat>,
    jis0212: seq<nat>,
    eucKr: seq<nat>,
    gb18030: seq<nat>,
    big5: seq<nat>,
    ranges: seq<Range>,
    katakana: seq<nat>)
  {
    predicate Valid() {
      |single| == 128 && |ranges| > 0 && |katakana| == 63
    }
  }

  const SINGLE_UNMAPPED := 0x1FFFFF

  /** One input symbol: a byte, or EOS. */
  type Symbol = x: int | -1 <= x < 256
  const EOS: Symbol := -1

  datatype Iso = IsoAscii | IsoRoman | IsoKatakana | IsoLead | IsoTrail | IsoEscapeStart | IsoEscape

  datatype State = State(
    codePoint: nat,
    needed: nat,
    seen: nat,
    lower: byte,
    upper: byte,
    lead: byte,
    second: byte,
    third: byte,
    leadByte: Symbol,
    leadSurrogate: nat,
    jis0212: bool,
    output: bool,
    replaced: bool,
    iso: Iso,
    outputIso: Iso)

  const RESET := State(0, 0, 0, 0x80, 0xBF, 0, 0, 0, -1, 0, false, false, false, IsoAscii, IsoAscii)

  datatype Outcome = Continue | Error | Finished | Emit(cps: seq<nat>)

  /** A handler's effect: the new state, the bytes it prepends to the queue, its verdict. */
  datatype Step = Step(state: State, back: seq<byte>, outcome: Outcome)

  function IndexCodePoint(table: seq<nat>, pointer: nat): nat {
    if pointer >= |table| then 0 else table[pointer]
  }

  /** Position of the last range whose index is at most `pointer`, searched in [lo, hi). */
  function RangeByIndex(ranges: seq<Range>, pointer: nat, lo: nat, hi: nat): (r: nat)
    requires lo < hi <= |ranges|
    ensures lo <= r < hi
    decreases hi - lo
  {
    if hi - lo <= 1 then lo
    else
      var mid := lo + (hi - lo) / 2;
      if ranges[mid].index <= pointer then RangeByIndex(ranges, pointer, mid, hi)
      else RangeByIndex(ranges, pointer, lo, mid)
  }

  /** The four-byte code point for `pointer`; 0 when there is none. Subtraction wraps
      in 32 bits, as unsigned arithmetic does. */
  function RangesCodePoint(ranges: seq<Range>, pointer: nat): nat
    requires |ranges| > 0
  {
    if 39419 < pointer < 189000 || pointer > 1237575 then 0
    else if pointer == 7457 then 0xE7C7
    else
      var r := ranges[RangeByIndex(ranges, pointer, 0, |ranges|)];
      (r.codePoint + pointer - r.index) % 0x1_0000_0000
  }

  // ----- handlers, one per encoding kind -----

  function Utf8Step(s: State, x: Symbol): Step {
    if x == EOS then
      if s.needed == 0 then Step(s, [], Finished) else Step(RESET, [], Error)
    else if s.needed == 0 then
      if x <= 0x7F then Step(s, [], Emit([x]))
      else if 0xC2 <= x <= 0xDF then
        Step(s.(needed := 1, codePoint := x % 32), [], Continue)
      else if 0xE0 <= x <= 0xEF then
        Step(s.(needed := 2, codePoint := x % 16,
                lower := if x == 0xE0 then 0xA0 else s.lower,
                upper := if x == 0xED then 0x9F else s.upper), [], Continue)
      else if 0xF0 <= x <= 0xF4 then
        Step(s.(needed := 3, codePoint := x % 8,
                lower := if x == 0xF0 then 0x90 else s.lower,
                upper := if x == 0xF4 then 0x8F else s.upper), [], Continue)
      else Step(s, [], Error)
    else
      var idle := s.(codePoint := 0, needed := 0, seen := 0, lower := 0x80, upper := 0xBF);
      if x < s.lower || x > s.upper then Step(idle, [x], Error)
      else
        var cp := s.codePoint * 64 + x % 64;
        if s.seen + 1 != s.needed then
          Step(s.(codePoint := cp, seen := s.seen + 1, lower := 0x80, upper := 0xBF), [], Continue)
        else Step(idle, [], Emit([cp]))
  }

  function Utf16Step(s: State, x: Symbol, be: bool): Step
    requires SurrogateState(s)
  {
    if x == EOS then
      if s.leadByte < 0 && s.leadSurrogate == 0 then Step(s, [], Finished)
      else Step(s.(leadByte := -1, leadSurrogate := 0), [], Error)
    else if s.leadByte < 0 then Step(s.(leadByte := x), [], Continue)
    else Utf16UnitStep(s.(leadByte := -1), if be then s.leadByte * 256 + x else x * 256 + s.leadByte, be)
  }

  /** A whole unit, once its second byte is there. */
  function Utf16UnitStep(s: State, unit: nat, be: bool): Step
    requires SurrogateState(s) && unit < 0x10000
  {
    var clear := s.(leadSurrogate := 0);
    if s.leadSurrogate != 0 then
      if 0xDC00 <= unit <= 0xDFFF then
        Step(clear, [], Emit([0x10000 + (s.leadSurrogate - 0xD800) * 1024 + (unit - 0xDC00)]))
      else
        Step(clear, if be then [unit / 256, unit % 256] else [unit % 256, unit / 256], Error)
    else if 0xD800 <= unit <= 0xDBFF then Step(clear.(leadSurrogate := unit), [], Continue)
    else if 0xDC00 <= unit <= 0xDFFF then Step(clear, [], Error)
    else Step(clear, [], Emit([unit]))
  }

  function SingleByteStep(t: Tables, s: State, x: Symbol): Step
    requires t.Valid()
  {
    if x == EOS then Step(s, [], Finished)
    else if x < 0x80 then Step(s, [], Emit([x]))
    else if t.single[x - 0x80] == SINGLE_UNMAPPED then Step(s, [], Error)
    else Step(s, [], Emit([t.single[x - 0x80]]))
  }

  /** The pointer a gb18030 four-byte sequence spells. */
  function FourBytePointer(lead: byte, second: byte, third: byte, x: byte): int {
    (((lead - 0x81) * 10 + second - 0x30) * 126 + third - 0x81) * 10 + x - 0x30
  }

  function Gb18030Step(t: Tables, s: State, x: Symbol): Step
    requires t.Valid() && Gb18030State(s)
  {
    if x == EOS then
      if s.lead == 0 && s.second == 0 && s.third == 0 then Step(s, [], Finished)
      else Step(s.(lead := 0, second := 0, third := 0), [], Error)
    else if s.third != 0 then
      var clear := s.(lead := 0, second := 0, third := 0);
      if x < 0x30 || x > 0x39 then Step(clear, [s.second, s.third, x], Error)
      else
        var cp := RangesCodePoint(t.ranges, FourBytePointer(s.lead, s.second, s.third, x));
        if cp == 0 then Step(clear, [], Error) else Step(clear, [], Emit([cp]))
    else if s.second != 0 then
      if 0x81 <= x <= 0xFE then Step(s.(third := x), [], Continue)
      else Step(s.(lead := 0, second := 0), [s.second, x], Error)
    else if s.lead != 0 then
      if 0x30 <= x <= 0x39 then Step(s.(second := x), [], Continue)
      else
        var clear := s.(lead := 0);
        var cp := if 0x40 <= x <= 0x7E || 0x80 <= x <= 0xFE then
                    IndexCodePoint(t.gb18030, (s.lead - 0x81) * 190 + x - (if x < 0x7F then 0x40 else 0x41))
                  else 0;
        if cp != 0 then Step(clear, [], Emit([cp]))
        else Step(clear, if x < 0x80 then [x] else [], Error)
    else if x < 0x80 then Step(s, [], Emit([x]))
    else if x == 0x80 then Step(s, [], Emit([0x20AC]))
    else if x <= 0xFE then Step(s.(lead := x), [], Continue)
    else Step(s, [], Error)
  }

  /** The four Big5 pointers that decode to two code points. */
  function Big5Pair(pointer: nat): seq<nat> {
    if pointer == 1133 then [0x00CA, 0x0304]
    else if pointer == 1135 then [0x00CA, 0x030C]
    else if pointer == 1164 then [0x00EA, 0x0304]
    else if pointer == 1166 then [0x00EA, 0x030C]
    else []
  }

  function Big5Step(t: Tables, s: State, x: Symbol): Step
    requires LeadState(s)
  {
    if x == EOS then
      if s.lead == 0 then Step(s, [], Finished) else Step(s.(lead := 0), [], Error)
    else if s.lead != 0 then
      var clear := s.(lead := 0);
      var pointer := if 0x40 <= x <= 0x7E || 0xA1 <= x <= 0xFE then
                       (s.lead - 0x81) * 157 + x - (if x < 0x7F then 0x40 else 0x62)
                     else -1;
      if pointer >= 0 && Big5Pair(pointer) != [] then Step(clear, [], Emit(Big5Pair(pointer)))
      else if pointer >= 0 && IndexCodePoint(t.big5, pointer) != 0 then
        Step(clear, [], Emit([IndexCodePoint(t.big5, pointer)]))
      else Step(clear, if x < 0x80 then [x] else [], Error)
    else if x < 0x80 then Step(s, [], Emit([x]))
    else if 0x81 <= x <= 0xFE then Step(s.(lead := x), [], Continue)
    else Step(s, [], Error)
  }

  function EucJpStep(t: Tables, s: State, x: Symbol): Step {
    if x == EOS then
      if s.lead == 0 then Step(s, [], Finished)
      else Step(s.(lead := 0, jis0212 := false), [], Error)
    else if s.lead == 0x8E && 0xA1 <= x <= 0xDF then
      Step(s.(lead := 0), [], Emit([0xFF61 - 0xA1 + x]))
    else if s.lead == 0x8F && 0xA1 <= x <= 0xFE then
      Step(s.(jis0212 := true, lead := x), [], Continue)
    else if s.lead != 0 then
      var clear := s.(lead := 0, jis0212 := false);
      var cp := if 0xA1 <= s.lead <= 0xFE && 0xA1 <= x <= 0xFE then
                  IndexCodePoint(if s.jis0212 then t.jis0212 else t.jis0208, (s.lead - 0xA1) * 94 + x - 0xA1)
                else 0;
      if cp != 0 then Step(clear, [], Emit([cp]))
      else Step(clear, if x < 0x80 then [x] else [], Error)
    else if x < 0x80 then Step(s, [], Emit([x]))
    else if x == 0x8E || x == 0x8F || 0xA1 <= x <= 0xFE then Step(s.(lead := x), [], Continue)
    else Step(s, [], Error)
  }

  /** The charset selected by the escape sequence ESC lead x, if it is one. */
  function EscapeTarget(lead: byte, x: Symbol): Iso {
    if lead == 0x28 && x == 0x42 then IsoAscii
    else if lead == 0x28 && x == 0x4A then IsoRoman
    else if lead == 0x28 && x == 0x49 then IsoKatakana
    else if lead == 0x24 && (x == 0x40 || x == 0x42) then IsoLead
    else IsoEscape
  }

  function Iso2022JpEscape(s: State, x: Symbol): Step {
    var target := EscapeTarget(s.lead, x);
    if target != IsoEscape then
      Step(s.(lead := 0, iso := target, outputIso := target, output := true), [],
           if s.output then Error else Continue)
    else
      Step(s.(lead := 0, output := false, iso := s.outputIso),
           if x == EOS then [s.lead] else [s.lead, x], Error)
  }

  function Iso2022JpStep(t: Tables, s: State, x: Symbol): Step
    requires IsoState(s)
  {
    if s.iso == IsoEscapeStart then
      if x == 0x24 || x == 0x28 then Step(s.(lead := x, iso := IsoEscape), [], Continue)
      else Step(s.(output := false, iso := s.outputIso), if x == EOS then [] else [x], Error)
    else if s.iso == IsoEscape then Iso2022JpEscape(s, x)
    else if s.iso == IsoTrail then
      if x == 0x1B then Step(s.(iso := IsoEscapeStart), [], Error)
      else
        var next := s.(iso := IsoLead);
        if x < 0x21 || x > 0x7E then Step(next, [], Error)
        else
          var cp := IndexCodePoint(t.jis0208, (s.lead - 0x21) * 94 + x - 0x21);
          if cp == 0 then Step(next, [], Error) else Step(next, [], Emit([cp]))
    else if x == 0x1B then Step(s.(iso := IsoEscapeStart), [], Continue)
    else if x == EOS then Step(s, [], Finished)
    else
      var next := s.(output := false);
      if s.iso == IsoRoman then
        if x == 0x5C then Step(next, [], Emit([0xA5]))
        else if x == 0x7E then Step(next, [], Emit([0x203E]))
        else if x <= 0x7F && x != 0x0E && x != 0x0F then Step(next, [], Emit([x]))
        else Step(next, [], Error)
      else if s.iso == IsoKatakana then
        if x < 0x21 || x > 0x5F then Step(next, [], Error)
        else Step(next, [], Emit([0xFF61 - 0x21 + x]))
      else if s.iso == IsoLead then
        if x < 0x21 || x > 0x7E then Step(next, [], Error)
        else Step(next.(lead := x, iso := IsoTrail), [], Continue)
      else
        if x > 0x7F || x == 0x0E || x == 0x0F then Step(next, [], Error)
        else Step(next, [], Emit([x]))
  }

  function ShiftJisStep(t: Tables, s: State, x: Symbol): Step
    requires ShiftJisState(s)
  {
    if x == EOS then
      if s.lead == 0 then Step(s, [], Finished) else Step(s.(lead := 0), [], Error)
    else if s.lead != 0 then
      var clear := s.(lead := 0);
      var pointer := if 0x40 <= x <= 0x7E || 0x80 <= x <= 0xFC then
                       (s.lead - (if s.lead < 0xA0 then 0x81 else 0xC1)) * 188 + x - (if x < 0x7F then 0x40 else 0x41)
                     else -1;
      if 8836 <= pointer <= 10715 then Step(clear, [], Emit([0xE000 - 8836 + pointer]))
      else if pointer >= 0 && IndexCodePoint(t.jis0208, pointer) != 0 then
        Step(clear, [], Emit([IndexCodePoint(t.jis0208, pointer)]))
      else Step(clear, if x < 0x80 then [x] else [], Error)
    else if x <= 0x80 then Step(s, [], Emit([x]))
    else if 0xA1 <= x <= 0xDF then Step(s, [], Emit([0xFF61 - 0xA1 + x]))
    else if 0x81 <= x <= 0x9F || 0xE0 <= x <= 0xFC then Step(s.(lead := x), [], Continue)
    else Step(s, [], Error)
  }

  function EucKrStep(t: Tables, s: State, x: Symbol): Step
    requires LeadState(s)
  {
    if x == EOS then
      if s.lead == 0 then Step(s, [], Finished) else Step(s.(lead := 0), [], Error)
    else if s.lead != 0 then
      var clear := s.(lead := 0);
      var cp := if 0x41 <= x <= 0xFE then IndexCodePoint(t.eucKr, (s.lead - 0x81) * 190 + x - 0x41) else 0;
      if cp != 0 then Step(clear, [], Emit([cp]))
      else Step(clear, if x < 0x80 then [x] else [], Error)
    else if x < 0x80 then Step(s, [], Emit([x]))
    else if 0x81 <= x <= 0xFE then Step(s.(lead := x), [], Continue)
    else Step(s, [], Error)
  }

  function ReplacementStep(s: State, x: Symbol): Step {
    if x == EOS || s.replaced then Step(s, [], Finished)
    else Step(s.(replaced := true), [], Error)
  }

  function XUserDefinedStep(s: State, x: Symbol): Step {
    if x == EOS then Step(s, [], Finished)
    else Step(s, [], Emit([if x < 0x80 then x else 0xF780 + x - 0x80]))
  }

  // ----- what a decoder is holding between bytes -----

  predicate Gb18030State(s: State) {
    && (s.lead == 0 || 0x81 <= s.lead <= 0xFE)
    && (s.second == 0 || (0x30 <= s.second <= 0x39 && s.lead != 0))
    && (s.third == 0 || (0x81 <= s.third <= 0xFE && s.second != 0))
  }

  predicate LeadState(s: State) {
    s.lead == 0 || 0x81 <= s.lead <= 0xFE
  }

  predicate ShiftJisState(s: State) {
    s.lead == 0 || 0x81 <= s.lead <= 0x9F || 0xE0 <= s.lead <= 0xFC
  }

  predicate SurrogateState(s: State) {
    s.leadSurrogate == 0 || 0xD800 <= s.leadSurrogate <= 0xDBFF
  }

  predicate IsoState(s: State) {
    && s.outputIso in {IsoAscii, IsoRoman, IsoKatakana, IsoLead}
    && (s.iso == IsoEscape ==> s.lead == 0x24 || s.lead == 0x28)
    && (s.iso == IsoTrail ==> 0x21 <= s.lead <= 0x7E)
  }

  /** The states a decoder of each kind can be in. */
  predicate StateOk(kind: Kind, s: State) {
    match kind
    case KindUtf8 =>
      && s.needed <= 3
      && (if s.needed == 0 then s.seen == 0 && s.codePoint == 0 && s.lower == 0x80 && s.upper == 0xBF
          else s.seen < s.needed)
    case KindGb18030 => Gb18030State(s)
    case KindBig5 => LeadState(s)
    case KindEucKr => LeadState(s)
    case KindShiftJis => ShiftJisState(s)
    case KindEucJp =>
      && (s.lead == 0 || s.lead == 0x8E || s.lead == 0x8F || 0xA1 <= s.lead <= 0xFE)
      && (s.jis0212 ==> 0xA1 <= s.lead <= 0xFE)
    case KindIso2022Jp => IsoState(s)
    case KindUtf16Be => SurrogateState(s)
    case KindUtf16Le => SurrogateState(s)
    case _ => true
  }

  /** Input bytes consumed into the state but not yet answered for. */
  function Held(kind: Kind, s: State): nat {
    match kind
    case KindUtf8 => if s.needed == 0 then 0 else 1 + s.seen
    case KindGb18030 =>
      (if s.lead != 0 then 1 else 0) + (if s.second != 0 then 1 else 0) + (if s.third != 0 then 1 else 0)
    case KindBig5 => if s.lead != 0 then 1 else 0
    case KindEucKr => if s.lead != 0 then 1 else 0
    case KindShiftJis => if s.lead != 0 then 1 else 0
    case KindEucJp => (if s.lead != 0 then 1 else 0) + (if s.jis0212 then 1 else 0)
    case KindIso2022Jp =>
      (match s.iso case IsoTrail => 1 case IsoEscapeStart => 1 case IsoEscape => 2 case _ => 0)
    case KindUtf16Be => (if s.leadByte >= 0 then 1 else 0) + (if s.leadSurrogate != 0 then 2 else 0)
    case KindUtf16Le => (if s.leadByte >= 0 then 1 else 0) + (if s.leadSurrogate != 0 then 2 else 0)
    case _ => 0
  }

  /** Dispatch to the handler of the encoding kind. */
  function DecoderStep(kind: Kind, t: Tables, s: State, x: Symbol): (r: Step)
    requires t.Valid() && StateOk(kind, s)
  {
    match kind
    case KindUtf8 => Utf8Step(s, x)
    case KindSingleByte => SingleByteStep(t, s, x)
    case KindGb18030 => Gb18030Step(t, s, x)
    case KindBig5 => Big5Step(t, s, x)
    case KindEucJp => EucJpStep(t, s, x)
    case KindIso2022Jp => Iso2022JpStep(t, s, x)
    case KindShiftJis => ShiftJisStep(t, s, x)
    case KindEucKr => EucKrStep(t, s, x)
    case KindUtf16Be => Utf16Step(s, x, true)
    case KindUtf16Le => Utf16Step(s, x, false)
    case KindReplacement => ReplacementStep(s, x)
    case KindXUserDefined => XUserDefinedStep(s, x)
  }

  /** What every step does to the bytes in flight. A byte that is read is answered for,
      held, or pushed back; a step that pushes anything back answers for at least one
      byte; at end of stream a step either finishes or answers for a held byte. */
  predicate Accounts(kind: Kind, s: State, x: Symbol, r: Step) {
    && StateOk(kind, r.state)
    && (kind == KindReplacement ==> r.back == [])
    && Held(kind, r.state) + |r.back| <= 3
    && if x == EOS then
         r.outcome == Finished || Held(kind, r.state) + |r.back| < Held(kind, s)
       else
         && Held(kind, r.state) + |r.back| <= Held(kind, s) + 1
         && (r.back != [] ==> Held(kind, r.state) + |r.back| <= Held(kind, s))
  }

  lemma Utf8Accounts(s: State, x: Symbol)
    requires StateOk(KindUtf8, s)
    ensures Accounts(KindUtf8, s, x, Utf8Step(s, x))
  {}

  lemma Gb18030Accounts(t: Tables, s: State, x: Symbol)
    requires t.Valid() && StateOk(KindGb18030, s)
    ensures Accounts(KindGb18030, s, x, Gb18030Step(t, s, x))
  {
    hide IndexCodePoint;
    hide RangesCodePoint;
    hide FourBytePointer;
  }

  lemma IsoEscapeAccounts(s: State, x: Symbol)
    requires StateOk(KindIso2022Jp, s) && s.iso == IsoEscape
    ensures Accounts(KindIso2022Jp, s, x, Iso2022JpEscape(s, x))
  {}

  lemma Iso2022JpAccounts(t: Tables, s: State, x: Symbol)
    requires StateOk(KindIso2022Jp, s)
    ensures Accounts(KindIso2022Jp, s, x, Iso2022JpStep(t, s, x))
  {
    hide IndexCodePoint;
    hide Iso2022JpEscape;
    if s.iso == IsoEscape {
      hide Accounts;
      IsoEscapeAccounts(s, x);
    }
  }

  lemma EucJpAccounts(t: Tables, s: State, x: Symbol)
    requires StateOk(KindEucJp, s)
    ensures Accounts(KindEucJp, s, x, EucJpStep(t, s, x))
  {}

  lemma ShiftJisAccounts(t: Tables, s: State, x: Symbol)
    requires StateOk(KindShiftJis, s)
    ensures Accounts(KindShiftJis, s, x, ShiftJisStep(t, s, x))
  {}

  lemma Big5Accounts(t: Tables, s: State, x: Symbol)
    requires StateOk(KindBig5, s)
    ensures Accounts(KindBig5, s, x, Big5Step(t, s, x))
  {}

  lemma EucKrAccounts(t: Tables, s: State, x: Symbol)
    requires StateOk(KindEucKr, s)
    ensures Accounts(KindEucKr, s, x, EucKrStep(t, s, x))
  {}

  lemma Utf16Accounts(s: State, x: Symbol, be: bool)
    requires SurrogateState(s)
    ensures Accounts(if be then KindUtf16Be else KindUtf16Le, s, x, Utf16Step(s, x, be))
  {}

  lemma StepAccounts(kind: Kind, t: Tables, s: State, x: Symbol)
    requires t.Valid() && StateOk(kind, s)
    ensures Accounts(kind, s, x, DecoderStep(kind, t, s, x))
  {
    match kind
    case KindUtf8 => Utf8Accounts(s, x);
    case KindSingleByte =>
    case KindGb18030 => Gb18030Accounts(t, s, x);
    case KindBig5 => Big5Accounts(t, s, x);
    case KindEucJp => EucJpAccounts(t, s, x);
    case KindIso2022Jp => Iso2022JpAccounts(t, s, x);
    case KindShiftJis => ShiftJisAccounts(t, s, x);
    case KindEucKr => EucKrAccounts(t, s, x);
    case KindUtf16Be => Utf16Accounts(s, x, true);
    case KindUtf16Le => Utf16Accounts(s, x, false);
    case KindReplacement =>
    case KindXUserDefined =>
  }
}
