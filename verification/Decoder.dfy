/** The streaming decoder as it runs: fields, a push-back queue, a fast path. */
module Decoder {
  import opened Utf8
  import opened DecoderSpec
  import opened DecodeRun
  import opened FastPath

  const STEP_CONTINUE := 0
  const STEP_ERROR := -1
  const STEP_FINISHED := -2

  /** What a handler's return value and output array mean. */
  function Meaning(r: int, cps: seq<nat>): Outcome {
    if r > 0 then Emit(cps)
    else if r == STEP_ERROR then Error
    else if r == STEP_FINISHED then Finished
    else Continue
  }

  class StreamDecoder {
    const kind: Kind
    const tables: Tables
    const fatal: bool
    const pending: array<byte>
    var npending: nat
    var codePoint: nat
    var needed: nat
    var seen: nat
    var lower: byte
    var upper: byte
    var lead: byte
    var second: byte
    var third: byte
    var leadByte: Symbol
    var leadSurrogate: nat
    var jis0212: bool
    var output: bool
    var replaced: bool
    var iso: Iso
    var outputIso: Iso

    ghost predicate Valid() reads this, pending {
      && tables.Valid()
      && pending.Length == 8
      && npending <= 8
      && StateOk(kind, Fields())
    }

    /** Between symbols. While a handler runs, the byte it works on is not counted. */
    ghost predicate Ready() reads this, pending {
      Valid() && Reachable(kind, View())
    }

    function Fields(): State reads this {
      State(codePoint, needed, seen, lower, upper, lead, second, third, leadByte,
            leadSurrogate, jis0212, output, replaced, iso, outputIso)
    }

    ghost function Queue(): seq<byte>
      reads this, pending
      requires npending <= pending.Length
    {
      pending[..npending]
    }

    ghost function View(): Snapshot
      reads this, pending
      requires npending <= pending.Length
    {
      Snapshot(Fields(), Queue())
    }

    ghost function Settings(): Config { Config(kind, tables, fatal) }

    constructor (kind: Kind, tables: Tables, fatal: bool)
      requires tables.Valid()
      ensures Ready() && fresh(pending) && View() == START
      ensures Settings() == Config(kind, tables, fatal)
    {
      this.kind, this.tables, this.fatal := kind, tables, fatal;
      pending := new byte[8];
      npending := 0;
      codePoint, needed, seen := 0, 0, 0;
      lower, upper := 0x80, 0xBF;
      lead, second, third := 0, 0, 0;
      leadByte, leadSurrogate := -1, 0;
      jis0212, output, replaced := false, false, false;
      iso, outputIso := IsoAscii, IsoAscii;
    }

    method Reset()
      modifies this
      ensures npending == 0 && Fields() == RESET
    {
      npending := 0;
      ResetUnicode();
      ResetLegacy();
    }

    method ResetUnicode()
      modifies `codePoint, `needed, `seen, `lower, `upper, `leadByte, `leadSurrogate
      ensures codePoint == needed == seen == leadSurrogate == 0
      ensures lower == 0x80 && upper == 0xBF && leadByte == -1
    {
      codePoint, needed, seen := 0, 0, 0;
      lower, upper := 0x80, 0xBF;
      leadByte, leadSurrogate := -1, 0;
    }

    method ResetLegacy()
      modifies `lead, `second, `third, `jis0212, `output, `replaced, `iso, `outputIso
      ensures lead == second == third == 0 && !jis0212 && !output && !replaced
      ensures iso == outputIso == IsoAscii
    {
      lead, second, third := 0, 0, 0;
      jis0212, output, replaced := false, false, false;
      iso, outputIso := IsoAscii, IsoAscii;
    }

    /** Bytes put back in front of the queue; all of them dropped when they do not fit. */
    method Prepend(bytes: seq<byte>)
      requires pending.Length == 8 && npending <= 8
      modifies `npending, pending
      ensures npending <= 8
      ensures Queue() == if old(npending) + |bytes| > 8 then old(Queue()) else bytes + old(Queue())
    {
      var n := |bytes|;
      if npending + n > pending.Length { return; }
      forall i | 0 <= i < npending { pending[n + i] := pending[i]; }
      assert forall i :: 0 <= i < npending ==> pending[n + i] == old(pending[i]);
      forall i | 0 <= i < n { pending[i] := bytes[i]; }
      assert forall i :: 0 <= i < npending ==> pending[n + i] == old(pending[i]);
      npending := npending + n;
      forall k | 0 <= k < npending ensures pending[..npending][k] == (bytes + old(Queue()))[k] {}
    }

    method PrependByte(x: Symbol)
      requires pending.Length == 8 && npending <= 8
      modifies `npending, pending
      ensures npending <= 8
      ensures Queue() == if x == EOS || old(npending) == 8 then old(Queue()) else [x] + old(Queue())
    {
      if x == EOS { return; }
      Prepend([x]);
    }

    /** memmove of the queue down by one. */
    method PopPending() returns (b: byte)
      requires pending.Length == 8 && 0 < npending <= 8
      modifies `npending, pending
      ensures npending <= 8
      ensures b == old(Queue())[0] && Queue() == old(Queue())[1..]
    {
      b := pending[0];
      npending := npending - 1;
      forall i | 0 <= i < npending { pending[i] := pending[i + 1]; }
    }

    /** The first byte of a character. */
    method Utf8Lead(x: Symbol) returns (r: int, cps: seq<nat>)
      requires Valid() && kind == KindUtf8 && x != EOS && needed == 0
      modifies `codePoint, `needed, `lower, `upper
      ensures Step(Fields(), [], Meaning(r, cps)) == Utf8Step(old(Fields()), x)
    {
      if x <= 0x7F { return 1, [x]; }
      if 0xC2 <= x <= 0xDF {
        needed := 1;
        codePoint := x % 32;
      } else if 0xE0 <= x <= 0xEF {
        if x == 0xE0 { lower := 0xA0; }
        if x == 0xED { upper := 0x9F; }
        needed := 2;
        codePoint := x % 16;
      } else if 0xF0 <= x <= 0xF4 {
        if x == 0xF0 { lower := 0x90; }
        if x == 0xF4 { upper := 0x8F; }
        needed := 3;
        codePoint := x % 8;
      } else {
        return STEP_ERROR, [];
      }
      return STEP_CONTINUE, [];
    }

    method Utf8Handler(x: Symbol) returns (r: int, cps: seq<nat>)
      requires Valid() && kind == KindUtf8 && npending <= 3 && (x == EOS ==> npending == 0)
      modifies this, pending
      ensures npending <= 8
      ensures Step(Fields(), Queue(), Meaning(r, cps)) == Queued(Utf8Step(old(Fields()), x), old(Queue()))
    {
      cps := [];
      if x == EOS {
        r := Utf8End();
        return;
      }
      if needed == 0 {
        r, cps := Utf8Lead(x);
        return;
      }
      if lower <= x <= upper {
        r, cps := Utf8Trail(x);
        return;
      }
      Utf8Idle();
      PrependByte(x);
      return STEP_ERROR, [];
    }

    method Utf8Idle()
      modifies `codePoint, `needed, `seen, `lower, `upper
      ensures Fields() == old(Fields()).(codePoint := 0, needed := 0, seen := 0, lower := 0x80, upper := 0xBF)
    {
      codePoint := 0;
      needed, seen := 0, 0;
      lower, upper := 0x80, 0xBF;
    }

    /** The end of the stream: an error inside a character. */
    method Utf8End() returns (r: int)
      requires Valid() && npending == 0
      modifies this
      ensures npending == 0 && Step(Fields(), [], Meaning(r, [])) == Utf8Step(old(Fields()), EOS)
    {
      if needed == 0 { return STEP_FINISHED; }
      Reset();
      return STEP_ERROR;
    }

    /** A byte that continues a character. */
    method Utf8Trail(x: Symbol) returns (r: int, cps: seq<nat>)
      requires Valid() && kind == KindUtf8 && needed != 0 && lower <= x <= upper
      modifies `codePoint, `needed, `seen, `lower, `upper
      ensures Step(Fields(), [], Meaning(r, cps)) == Utf8Step(old(Fields()), x)
    {
      cps := [];
      lower, upper := 0x80, 0xBF;
      codePoint := codePoint * 64 + x % 64;
      seen := seen + 1;
      if seen != needed { return STEP_CONTINUE, []; }
      cps := [codePoint];
      Utf8Idle();
      return 1, cps;
    }

    method Utf16Handler(x: Symbol, be: bool) returns (r: int, cps: seq<nat>)
      requires Valid() && kind == (if be then KindUtf16Be else KindUtf16Le) && npending <= 3
      modifies this, pending
      ensures npending <= 8
      ensures Step(Fields(), Queue(), Meaning(r, cps)) == Queued(Utf16Step(old(Fields()), x, be), old(Queue()))
    {
      cps := [];
      if x == EOS {
        if leadByte < 0 && leadSurrogate == 0 { return STEP_FINISHED, []; }
        leadByte := -1;
        leadSurrogate := 0;
        return STEP_ERROR, [];
      }
      if leadByte < 0 {
        leadByte := x;
        return STEP_CONTINUE, [];
      }
      r, cps := Utf16Unit(if be then leadByte * 256 + x else x * 256 + leadByte, be);
    }

    /** A whole unit, once its second byte is there. */
    method Utf16Unit(unit: nat, be: bool) returns (r: int, cps: seq<nat>)
      requires Valid() && kind == (if be then KindUtf16Be else KindUtf16Le) && npending <= 3 && unit < 0x10000
      modifies this, pending
      ensures npending <= 8
      ensures Step(Fields(), Queue(), Meaning(r, cps)) == Queued(Utf16UnitStep(old(Fields()).(leadByte := -1), unit, be), old(Queue()))
    {
      leadByte := -1;
      if leadSurrogate != 0 {
        r, cps := Utf16Pair(unit, be);
        return;
      }
      if 0xD800 <= unit <= 0xDBFF {
        leadSurrogate := unit;
        return STEP_CONTINUE, [];
      }
      if 0xDC00 <= unit <= 0xDFFF { return STEP_ERROR, []; }
      return 1, [unit];
    }

    /** The unit after a high surrogate. */
    method Utf16Pair(unit: nat, be: bool) returns (r: int, cps: seq<nat>)
      requires Valid() && kind == (if be then KindUtf16Be else KindUtf16Le) && npending <= 3 && unit < 0x10000
      requires leadByte == -1 && leadSurrogate != 0
      modifies this, pending
      ensures npending <= 8
      ensures Step(Fields(), Queue(), Meaning(r, cps)) == Queued(Utf16UnitStep(old(Fields()), unit, be), old(Queue()))
    {
      var high := leadSurrogate;
      leadSurrogate := 0;
      if 0xDC00 <= unit <= 0xDFFF {
        return 1, [0x10000 + (high - 0xD800) * 1024 + (unit - 0xDC00)];
      }
      Prepend(if be then [unit / 256, unit % 256] else [unit % 256, unit / 256]);
      return STEP_ERROR, [];
    }

    method SingleByteHandler(x: Symbol) returns (r: int, cps: seq<nat>)
      requires Valid() && kind == KindSingleByte
      ensures Step(Fields(), Queue(), Meaning(r, cps)) == Queued(SingleByteStep(tables, Fields(), x), Queue())
    {
      if x == EOS { return STEP_FINISHED, []; }
      if x < 0x80 { return 1, [x]; }
      var cp := tables.single[x - 0x80];
      if cp == SINGLE_UNMAPPED { return STEP_ERROR, []; }
      return 1, [cp];
    }

    /** The source's binary search over the gb18030 ranges. */
    method Gb18030RangesCodePoint(pointer: nat) returns (cp: nat)
      requires |tables.ranges| > 0
      ensures cp == RangesCodePoint(tables.ranges, pointer)
    {
      if 39419 < pointer < 189000 || pointer > 1237575 { return 0; }
      if pointer == 7457 { return 0xE7C7; }
      var ranges := tables.ranges;
      var lo, hi := 0, |ranges|;
      while hi - lo > 1
        invariant 0 <= lo < hi <= |ranges|
        invariant RangeByIndex(ranges, pointer, lo, hi) == RangeByIndex(ranges, pointer, 0, |ranges|)
      {
        var mid := lo + (hi - lo) / 2;
        if ranges[mid].index <= pointer { lo := mid; } else { hi := mid; }
      }
      return (ranges[lo].codePoint + pointer - ranges[lo].index) % 0x1_0000_0000;
    }

    method Gb18030Handler(x: Symbol) returns (r: int, cps: seq<nat>)
      requires Valid() && kind == KindGb18030 && npending <= 3
      modifies this, pending
      ensures npending <= 8
      ensures Step(Fields(), Queue(), Meaning(r, cps)) == Queued(Gb18030Step(tables, old(Fields()), x), old(Queue()))
    {
      hide IndexCodePoint;
      hide RangesCodePoint;
      if x == EOS {
        if lead == 0 && second == 0 && third == 0 { return STEP_FINISHED, []; }
        lead, second, third := 0, 0, 0;
        return STEP_ERROR, [];
      }
      if third != 0 {
        r, cps := Gb18030Fourth(x);
        return;
      }
      if second != 0 {
        if 0x81 <= x <= 0xFE {
          third := x;
          return STEP_CONTINUE, [];
        }
        Prepend([second, x]);
        lead, second := 0, 0;
        return STEP_ERROR, [];
      }
      if lead != 0 {
        r, cps := Gb18030Second(x);
        return;
      }
      if x < 0x80 { return 1, [x]; }
      if x == 0x80 { return 1, [0x20AC]; }
      if x <= 0xFE {
        lead := x;
        return STEP_CONTINUE, [];
      }
      return STEP_ERROR, [];
    }

    /** The byte after three of four. */
    method Gb18030Fourth(x: Symbol) returns (r: int, cps: seq<nat>)
      requires Valid() && kind == KindGb18030 && npending <= 3 && x != EOS && third != 0
      modifies this, pending
      ensures npending <= 8
      ensures Step(Fields(), Queue(), Meaning(r, cps)) == Queued(Gb18030Step(tables, old(Fields()), x), old(Queue()))
    {
      hide RangesCodePoint;
      if x < 0x30 || x > 0x39 {
        Prepend([second, third, x]);
        lead, second, third := 0, 0, 0;
        return STEP_ERROR, [];
      }
      var pointer := FourBytePointer(lead, second, third, x);
      lead, second, third := 0, 0, 0;
      var cp := Gb18030RangesCodePoint(pointer);
      if cp == 0 { return STEP_ERROR, []; }
      return 1, [cp];
    }

    /** The byte after a lead: a digit of a four-byte character, or a trail. */
    method Gb18030Second(x: Symbol) returns (r: int, cps: seq<nat>)
      requires Valid() && kind == KindGb18030 && npending <= 3 && x != EOS && lead != 0 && second == 0 && third == 0
      modifies this, pending
      ensures npending <= 8
      ensures Step(Fields(), Queue(), Meaning(r, cps)) == Queued(Gb18030Step(tables, old(Fields()), x), old(Queue()))
    {
      hide IndexCodePoint;
      if 0x30 <= x <= 0x39 {
        second := x;
        return STEP_CONTINUE, [];
      }
      var first := lead;
      lead := 0;
      var offset := if x < 0x7F then 0x40 else 0x41;
      var cp := 0;
      if 0x40 <= x <= 0x7E || 0x80 <= x <= 0xFE {
        cp := IndexCodePoint(tables.gb18030, (first - 0x81) * 190 + x - offset);
      }
      if cp != 0 { return 1, [cp]; }
      if x < 0x80 { PrependByte(x); }
      return STEP_ERROR, [];
    }

    method Big5Handler(x: Symbol) returns (r: int, cps: seq<nat>)
      requires Valid() && kind == KindBig5 && npending <= 3
      modifies this, pending
      ensures npending <= 8
      ensures Step(Fields(), Queue(), Meaning(r, cps)) == Queued(Big5Step(tables, old(Fields()), x), old(Queue()))
    {
      if x == EOS {
        if lead == 0 { return STEP_FINISHED, []; }
        lead := 0;
        return STEP_ERROR, [];
      }
      if lead != 0 {
        var first := lead;
        lead := 0;
        if 0x40 <= x <= 0x7E || 0xA1 <= x <= 0xFE {
          var offset := if x < 0x7F then 0x40 else 0x62;
          var pointer := (first - 0x81) * 157 + x - offset;
          var pair := Big5Pair(pointer);
          if pair != [] { return 2, pair; }
          var cp := IndexCodePoint(tables.big5, pointer);
          if cp != 0 { return 1, [cp]; }
        }
        if x < 0x80 { PrependByte(x); }
        return STEP_ERROR, [];
      }
      if x < 0x80 { return 1, [x]; }
      if 0x81 <= x <= 0xFE {
        lead := x;
        return STEP_CONTINUE, [];
      }
      return STEP_ERROR, [];
    }

    method EucJpHandler(x: Symbol) returns (r: int, cps: seq<nat>)
      requires Valid() && kind == KindEucJp && npending <= 3
      modifies this, pending
      ensures npending <= 8
      ensures Step(Fields(), Queue(), Meaning(r, cps)) == Queued(EucJpStep(tables, old(Fields()), x), old(Queue()))
    {
      hide IndexCodePoint;
      if x == EOS {
        if lead == 0 { return STEP_FINISHED, []; }
        lead := 0;
        jis0212 := false;
        return STEP_ERROR, [];
      }
      if lead == 0x8E && 0xA1 <= x <= 0xDF {
        lead := 0;
        return 1, [0xFF61 - 0xA1 + x];
      }
      if lead == 0x8F && 0xA1 <= x <= 0xFE {
        jis0212 := true;
        lead := x;
        return STEP_CONTINUE, [];
      }
      if lead != 0 {
        var first := lead;
        lead := 0;
        var cp := 0;
        if 0xA1 <= first <= 0xFE && 0xA1 <= x <= 0xFE {
          cp := IndexCodePoint(if jis0212 then tables.jis0212 else tables.jis0208, (first - 0xA1) * 94 + x - 0xA1);
        }
        jis0212 := false;
        if cp != 0 { return 1, [cp]; }
        if x < 0x80 { PrependByte(x); }
        return STEP_ERROR, [];
      }
      if x < 0x80 { return 1, [x]; }
      if x == 0x8E || x == 0x8F || 0xA1 <= x <= 0xFE {
        lead := x;
        return STEP_CONTINUE, [];
      }
      return STEP_ERROR, [];
    }

    method Iso2022JpEscapeHandler(x: Symbol) returns (r: int, cps: seq<nat>)
      requires Valid() && kind == KindIso2022Jp && npending <= 3
      modifies this, pending
      ensures npending <= 8
      ensures Step(Fields(), Queue(), Meaning(r, cps)) == Queued(Iso2022JpEscape(old(Fields()), x), old(Queue()))
    {
      hide EscapeTarget;
      var first := lead;
      lead := 0;
      var target := EscapeTarget(first, x);
      if target != IsoEscape {
        var wasOutput := output;
        iso, outputIso := target, target;
        output := true;
        return if wasOutput then STEP_ERROR else STEP_CONTINUE, [];
      }
      Prepend(if x == EOS then [first] else [first, x]);
      output := false;
      iso := outputIso;
      return STEP_ERROR, [];
    }

    method Iso2022JpHandler(x: Symbol) returns (r: int, cps: seq<nat>)
      requires Valid() && kind == KindIso2022Jp && npending <= 3
      modifies this, pending
      ensures npending <= 8
      ensures Step(Fields(), Queue(), Meaning(r, cps)) == Queued(Iso2022JpStep(tables, old(Fields()), x), old(Queue()))
    {
      hide IndexCodePoint;
      hide EscapeTarget;
      if iso == IsoEscapeStart {
        if x == 0x24 || x == 0x28 {
          lead := x;
          iso := IsoEscape;
          return STEP_CONTINUE, [];
        }
        PrependByte(x);
        output := false;
        iso := outputIso;
        return STEP_ERROR, [];
      }
      if iso == IsoEscape {
        r, cps := Iso2022JpEscapeHandler(x);
        return;
      }
      if iso == IsoTrail {
        if x == 0x1B {
          iso := IsoEscapeStart;
          return STEP_ERROR, [];
        }
        iso := IsoLead;
        if x < 0x21 || x > 0x7E { return STEP_ERROR, []; }
        var cp := IndexCodePoint(tables.jis0208, (lead - 0x21) * 94 + x - 0x21);
        if cp == 0 { return STEP_ERROR, []; }
        return 1, [cp];
      }
      if x == 0x1B {
        iso := IsoEscapeStart;
        return STEP_CONTINUE, [];
      }
      if x == EOS { return STEP_FINISHED, []; }
      r, cps := Iso2022JpByte(x);
    }

    /** A byte of the current charset. */
    method Iso2022JpByte(x: Symbol) returns (r: int, cps: seq<nat>)
      requires Valid() && kind == KindIso2022Jp && npending <= 3 && x != EOS && x != 0x1B
      requires iso != IsoEscapeStart && iso != IsoEscape && iso != IsoTrail
      modifies this
      ensures npending == old(npending)
      ensures Step(Fields(), [], Meaning(r, cps)) == Iso2022JpStep(tables, old(Fields()), x)
    {
      hide IndexCodePoint;
      output := false;
      if iso == IsoRoman {
        if x == 0x5C { return 1, [0xA5]; }
        if x == 0x7E { return 1, [0x203E]; }
        if x <= 0x7F && x != 0x0E && x != 0x0F { return 1, [x]; }
        return STEP_ERROR, [];
      }
      if iso == IsoKatakana {
        if x < 0x21 || x > 0x5F { return STEP_ERROR, []; }
        return 1, [0xFF61 - 0x21 + x];
      }
      if iso == IsoLead {
        if x < 0x21 || x > 0x7E { return STEP_ERROR, []; }
        lead := x;
        iso := IsoTrail;
        return STEP_CONTINUE, [];
      }
      if x > 0x7F || x == 0x0E || x == 0x0F { return STEP_ERROR, []; }
      return 1, [x];
    }

    method ShiftJisHandler(x: Symbol) returns (r: int, cps: seq<nat>)
      requires Valid() && kind == KindShiftJis && npending <= 3
      modifies this, pending
      ensures npending <= 8
      ensures Step(Fields(), Queue(), Meaning(r, cps)) == Queued(ShiftJisStep(tables, old(Fields()), x), old(Queue()))
    {
      if x == EOS {
        if lead == 0 { return STEP_FINISHED, []; }
        lead := 0;
        return STEP_ERROR, [];
      }
      if lead != 0 {
        var first := lead;
        lead := 0;
        if 0x40 <= x <= 0x7E || 0x80 <= x <= 0xFC {
          var offset := if x < 0x7F then 0x40 else 0x41;
          var leadOffset := if first < 0xA0 then 0x81 else 0xC1;
          var pointer := (first - leadOffset) * 188 + x - offset;
          if 8836 <= pointer <= 10715 { return 1, [0xE000 - 8836 + pointer]; }
          var cp := IndexCodePoint(tables.jis0208, pointer);
          if cp != 0 { return 1, [cp]; }
        }
        if x < 0x80 { PrependByte(x); }
        return STEP_ERROR, [];
      }
      if x <= 0x80 { return 1, [x]; }
      if 0xA1 <= x <= 0xDF { return 1, [0xFF61 - 0xA1 + x]; }
      if 0x81 <= x <= 0x9F || 0xE0 <= x <= 0xFC {
        lead := x;
        return STEP_CONTINUE, [];
      }
      return STEP_ERROR, [];
    }

    method EucKrHandler(x: Symbol) returns (r: int, cps: seq<nat>)
      requires Valid() && kind == KindEucKr && npending <= 3
      modifies this, pending
      ensures npending <= 8
      ensures Step(Fields(), Queue(), Meaning(r, cps)) == Queued(EucKrStep(tables, old(Fields()), x), old(Queue()))
    {
      if x == EOS {
        if lead == 0 { return STEP_FINISHED, []; }
        lead := 0;
        return STEP_ERROR, [];
      }
      if lead != 0 {
        var first := lead;
        lead := 0;
        if 0x41 <= x <= 0xFE {
          var cp := IndexCodePoint(tables.eucKr, (first - 0x81) * 190 + x - 0x41);
          if cp != 0 { return 1, [cp]; }
        }
        if x < 0x80 { PrependByte(x); }
        return STEP_ERROR, [];
      }
      if x < 0x80 { return 1, [x]; }
      if 0x81 <= x <= 0xFE {
        lead := x;
        return STEP_CONTINUE, [];
      }
      return STEP_ERROR, [];
    }

    /** Dispatch on the encoding kind. */
    method Handle(x: Symbol) returns (r: int, cps: seq<nat>)
      requires Valid() && npending <= 3 && (x == EOS ==> npending == 0)
      modifies this, pending
      ensures npending <= 8
      ensures Step(Fields(), Queue(), Meaning(r, cps)) == Queued(DecoderStep(kind, tables, old(Fields()), x), old(Queue()))
    {
      match kind {
        case KindUtf8 => r, cps := Utf8Handler(x);
        case KindSingleByte => r, cps := SingleByteHandler(x);
        case KindGb18030 => r, cps := Gb18030Handler(x);
        case KindBig5 => r, cps := Big5Handler(x);
        case KindEucJp => r, cps := EucJpHandler(x);
        case KindIso2022Jp => r, cps := Iso2022JpHandler(x);
        case KindShiftJis => r, cps := ShiftJisHandler(x);
        case KindEucKr => r, cps := EucKrHandler(x);
        case KindUtf16Be => r, cps := Utf16Handler(x, true);
        case KindUtf16Le => r, cps := Utf16Handler(x, false);
        case KindReplacement =>
          if x == EOS || replaced { return STEP_FINISHED, []; }
          replaced := true;
          return STEP_ERROR, [];
        case KindXUserDefined =>
          if x == EOS { return STEP_FINISHED, []; }
          return 1, [if x < 0x80 then x else 0xF780 + x - 0x80];
      }
    }

    /** The next symbol: from the queue first, then from the data, then the end of stream. */
    method Fetch(data: seq<byte>, i: nat) returns (x: Symbol, next: nat)
      requires pending.Length == 8 && npending <= 8 && i <= |data|
      modifies `npending, pending
      ensures npending <= 8 && i <= next <= |data|
      ensures var queue, rest := old(Queue()), data[i..];
              && x == (if queue != [] then queue[0] else if rest != [] then rest[0] else EOS)
              && Queue() == (if queue != [] then queue[1..] else [])
              && data[next..] == (if queue == [] && rest != [] then rest[1..] else rest)
    {
      next := i;
      if npending > 0 {
        x := PopPending();
      } else if i < |data| {
        x := data[i];
        next := i + 1;
      } else {
        x := EOS;
      }
    }

    /** One turn of the decode loop. */
    method TurnOnce(data: seq<byte>, i: nat) returns (next: nat, r: int, cps: seq<nat>)
      requires Ready() && i <= |data|
      modifies this, pending
      ensures Ready() && i <= next <= |data|
      ensures Turn(View(), data[next..], Meaning(r, cps)) == TakeTurn(Settings(), old(View()), data[i..])
    {
      hide DecoderStep;
      hide StateOk;
      hide Held;
      var x;
      x, next := Fetch(data, i);
      r, cps := Handle(x);
      assert Turn(View(), data[next..], Meaning(r, cps)) == TakeTurn(Settings(), old(View()), data[i..]);
    }

    /** The UTF-8 fast path: between characters, a well-formed run is copied as it is. */
    method CopyRun(data: seq<byte>, start: nat, ghost flush: bool, before: seq<byte>, ghost whole: Run)
      returns (i: nat, text: seq<byte>)
      requires Ready() && start <= |data|
      requires whole == Decode(Settings(), View(), data[start..], flush).After(before)
      ensures start <= i <= |data|
      ensures whole == Decode(Settings(), View(), data[i..], flush).After(text)
    {
      hide DecoderStep;
      hide Decode;
      hide RunEnd;
      i, text := start, before;
      if kind == KindUtf8 && needed == 0 && npending == 0 && i < |data| {
        var run := ValidRun(data, i);
        assert View() == Snapshot(Fields(), []);
        SkipRun(Settings(), Fields(), data, i, flush, text, whole);
        text := text + data[i..i + run];
        i := i + run;
      }
    }

    /** Streams bytes through the decoder; the text appended and the verdict are those of
        stepping over every byte, and the decoder ends where stepping would leave it. */
    method DecodeChunk(data: seq<byte>, flush: bool) returns (ok: bool, text: seq<byte>)
      requires Ready()
      modifies this, pending
      ensures Ready()
      ensures Run(View(), text, ok) == Decode(Settings(), old(View()), data, flush)
    {
      hide DecoderStep;
      hide Decode;
      hide StateOk;
      hide Held;
      hide TakeTurn;
      hide Encode;
      hide EncodeAll;
      hide FromTurn;
      ghost var c := Settings();
      ghost var whole := Decode(c, View(), data, flush);
      var i := 0;
      text := [];
      assert data[0..] == data && [] + whole.out == whole.out;
      while true
        invariant i <= |data| && Ready()
        invariant whole == Decode(c, View(), data[i..], flush).After(text)
        decreases InFlight(kind, View(), data[i..]), npending + |data| - i
      {
        i, text := CopyRun(data, i, flush, text, whole);
        ghost var before, rest := View(), data[i..];
        if npending == 0 && i == |data| && !flush {
          DecodeNothing(c, before);
          assert rest == [] && text + [] == text;
          return true, text;
        }
        var r, cps;
        i, r, cps := TurnOnce(data, i);
        ghost var t := Turn(View(), data[i..], Meaning(r, cps));
        AppendTurn(c, before, rest, t, flush, text, whole);
        if r > 0 {
          text := text + EncodeAll(cps);
        } else if r == STEP_ERROR {
          if fatal { return false, text; }
          text := text + Encode(REPLACEMENT_CHARACTER);
        } else if r == STEP_FINISHED {
          return true, text;
        }
      }
    }
  }

  /** What is left to decode after a turn, the text appended so far being `text`. */
  lemma AppendTurn(c: Config, d: Snapshot, input: seq<byte>, t: Turn, flush: bool, text: seq<byte>, whole: Run)
    requires c.Valid() && Reachable(c.kind, d) && (d.queue != [] || input != [] || flush)
    requires t == TakeTurn(c, d, input)
    requires whole == Decode(c, d, input, flush).After(text)
    ensures t.outcome == Finished ==> whole == Run(t.decoder, text, true)
    ensures t.outcome == Error && c.fatal ==> whole == Run(t.decoder, text, false)
    ensures t.outcome == Error && !c.fatal ==>
              whole == Decode(c, t.decoder, t.rest, flush).After(text + Encode(REPLACEMENT_CHARACTER))
    ensures t.outcome.Emit? ==> whole == Decode(c, t.decoder, t.rest, flush).After(text + EncodeAll(t.outcome.cps))
    ensures t.outcome == Continue ==> whole == Decode(c, t.decoder, t.rest, flush).After(text)
  {
    hide Decode;
    hide TakeTurn;
    hide Encode;
    hide EncodeAll;
    DecodeUnfolds(c, d, input, flush);
    var last := Decode(c, t.decoder, t.rest, flush);
    assert text + [] == text;
    assert text + (Appended(t.outcome) + last.out) == (text + Appended(t.outcome)) + last.out;
  }

  /** A step whose pushed-back bytes have been put in front of a queue. */
  function Queued(r: Step, queue: seq<byte>): Step {
    r.(back := r.back + queue)
  }
}
