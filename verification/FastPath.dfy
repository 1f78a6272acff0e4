/** Copying a UTF-8 run is stepping through it. */
module FastPath {
  import opened Utf8
  import opened DecoderSpec
  import opened DecodeRun
  import opened Feed

  predicate WellFormed(bytes: seq<byte>) {
    bytes != [] && CharLength(bytes, 0) == |bytes|
  }

  /** Re-encoding the code point of a well-formed character gives its bytes back. */
  lemma EncodeOfValue(bytes: seq<byte>)
    requires WellFormed(bytes)
    ensures IsScalar(Value(bytes)) && Value(bytes) != 0
    ensures Encode(Value(bytes)) == bytes
  {
    if |bytes| == 3 {
      Digits(bytes[0] - 0xE0, bytes[1] - 0x80, bytes[2] - 0x80);
    } else if |bytes| == 4 {
      FourBytesOfValue(bytes);
    }
  }

  lemma FourBytesOfValue(bytes: seq<byte>)
    requires WellFormed(bytes) && |bytes| == 4
    ensures IsScalar(Value(bytes)) && Value(bytes) >= 0x10000
    ensures Encode(Value(bytes)) == bytes
  {
    var top, b1: nat, b2: nat, b3: nat := bytes[0] as int - 0xF0, bytes[1] - 0x80, bytes[2] - 0x80, bytes[3] - 0x80;
    var cp := Value(bytes);
    assert cp == (top * 64 + b1) * 4096 + b2 * 64 + b3;
    Digits(top * 64 + b1, b2, b3);
    assert (top * 64 + b1) % 64 == b1 && cp / 262144 == top;
  }

  lemma Digits(high: nat, mid: nat, low: nat)
    requires mid < 64 && low < 64
    ensures var n := high * 4096 + mid * 64 + low;
            n / 4096 == high && n / 64 == high * 64 + mid && n / 64 % 64 == mid && n % 64 == low
  {}

  /** Every scalar value but NUL encodes to a well-formed character. */
  lemma EncodeIsWellFormed(cp: nat)
    requires IsScalar(cp) && cp != 0
    ensures WellFormed(Encode(cp)) && Value(Encode(cp)) == cp
  {
    hide Value;
    ValueOfEncode(cp);
    if 0x800 <= cp < 0x10000 {
      ThreeByteBounds(cp);
    } else if cp >= 0x10000 {
      FourByteBounds(cp);
    }
  }

  lemma ThreeByteBounds(cp: nat)
    requires 0x800 <= cp < 0x10000 && IsScalar(cp)
    ensures 0xE0 <= 0xE0 + cp / 4096 <= 0xEF
    ensures cp / 4096 == 0 ==> cp / 64 % 64 >= 0x20
    ensures cp / 4096 == 0xD ==> cp / 64 % 64 < 0x20
  {
    assert cp / 64 == cp / 4096 * 64 + cp / 64 % 64;
  }

  lemma FourByteBounds(cp: nat)
    requires 0x10000 <= cp <= MAX_CODE_POINT
    ensures 0 <= cp / 262144 <= 4 && cp / 262144 % 8 == cp / 262144
    ensures cp / 262144 == 0 ==> cp / 4096 % 64 >= 0x10
    ensures cp / 262144 == 4 ==> cp / 4096 % 64 < 0x10
  {
    assert cp / 4096 == cp / 262144 * 64 + cp / 4096 % 64;
  }

  lemma CharIsEaten(t: Tables, s: State, bytes: seq<byte>)
    requires t.Valid() && StateOk(KindUtf8, s) && s.needed == 0
    requires WellFormed(bytes)
    ensures Eat(KindUtf8, t, s, bytes) == Fed(s, [Value(bytes)])
  {
    hide Eat;
    if |bytes| == 1 {
      assert bytes == [bytes[0]];
      EatOne(KindUtf8, t, s, bytes[0], s, [Value(bytes)]);
    } else if |bytes| == 2 {
      assert bytes == [bytes[0], bytes[1]];
      EatTwo(KindUtf8, t, s, bytes[0], Utf8Step(s, bytes[0]).state, bytes[1], s, [Value(bytes)]);
    } else if |bytes| == 3 {
      ThreeAreEaten(t, s, bytes);
    } else {
      FourAreEaten(t, s, bytes);
    }
  }

  lemma ThreeAreEaten(t: Tables, s: State, bytes: seq<byte>)
    requires t.Valid() && StateOk(KindUtf8, s) && s.needed == 0
    requires WellFormed(bytes) && |bytes| == 3
    ensures Eat(KindUtf8, t, s, bytes) == Fed(s, [Value(bytes)])
  {
    hide Eat;
    assert bytes == [bytes[0], bytes[1], bytes[2]];
    var s1 := Utf8Step(s, bytes[0]).state;
    var s2 := Utf8Step(s1, bytes[1]).state;
    EatThree(KindUtf8, t, s, bytes[0], s1, bytes[1], s2, bytes[2], s, [Value(bytes)]);
  }

  /** A continuation byte that is not the last one. */
  lemma Continues(t: Tables, s: State, x: byte) returns (next: State)
    requires t.Valid() && StateOk(KindUtf8, s) && s.needed > s.seen + 1 && s.lower <= x <= s.upper
    ensures next == s.(codePoint := s.codePoint * 64 + x % 64, seen := s.seen + 1, lower := 0x80, upper := 0xBF)
    ensures StateOk(KindUtf8, next) && DecoderStep(KindUtf8, t, s, x) == Step(next, [], Continue)
  {
    next := Utf8Step(s, x).state;
  }

  lemma LeadsFour(t: Tables, s: State, x: byte) returns (next: State)
    requires t.Valid() && StateOk(KindUtf8, s) && s.needed == 0 && 0xF0 <= x <= 0xF4
    ensures next == s.(needed := 3, codePoint := x - 0xF0, lower := if x == 0xF0 then 0x90 else 0x80,
                       upper := if x == 0xF4 then 0x8F else 0xBF)
    ensures StateOk(KindUtf8, next) && DecoderStep(KindUtf8, t, s, x) == Step(next, [], Continue)
  {
    next := Utf8Step(s, x).state;
  }

  lemma Closes(t: Tables, s: State, x: byte, last: State)
    requires t.Valid() && StateOk(KindUtf8, s) && s.needed == s.seen + 1 && s.lower <= x <= s.upper
    requires last == s.(codePoint := 0, needed := 0, seen := 0, lower := 0x80, upper := 0xBF)
    ensures DecoderStep(KindUtf8, t, s, x) == Step(last, [], Emit([s.codePoint * 64 + x % 64]))
  {}

  lemma IdleFields(s: State)
    requires StateOk(KindUtf8, s) && s.needed == 0
    ensures s.codePoint == s.seen == 0 && s.lower == 0x80 && s.upper == 0xBF
  {}

  lemma FourAreEaten(t: Tables, s: State, bytes: seq<byte>)
    requires t.Valid() && StateOk(KindUtf8, s) && s.needed == 0
    requires WellFormed(bytes) && |bytes| == 4
    ensures Eat(KindUtf8, t, s, bytes) == Fed(s, [Value(bytes)])
  {
    hide StateOk;
    hide Eat;
    hide DecoderStep;
    hide Value;
    IdleFields(s);
    var b0, b1, b2, b3 := bytes[0], bytes[1], bytes[2], bytes[3];
    assert bytes == [b0, b1, b2, b3];
    FourBytesAre(bytes);
    var s1 := LeadsFour(t, s, b0);
    var s2 := Continues(t, s1, b1);
    var s3 := Continues(t, s2, b2);
    Closes(t, s3, b3, s);
    EatFour(KindUtf8, t, s, b0, s1, b1, s2, b2, s3, b3, s, [Value(bytes)]);
  }

  /** The ranges of a four-byte character, and what its bytes add up to. */
  lemma FourBytesAre(bytes: seq<byte>)
    requires WellFormed(bytes) && |bytes| == 4
    ensures var b0: int, b1: int, b2: int, b3: int := bytes[0], bytes[1], bytes[2], bytes[3];
            && 0xF0 <= b0 <= 0xF4 && (if b0 == 0xF0 then 0x90 else 0x80) <= b1 <= (if b0 == 0xF4 then 0x8F else 0xBF)
            && 0x80 <= b2 <= 0xBF && 0x80 <= b3 <= 0xBF
            && Value(bytes) == (((b0 - 0xF0) * 64 + b1 % 64) * 64 + b2 % 64) * 64 + b3 % 64
  {}

  /** So is the encoding of any scalar value, NUL included. */
  lemma ScalarIsEaten(t: Tables, cp: nat)
    requires t.Valid() && IsScalar(cp)
    ensures Eat(KindUtf8, t, RESET, Encode(cp)) == Fed(RESET, [cp])
  {
    hide Eat;
    if cp == 0 {
      EatOne(KindUtf8, t, RESET, 0, RESET, [0]);
    } else {
      EncodeIsWellFormed(cp);
      CharIsEaten(t, RESET, Encode(cp));
    }
  }

  /** The character found at an offset is eaten, and re-encodes to itself. */
  lemma CharAtIsEaten(t: Tables, s: State, data: seq<byte>, i: nat) returns (cp: nat)
    requires t.Valid() && StateOk(KindUtf8, s) && s.needed == 0
    requires i <= |data| && CharLength(data, i) > 0
    ensures Eat(KindUtf8, t, s, data[i..i + CharLength(data, i)]) == Fed(s, [cp])
    ensures Encode(cp) == data[i..i + CharLength(data, i)]
  {
    hide DecoderStep;
    hide Eat;
    var bytes := data[i..i + CharLength(data, i)];
    assert WellFormed(bytes);
    CharIsEaten(t, s, bytes);
    EncodeOfValue(bytes);
    cp := Value(bytes);
  }

  /** A run of well-formed characters is eaten cleanly and leaves the decoder as it was. */
  lemma {:induction false} RunIsEaten(t: Tables, s: State, data: seq<byte>, i: nat) returns (cps: seq<nat>)
    requires t.Valid() && StateOk(KindUtf8, s) && s.needed == 0
    requires i <= |data|
    ensures Eat(KindUtf8, t, s, data[i..RunEnd(data, i)]) == Fed(s, cps)
    ensures EncodeAll(cps) == data[i..RunEnd(data, i)]
    decreases |data| - i
  {
    hide DecoderStep;
    hide CharLength;
    hide Encode;
    var n := CharLength(data, i);
    if n == 0 {
      cps := [];
    } else {
      var cp := CharAtIsEaten(t, s, data, i);
      var more := RunIsEaten(t, s, data, i + n);
      cps := [cp] + more;
      RunStep(t, s, data, i, cp, more);
    }
  }

  lemma RunStep(t: Tables, s: State, data: seq<byte>, i: nat, cp: nat, more: seq<nat>)
    requires t.Valid() && StateOk(KindUtf8, s)
    requires i <= |data| && CharLength(data, i) > 0
    requires var n := CharLength(data, i);
             && Eat(KindUtf8, t, s, data[i..i + n]) == Fed(s, [cp]) && Encode(cp) == data[i..i + n]
             && Eat(KindUtf8, t, s, data[i + n..RunEnd(data, i + n)]) == Fed(s, more)
             && EncodeAll(more) == data[i + n..RunEnd(data, i + n)]
    ensures Eat(KindUtf8, t, s, data[i..RunEnd(data, i)]) == Fed(s, [cp] + more)
    ensures EncodeAll([cp] + more) == data[i..RunEnd(data, i)]
  {
    hide DecoderStep;
    hide Eat;
    hide CharLength;
    hide Encode;
    var n := CharLength(data, i);
    var bytes, rest := data[i..i + n], data[i + n..RunEnd(data, i + n)];
    assert data[i..RunEnd(data, i)] == bytes + rest;
    EatConcat(KindUtf8, t, s, bytes, rest);
    assert ([cp] + more)[0] == cp && ([cp] + more)[1..] == more;
  }

  /** Skipping ahead by the fast path is invisible: same text, same decoder, same verdict. */
  lemma FastPathIsStepping(c: Config, s: State, data: seq<byte>, i: nat, flush: bool)
    requires c.Valid() && c.kind == KindUtf8 && StateOk(KindUtf8, s) && s.needed == 0
    requires i <= |data|
    ensures Decode(c, Snapshot(s, []), data[i..], flush)
         == Decode(c, Snapshot(s, []), data[RunEnd(data, i)..], flush).After(data[i..RunEnd(data, i)])
  {
    var cps := RunIsEaten(c.tables, s, data, i);
    var run, rest := data[i..RunEnd(data, i)], data[RunEnd(data, i)..];
    assert data[i..] == run + rest;
    EatenIsDecoded(c, s, run, rest, flush);
  }

  /** One use of the fast path inside the decode loop. */
  lemma SkipRun(c: Config, s: State, data: seq<byte>, i: nat, flush: bool, text: seq<byte>, whole: Run)
    requires c.Valid() && c.kind == KindUtf8 && StateOk(KindUtf8, s) && s.needed == 0
    requires i <= |data|
    requires whole == Decode(c, Snapshot(s, []), data[i..], flush).After(text)
    ensures whole == Decode(c, Snapshot(s, []), data[RunEnd(data, i)..], flush).After(text + data[i..RunEnd(data, i)])
  {
    hide Decode;
    FastPathIsStepping(c, s, data, i, flush);
    var run, last := data[i..RunEnd(data, i)], Decode(c, Snapshot(s, []), data[RunEnd(data, i)..], flush);
    assert (text + run) + last.out == text + (run + last.out);
  }
}
