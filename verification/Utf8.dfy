/** UTF-8 as bytes: the encoder, and the well-formed run copied unstepped. */
module Utf8 {

  type byte = b: int | 0 <= b < 256

  const MAX_CODE_POINT := 0x10FFFF

  predicate IsScalar(cp: int) {
    0 <= cp < 0xD800 || 0xE000 <= cp <= MAX_CODE_POINT
  }

  /** The bytes appended to the output string for one code point. */
  function Encode(cp: nat): (bytes: seq<byte>)
    ensures 1 <= |bytes| <= 4
  {
    if cp < 0x80 then [cp]
    else if cp < 0x800 then [0xC0 + cp / 64, 0x80 + cp % 64]
    else if cp < 0x10000 then [0xE0 + cp / 4096, 0x80 + cp / 64 % 64, 0x80 + cp % 64]
    else [0xF0 + cp / 262144 % 8, 0x80 + cp / 4096 % 64, 0x80 + cp / 64 % 64, 0x80 + cp % 64]
  }

  function EncodeAll(cps: seq<nat>): seq<byte> {
    if cps == [] then [] else Encode(cps[0]) + EncodeAll(cps[1..])
  }

  predicate Continuation(b: byte) { 0x80 <= b <= 0xBF }

  /** Length of the well-formed, non-NUL character at `i`, or 0 if there is none.
      This is what GLib's g_utf8_validate_len accepts, one character at a time. */
  function CharLength(data: seq<byte>, i: nat): (n: nat)
    requires i <= |data|
    ensures i + n <= |data| && n <= 4
  {
    var left := |data| - i;
    if left == 0 then 0
    else
      var b := data[i];
      if 1 <= b <= 0x7F then 1
      else if 0xC2 <= b <= 0xDF then
        if left >= 2 && Continuation(data[i + 1]) then 2 else 0
      else if 0xE0 <= b <= 0xEF then
        if left >= 3
           && (if b == 0xE0 then 0xA0 else 0x80) <= data[i + 1] <= (if b == 0xED then 0x9F else 0xBF)
           && Continuation(data[i + 2]) then 3 else 0
      else if 0xF0 <= b <= 0xF4 then
        if left >= 4
           && (if b == 0xF0 then 0x90 else 0x80) <= data[i + 1] <= (if b == 0xF4 then 0x8F else 0xBF)
           && Continuation(data[i + 2]) && Continuation(data[i + 3]) then 4 else 0
      else 0
  }

  /** Offset at which the run of well-formed characters starting at `i` ends. */
  function RunEnd(data: seq<byte>, i: nat): (end: nat)
    requires i <= |data|
    ensures i <= end <= |data|
    decreases |data| - i
  {
    var n := CharLength(data, i);
    if n == 0 then i else RunEnd(data, i + n)
  }

  /** The fast path's scan; RunEnd is its specification. */
  method ValidRun(data: seq<byte>, start: nat) returns (run: nat)
    requires start <= |data|
    ensures start + run == RunEnd(data, start)
  {
    var pos := start;
    var n := CharLength(data, pos);
    while n != 0
      invariant start <= pos <= |data|
      invariant n == CharLength(data, pos)
      invariant RunEnd(data, pos) == RunEnd(data, start)
      decreases |data| - pos
    {
      pos := pos + n;
      n := CharLength(data, pos);
    }
    run := pos - start;
  }

  /** Distinct scalar values have distinct encodings, and no encoding is a proper
      prefix of another: the text decides the code points. */
  lemma EncodePrefixFree(a: nat, b: nat, restA: seq<byte>, restB: seq<byte>)
    requires a <= MAX_CODE_POINT && b <= MAX_CODE_POINT
    requires Encode(a) + restA == Encode(b) + restB
    ensures a == b && restA == restB
  {
    var x, y := Encode(a) + restA, Encode(b) + restB;
    assert x[0] == Encode(a)[0] && y[0] == Encode(b)[0];
    assert |Encode(a)| == |Encode(b)|;
    assert Encode(a) == x[..|Encode(a)|] == y[..|Encode(b)|] == Encode(b);
    assert restA == x[|Encode(a)|..] == y[|Encode(b)|..] == restB;
    ValueOfEncode(a);
    ValueOfEncode(b);
  }

  /** The code point spelled by the bytes of one encoding. */
  function Value(bytes: seq<byte>): int
    requires 1 <= |bytes| <= 4
  {
    var b0: int := bytes[0];
    if |bytes| == 1 then b0
    else
      var b1: int := bytes[1];
      if |bytes| == 2 then (b0 - 0xC0) * 64 + b1 - 0x80
      else
        var b2: int := bytes[2];
        if |bytes| == 3 then (b0 - 0xE0) * 4096 + (b1 - 0x80) * 64 + b2 - 0x80
        else
          var b3: int := bytes[3];
          (b0 - 0xF0) * 262144 + (b1 - 0x80) * 4096 + (b2 - 0x80) * 64 + b3 - 0x80
  }

  lemma ValueOfEncode(cp: nat)
    requires cp <= MAX_CODE_POINT
    ensures Value(Encode(cp)) == cp
  {
    assert cp / 4096 == cp / 64 / 64;
    assert cp / 262144 == cp / 4096 / 64;
  }

  /** UTF-8 output determines the code points that were written. */
  lemma {:induction false} EncodeAllInjective(xs: seq<nat>, ys: seq<nat>)
    requires forall k :: 0 <= k < |xs| ==> xs[k] <= MAX_CODE_POINT
    requires forall k :: 0 <= k < |ys| ==> ys[k] <= MAX_CODE_POINT
    requires EncodeAll(xs) == EncodeAll(ys)
    ensures xs == ys
  {
    if xs != [] && ys != [] {
      EncodePrefixFree(xs[0], ys[0], EncodeAll(xs[1..]), EncodeAll(ys[1..]));
      EncodeAllInjective(xs[1..], ys[1..]);
      assert xs == [xs[0]] + xs[1..] && ys == [ys[0]] + ys[1..];
    }
  }

  lemma {:induction false} EncodeAllConcat(xs: seq<nat>, ys: seq<nat>)
    ensures EncodeAll(xs + ys) == EncodeAll(xs) + EncodeAll(ys)
    decreases |xs|
  {
    hide Encode;
    if xs == [] {
      assert xs + ys == ys;
    } else {
      EncodeAllConcat(xs[1..], ys);
      assert (xs + ys)[1..] == xs[1..] + ys && (xs + ys)[0] == xs[0];
      Regroup(Encode(xs[0]), EncodeAll(xs[1..]), EncodeAll(ys));
    }
  }

  lemma Regroup<T>(a: seq<T>, b: seq<T>, c: seq<T>)
    ensures a + b + c == a + (b + c)
  {}
}
