/** UTF-8 as a decoder reads it, broken or not. */
module Utf8Reading {
  import opened Utf8
  import opened DecoderSpec
  import opened DecodeRun
  import opened Feed
  import opened FastPath
  import opened Reading

  // ----- queued bytes are unread bytes -----

  lemma {:induction false} QueuedIsUnread(c: Config, s: State, front: seq<byte>, back: seq<byte>, input: seq<byte>)
    requires c.Valid() && Reachable(c.kind, Snapshot(s, front + back))
    ensures Reachable(c.kind, Snapshot(s, front))
    ensures var a, b := Decode(c, Snapshot(s, front + back), input, true), Decode(c, Snapshot(s, front), back + input, true);
            a.out == b.out && a.ok == b.ok
    decreases InFlight(c.kind, Snapshot(s, front + back), input), |front| + |back| + |input|
  {
    hide Decode;
    hide DecoderStep;
    hide Appended;
    hide Held;
    hide StateOk;
    var d, e := Snapshot(s, front + back), Snapshot(s, front);
    assert Reachable(c.kind, e);
    if front == [] && back == [] {
      assert front + back == front && back + input == input;
    } else {
      DecodeUnfolds(c, d, input, true);
      DecodeUnfolds(c, e, back + input, true);
      var t, u := TakeTurn(c, d, input), TakeTurn(c, e, back + input);
      OnlyReplacementFinishesEarly(c, d, input);
      if front != [] {
        var r := DecoderStep(c.kind, c.tables, s, front[0]);
        assert (front + back)[0] == front[0] && (front + back)[1..] == front[1..] + back;
        Regroup(r.back, front[1..], back);
        QueuedTurn(c, t, u, r.back + front[1..], back, input);
      } else {
        var r := DecoderStep(c.kind, c.tables, s, back[0]);
        assert front + back == back && (back + input)[1..] == back[1..] + input;
        assert r.back + [] == r.back;
        QueuedTurn(c, t, u, r.back, back[1..], input);
      }
      if t.outcome != Finished && !(t.outcome == Error && c.fatal) {
        if front != [] {
          var r := DecoderStep(c.kind, c.tables, s, front[0]);
          QueuedIsUnread(c, t.decoder.state, r.back + front[1..], back, input);
        } else {
          var r := DecoderStep(c.kind, c.tables, s, back[0]);
          QueuedIsUnread(c, t.decoder.state, r.back, back[1..], input);
        }
      }
    }
  }

  /** One turn of either. */
  lemma QueuedTurn(c: Config, t: Turn, u: Turn, front: seq<byte>, back: seq<byte>, input: seq<byte>)
    requires c.Valid() && Reachable(c.kind, t.decoder)
    requires t.decoder.queue == front + back && t.rest == input
    requires u == Turn(Snapshot(t.decoder.state, front), back + input, t.outcome)
    ensures Reachable(c.kind, u.decoder)
  {}

  // ----- tokens -----

  /** The bytes of a well-formed token. */
  lemma GoodIsRead(c: Config, s: State, data: seq<byte>, n: nat, text: seq<nat>, last: State)
    requires c.Valid() && StateOk(c.kind, s) && Reachable(c.kind, Snapshot(s, [])) && n <= |data|
    requires Eat(c.kind, c.tables, s, data[..n]) == Fed(last, text)
    ensures Reachable(c.kind, Snapshot(last, []))
    ensures Hear(c, s, data) == Hear(c, last, data[n..]).After(EncodeAll(text))
  {
    hide Decode;
    hide Eat;
    hide EncodeAll;
    assert data == data[..n] + data[n..];
    EatenIsDecoded(c, s, data[..n], data[n..], true);
  }

  function SymbolAt(data: seq<byte>, i: nat): Symbol {
    if i < |data| then data[i] else EOS
  }

  function Least(a: nat, b: nat): nat { if a < b then a else b }

  /** What is heard from an error on. */
  function AfterError(c: Config, s: State, rest: seq<byte>): Heard
    requires c.Valid() && Reachable(c.kind, Snapshot(s, []))
  {
    if c.fatal then Heard([], false) else Hear(c, s, rest).After(Encode(REPLACEMENT_CHARACTER))
  }

  /** An error in the next step gives up none, some or all of the byte it looked at and those pushed back. */
  lemma ErrorIsRead(c: Config, middle: State, data: seq<byte>, back: seq<byte>, last: State)
    requires c.Valid() && StateOk(c.kind, middle) && Reachable(c.kind, Snapshot(middle, []))
    requires DecoderStep(c.kind, c.tables, middle, SymbolAt(data, 0)) == Step(last, back, Error)
    ensures Reachable(c.kind, Snapshot(last, []))
    ensures Hear(c, middle, data) == AfterError(c, last, back + data[Least(1, |data|)..])
  {
    hide Decode;
    hide DecoderStep;
    hide Encode;
    hide StateOk;
    hide Held;
    DecodeUnfolds(c, Snapshot(middle, []), data, true);
    StepAccounts(c.kind, c.tables, middle, SymbolAt(data, 0));
    assert back + [] == back == [] + back;
    var rest := data[Least(1, |data|)..];
    assert TakeTurn(c, Snapshot(middle, []), data) == Turn(Snapshot(last, back), rest, Error);
    QueuedIsUnread(c, last, [], back, rest);
  }

  /** A malformed token: `n` bytes are given up, the others read so far are read again. */
  lemma BadIsRead(c: Config, s: State, data: seq<byte>, p: nat, n: nat, middle: State, last: State)
    requires c.Valid() && StateOk(c.kind, s) && Reachable(c.kind, Snapshot(s, []))
    requires p <= |data| && n <= Least(p + 1, |data|)
    requires Eat(c.kind, c.tables, s, data[..p]) == Fed(middle, [])
    requires StateOk(c.kind, middle)
    requires DecoderStep(c.kind, c.tables, middle, SymbolAt(data, p)) == Step(last, data[n..Least(p + 1, |data|)], Error)
    ensures Reachable(c.kind, Snapshot(last, []))
    ensures Hear(c, s, data) == AfterError(c, last, data[n..])
  {
    hide Hear;
    hide Eat;
    hide DecoderStep;
    hide AfterError;
    hide EncodeAll;
    hide Reachable;
    GoodIsRead(c, s, data, p, [], middle);
    NothingEncodes();
    var a := Hear(c, middle, data[p..]);
    assert [] + a.text == a.text;
    SymbolAfter(data, p);
    ErrorIsRead(c, middle, data[p..], data[n..Least(p + 1, |data|)], last);
    Joined(data, n, p);
  }

  lemma SymbolAfter(data: seq<byte>, p: nat)
    requires p <= |data|
    ensures SymbolAt(data[p..], 0) == SymbolAt(data, p)
  {}

  lemma Joined(data: seq<byte>, n: nat, p: nat)
    requires p <= |data| && n <= Least(p + 1, |data|)
    ensures data[n..Least(p + 1, |data|)] + data[p..][Least(1, |data[p..]|)..] == data[n..]
  {}

  // ----- what begins a character -----

  /** The length of the characters that start with this byte; 0 for none. */
  function Size(x: byte): nat {
    if x < 0x80 then 1
    else if 0xC2 <= x <= 0xDF then 2
    else if 0xE0 <= x <= 0xEF then 3
    else if 0xF0 <= x <= 0xF4 then 4
    else 0
  }

  function Low(x: byte): byte {
    if x == 0xE0 then 0xA0 else if x == 0xF0 then 0x90 else 0x80
  }

  function High(x: byte): byte {
    if x == 0xED then 0x9F else if x == 0xF4 then 0x8F else 0xBF
  }

  predicate Opens(bytes: seq<byte>) {
    bytes != [] ==>
      && |bytes| <= Size(bytes[0])
      && (|bytes| >= 2 ==> Low(bytes[0]) <= bytes[1] <= High(bytes[0]))
      && (forall k :: 2 <= k < |bytes| ==> Continuation(bytes[k]))
  }

  lemma EncodingOpens(cp: nat)
    requires IsScalar(cp)
    ensures Opens(Encode(cp)) && |Encode(cp)| == Size(Encode(cp)[0])
  {
    hide Encode;
    hide IsScalar;
    if cp == 0 {
      assert Encode(0) == [0] by { NulEncodes(); }
    } else {
      EncodeIsWellFormed(cp);
    }
  }

  lemma NulEncodes()
    ensures Encode(0) == [0]
  {}

  /** Filled up with the least bytes that fit. */
  function Completed(bytes: seq<byte>): seq<byte>
    requires Opens(bytes) && bytes != []
    decreases Size(bytes[0]) - |bytes|
  {
    if |bytes| == Size(bytes[0]) then bytes
    else Completed(bytes + [if |bytes| == 1 then Low(bytes[0]) else 0x80])
  }

  lemma {:induction false} CompletedIsChar(bytes: seq<byte>)
    requires Opens(bytes) && bytes != []
    ensures bytes <= Completed(bytes) && IsChar(Completed(bytes))
    decreases Size(bytes[0]) - |bytes|
  {
    hide IsChar;
    if |bytes| == Size(bytes[0]) {
      WholeIsChar(bytes);
    } else {
      var longer := bytes + [if |bytes| == 1 then Low(bytes[0]) else 0x80];
      CompletedIsChar(longer);
      assert bytes == longer[..|bytes|] == Completed(bytes)[..|bytes|];
    }
  }

  lemma WholeIsChar(bytes: seq<byte>)
    requires Opens(bytes) && bytes != [] && |bytes| == Size(bytes[0])
    ensures IsChar(bytes)
  {
    if bytes[0] == 0 {
      assert bytes == [0];
      NulEncodes();
    } else {
      assert WellFormed(bytes);
      EncodeOfValue(bytes);
    }
  }

  lemma BeginsIffOpens(bytes: seq<byte>)
    requires bytes != []
    ensures Begins(bytes) <==> Opens(bytes)
    ensures Opens(bytes) ==> |bytes| <= Size(bytes[0])
    ensures IsChar(bytes) <==> Opens(bytes) && |bytes| == Size(bytes[0])
  {
    hide Encode;
    hide IsScalar;
    if Begins(bytes) {
      var cp: nat :| IsScalar(cp) && bytes <= Encode(cp);
      EncodingOpens(cp);
      assert forall k :: 0 <= k < |bytes| ==> bytes[k] == Encode(cp)[k];
    }
    if Opens(bytes) {
      CompletedIsChar(bytes);
      var cp: nat :| IsScalar(cp) && Encode(cp) == Completed(bytes);
      assert bytes <= Encode(cp);
    }
    if IsChar(bytes) {
      var cp: nat :| IsScalar(cp) && Encode(cp) == bytes;
      EncodingOpens(cp);
    }
    if Opens(bytes) && |bytes| == Size(bytes[0]) {
      WholeIsChar(bytes);
    }
  }

  // ----- the decoder inside a character -----

  predicate Inside(s: State, bytes: seq<byte>)
    requires bytes != []
  {
    && s.needed == Size(bytes[0]) - 1 && s.seen == |bytes| - 1
    && s.lower == (if |bytes| == 1 then Low(bytes[0]) else 0x80)
    && s.upper == (if |bytes| == 1 then High(bytes[0]) else 0xBF)
    && s.(codePoint := 0, needed := 0, seen := 0, lower := 0x80, upper := 0xBF) == RESET
  }

  lemma {:induction false} PrefixIsEaten(t: Tables, bytes: seq<byte>) returns (s: State)
    requires t.Valid() && bytes != [] && Opens(bytes) && |bytes| < Size(bytes[0])
    ensures StateOk(KindUtf8, s) && Inside(s, bytes) && Eat(KindUtf8, t, RESET, bytes) == Fed(s, [])
    decreases |bytes|
  {
    hide Eat;
    if |bytes| == 1 {
      s := Utf8Step(RESET, bytes[0]).state;
      EatAhead(t, RESET, bytes[0], s);
      assert bytes == [bytes[0]];
    } else {
      var n := |bytes| - 1;
      var before := PrefixIsEaten(t, bytes[..n]);
      s := Utf8Step(before, bytes[n]).state;
      EatAhead(t, before, bytes[n], s);
      EatConcat(KindUtf8, t, RESET, bytes[..n], [bytes[n]]);
      assert bytes == bytes[..n] + [bytes[n]];
    }
  }

  lemma EatAhead(t: Tables, s: State, x: byte, next: State)
    requires t.Valid() && StateOk(KindUtf8, s) && Utf8Step(s, x) == Step(next, [], Continue)
    ensures StateOk(KindUtf8, next) && Eat(KindUtf8, t, s, [x]) == Fed(next, [])
  {
    EatMore(KindUtf8, t, s, x, next, []);
    assert [x] + [] == [x];
  }

  lemma BreaksOff(s: State, bytes: seq<byte>, x: Symbol)
    requires bytes != [] && Opens(bytes) && |bytes| < Size(bytes[0]) && Inside(s, bytes)
    requires x == EOS || !Opens(bytes + [x])
    ensures Utf8Step(s, x) == Step(RESET, if x == EOS then [] else [x], Error)
  {
    if x != EOS {
      var more := bytes + [x];
      assert more[0] == bytes[0];
      assert |bytes| >= 2 ==> more[1] == bytes[1];
      assert forall k :: 2 <= k < |bytes| ==> more[k] == bytes[k];
      assert more[|bytes|] == x;
    }
  }

  lemma StrayByte(x: byte)
    requires !Opens([x])
    ensures Utf8Step(RESET, x) == Step(RESET, [], Error)
  {}

  /** The front token is what the decoder hears first. */
  lemma Utf8TokenIsRead(c: Config, data: seq<byte>)
    requires c.Valid() && c.kind == KindUtf8 && data != []
    ensures var k := Utf8Token(data);
            && k.length <= |data|
            && Hear(c, RESET, data)
               == if k.bad then AfterError(c, RESET, data[k.length..])
                  else Hear(c, RESET, data[k.length..]).After(EncodeAll(k.text))
  {
    hide Hear;
    hide AfterError;
    hide IsChar;
    hide Longest;
    var n := Longest(data, 0);
    if IsChar(data[..n]) {
      CharIsRead(c, data, n);
    } else if n == 0 {
      StrayIsRead(c, data);
    } else {
      CutIsRead(c, data, n);
    }
  }

  lemma StrayIsRead(c: Config, data: seq<byte>)
    requires c.Valid() && c.kind == KindUtf8 && data != [] && Longest(data, 0) == 0
    ensures Hear(c, RESET, data) == AfterError(c, RESET, data[1..])
  {
    hide Eat;
    hide Hear;
    hide AfterError;
    hide IsChar;
    hide Begins;
    hide Opens;
    assert data[..1] == [data[0]];
    BeginsIffOpens([data[0]]);
    StrayByte(data[0]);
    NothingEaten(c.tables, data);
    BadIsRead(c, RESET, data, 0, 1, RESET, RESET);
  }

  lemma CutIsRead(c: Config, data: seq<byte>, n: nat)
    requires c.Valid() && c.kind == KindUtf8 && data != [] && n == Longest(data, 0) && n > 0 && !IsChar(data[..n])
    ensures n <= |data| && Hear(c, RESET, data) == AfterError(c, RESET, data[n..])
  {
    hide Eat;
    hide Hear;
    hide AfterError;
    hide IsChar;
    hide Begins;
    hide Opens;
    hide Inside;
    BeginsIffOpens(data[..n]);
    var s := PrefixIsEaten(c.tables, data[..n]);
    if n < |data| {
      assert data[..n + 1] == data[..n] + [data[n]];
      BeginsIffOpens(data[..n + 1]);
    }
    BreaksOff(s, data[..n], SymbolAt(data, n));
    assert data[n..Least(n + 1, |data|)] == if n < |data| then [data[n]] else [];
    BadIsRead(c, RESET, data, n, n, s, RESET);
  }

  lemma NothingEaten(t: Tables, data: seq<byte>)
    requires t.Valid()
    ensures Eat(KindUtf8, t, RESET, data[..0]) == Fed(RESET, [])
  {}

  lemma CharIsRead(c: Config, data: seq<byte>, n: nat)
    requires c.Valid() && c.kind == KindUtf8 && n <= |data| && n == Longest(data, 0) && data != [] && IsChar(data[..n])
    ensures var k := Utf8Token(data);
            k.length == n && !k.bad && Hear(c, RESET, data) == Hear(c, RESET, data[n..]).After(EncodeAll(k.text))
  {
    hide Eat;
    hide Hear;
    hide Longest;
    hide Encode;
    hide IsScalar;
    var k := Utf8Token(data);
    ScalarIsEaten(c.tables, k.text[0]);
    GoodIsRead(c, RESET, data, n, k.text, RESET);
  }
}
