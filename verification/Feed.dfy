/** Bytes that a decoder takes in with neither an error nor a byte pushed back. */
module Feed {
  import opened Utf8
  import opened DecoderSpec
  import opened DecodeRun

  datatype Fed = Rejected | Fed(state: State, cps: seq<nat>)

  predicate Clean(r: Step) {
    r.back == [] && (r.outcome == Continue || r.outcome.Emit?)
  }

  function Output(o: Outcome): seq<nat> {
    if o.Emit? then o.cps else []
  }

  /** The state reached and the code points emitted by a clean run over `bytes`. */
  function Eat(kind: Kind, t: Tables, s: State, bytes: seq<byte>): (f: Fed)
    requires t.Valid() && StateOk(kind, s)
    ensures f.Fed? ==> StateOk(kind, f.state)
    decreases |bytes|
  {
    if bytes == [] then Fed(s, [])
    else
      var r := DecoderStep(kind, t, s, bytes[0]);
      if !Clean(r) then Rejected
      else
        StepAccounts(kind, t, s, bytes[0]);
        match Eat(kind, t, r.state, bytes[1..])
        case Rejected => Rejected
        case Fed(s', cps) => Fed(s', Output(r.outcome) + cps)
  }

  lemma {:induction false} EatConcat(kind: Kind, t: Tables, s: State, a: seq<byte>, b: seq<byte>)
    requires t.Valid() && StateOk(kind, s)
    ensures var f := Eat(kind, t, s, a);
            Eat(kind, t, s, a + b) ==
            if f.Rejected? then Rejected
            else match Eat(kind, t, f.state, b)
                 case Rejected => Rejected
                 case Fed(s', cps) => Fed(s', f.cps + cps)
    decreases |a|
  {
    hide DecoderStep;
    if a == [] {
      assert a + b == b;
    } else {
      assert (a + b)[0] == a[0] && (a + b)[1..] == a[1..] + b;
      var r := DecoderStep(kind, t, s, a[0]);
      if Clean(r) {
        StepAccounts(kind, t, s, a[0]);
        EatConcat(kind, t, r.state, a[1..], b);
        var f := Eat(kind, t, r.state, a[1..]);
        if f.Fed? && Eat(kind, t, f.state, b).Fed? {
          var rest := Eat(kind, t, f.state, b).cps;
          assert Output(r.outcome) + (f.cps + rest) == (Output(r.outcome) + f.cps) + rest;
        }
      }
    }
  }

  /** One clean byte at the front of the input. */
  lemma CleanByte(c: Config, s: State, b: byte, more: seq<byte>, flush: bool)
    requires c.Valid() && StateOk(c.kind, s) && Reachable(c.kind, Snapshot(s, []))
    requires Clean(DecoderStep(c.kind, c.tables, s, b))
    ensures var r := DecoderStep(c.kind, c.tables, s, b);
            && Reachable(c.kind, Snapshot(r.state, []))
            && Decode(c, Snapshot(s, []), [b] + more, flush)
               == Decode(c, Snapshot(r.state, []), more, flush).After(EncodeAll(Output(r.outcome)))
  {
    hide DecoderStep;
    hide Decode;
    hide EncodeAll;
    var input := [b] + more;
    assert input[0] == b && input[1..] == more;
    StepAccounts(c.kind, c.tables, s, b);
    DecodeUnfolds(c, Snapshot(s, []), input, flush);
    NothingEncodes();
  }

  lemma NothingEncodes()
    ensures EncodeAll([]) == []
  {}

  /** Bytes eaten cleanly are decoded to exactly the emitted code points, whatever follows. */
  lemma {:induction false} EatenIsDecoded(c: Config, s: State, bytes: seq<byte>, rest: seq<byte>, flush: bool)
    requires c.Valid() && StateOk(c.kind, s) && Reachable(c.kind, Snapshot(s, []))
    requires Eat(c.kind, c.tables, s, bytes).Fed?
    ensures var f := Eat(c.kind, c.tables, s, bytes);
            && Reachable(c.kind, Snapshot(f.state, []))
            && Decode(c, Snapshot(s, []), bytes + rest, flush)
               == Decode(c, Snapshot(f.state, []), rest, flush).After(EncodeAll(f.cps))
    decreases |bytes|
  {
    hide DecoderStep;
    hide Decode;
    hide EncodeAll;
    if bytes == [] {
      NothingEncodes();
      assert bytes + rest == rest;
      var r := Decode(c, Snapshot(s, []), rest, flush);
      assert [] + r.out == r.out;
    } else {
      assert bytes + rest == [bytes[0]] + (bytes[1..] + rest);
      CleanByte(c, s, bytes[0], bytes[1..] + rest, flush);
      var r := DecoderStep(c.kind, c.tables, s, bytes[0]);
      EatenIsDecoded(c, r.state, bytes[1..], rest, flush);
      var g := Eat(c.kind, c.tables, r.state, bytes[1..]);
      EncodeAllConcat(Output(r.outcome), g.cps);
      var last := Decode(c, Snapshot(g.state, []), rest, flush);
      assert EncodeAll(Output(r.outcome)) + (EncodeAll(g.cps) + last.out)
          == (EncodeAll(Output(r.outcome)) + EncodeAll(g.cps)) + last.out;
    }
  }

  // ----- literal byte strings, one to four bytes long -----

  lemma EatOne(kind: Kind, t: Tables, s: State, b: byte, last: State, cps: seq<nat>)
    requires t.Valid() && StateOk(kind, s)
    requires DecoderStep(kind, t, s, b) == Step(last, [], Emit(cps))
    ensures Eat(kind, t, s, [b]) == Fed(last, cps)
  {
    hide DecoderStep;
    StepAccounts(kind, t, s, b);
    assert Eat(kind, t, last, []) == Fed(last, []);
    assert cps + [] == cps;
  }

  /** A byte that only changes the state, then more. */
  lemma EatMore(kind: Kind, t: Tables, s: State, b: byte, next: State, more: seq<byte>)
    requires t.Valid() && StateOk(kind, s)
    requires DecoderStep(kind, t, s, b) == Step(next, [], Continue)
    ensures StateOk(kind, next)
    ensures Eat(kind, t, s, [b] + more) == Eat(kind, t, next, more)
  {
    hide DecoderStep;
    StepAccounts(kind, t, s, b);
    assert ([b] + more)[0] == b && ([b] + more)[1..] == more;
    var f := Eat(kind, t, next, more);
    if f.Fed? {
      assert [] + f.cps == f.cps;
    }
  }

  lemma EatTwo(kind: Kind, t: Tables, s: State, b0: byte, s1: State, b1: byte, last: State, cps: seq<nat>)
    requires t.Valid() && StateOk(kind, s) && StateOk(kind, s1)
    requires DecoderStep(kind, t, s, b0) == Step(s1, [], Continue)
    requires DecoderStep(kind, t, s1, b1) == Step(last, [], Emit(cps))
    ensures Eat(kind, t, s, [b0, b1]) == Fed(last, cps)
  {
    hide DecoderStep;
    hide Eat;
    assert [b0, b1] == [b0] + [b1];
    EatMore(kind, t, s, b0, s1, [b1]);
    EatOne(kind, t, s1, b1, last, cps);
  }

  lemma EatThree(kind: Kind, t: Tables, s: State, b0: byte, s1: State, b1: byte, s2: State, b2: byte,
                 last: State, cps: seq<nat>)
    requires t.Valid() && StateOk(kind, s) && StateOk(kind, s1) && StateOk(kind, s2)
    requires DecoderStep(kind, t, s, b0) == Step(s1, [], Continue)
    requires DecoderStep(kind, t, s1, b1) == Step(s2, [], Continue)
    requires DecoderStep(kind, t, s2, b2) == Step(last, [], Emit(cps))
    ensures Eat(kind, t, s, [b0, b1, b2]) == Fed(last, cps)
  {
    hide DecoderStep;
    hide Eat;
    assert [b0, b1, b2] == [b0] + [b1, b2];
    EatMore(kind, t, s, b0, s1, [b1, b2]);
    EatTwo(kind, t, s1, b1, s2, b2, last, cps);
  }

  lemma EatFour(kind: Kind, t: Tables, s: State, b0: byte, s1: State, b1: byte, s2: State, b2: byte,
                s3: State, b3: byte, last: State, cps: seq<nat>)
    requires t.Valid() && StateOk(kind, s) && StateOk(kind, s1) && StateOk(kind, s2) && StateOk(kind, s3)
    requires DecoderStep(kind, t, s, b0) == Step(s1, [], Continue)
    requires DecoderStep(kind, t, s1, b1) == Step(s2, [], Continue)
    requires DecoderStep(kind, t, s2, b2) == Step(s3, [], Continue)
    requires DecoderStep(kind, t, s3, b3) == Step(last, [], Emit(cps))
    ensures Eat(kind, t, s, [b0, b1, b2, b3]) == Fed(last, cps)
  {
    hide DecoderStep;
    hide Eat;
    assert [b0, b1, b2, b3] == [b0] + [b1, b2, b3];
    EatMore(kind, t, s, b0, s1, [b1, b2, b3]);
    EatThree(kind, t, s1, b1, s2, b2, s3, b3, last, cps);
  }
}
