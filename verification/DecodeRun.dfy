/** A whole decode, however the input is cut. */
module DecodeRun {
  import opened Utf8
  import opened DecoderSpec

  datatype Config = Config(kind: Kind, tables: Tables, fatal: bool) {
    predicate Valid() { tables.Valid() }
  }

  /** The decoder between two symbols: its state and the bytes queued to be read again. */
  datatype Snapshot = Snapshot(state: State, queue: seq<byte>)

  const START := Snapshot(RESET, [])

  ghost predicate Reachable(kind: Kind, d: Snapshot) {
    && StateOk(kind, d.state)
    && Held(kind, d.state) + |d.queue| <= 3
    && (kind == KindReplacement ==> d.queue == [])
  }

  /** What a decode call leaves behind: the decoder, the text appended, and the value returned. */
  datatype Run = Run(decoder: Snapshot, out: seq<byte>, ok: bool) {
    function After(prefix: seq<byte>): Run {
      this.(out := prefix + out)
    }
  }

  /** One turn of the decode loop: where the symbol comes from and what it does. */
  datatype Turn = Turn(decoder: Snapshot, rest: seq<byte>, outcome: Outcome)

  function TakeTurn(c: Config, d: Snapshot, input: seq<byte>): (t: Turn)
    requires c.Valid() && Reachable(c.kind, d)
    ensures Reachable(c.kind, t.decoder)
    ensures t.outcome == Finished || InFlight(c.kind, t.decoder, t.rest) < InFlight(c.kind, d, input)
            || (InFlight(c.kind, t.decoder, t.rest) == InFlight(c.kind, d, input)
                && |t.decoder.queue| + |t.rest| < |d.queue| + |input|)
    ensures d.queue == [] && input == [] ==> t.rest == []
  {
    var x: Symbol := if d.queue != [] then d.queue[0] else if input != [] then input[0] else EOS;
    var queue := if d.queue != [] then d.queue[1..] else [];
    var rest := if d.queue == [] && input != [] then input[1..] else input;
    var r := DecoderStep(c.kind, c.tables, d.state, x);
    StepAccounts(c.kind, c.tables, d.state, x);
    Turn(Snapshot(r.state, r.back + queue), rest, r.outcome)
  }

  /** Bytes read or readable that no output accounts for yet. */
  function InFlight(kind: Kind, d: Snapshot, input: seq<byte>): nat {
    Held(kind, d.state) + |d.queue| + |input|
  }

  const REPLACEMENT_CHARACTER := 0xFFFD

  /** The text one outcome appends. */
  function Appended(o: Outcome): seq<byte> {
    match o
    case Emit(cps) => EncodeAll(cps)
    case Error => Encode(REPLACEMENT_CHARACTER)
    case _ => []
  }

  /** Stepping until the input runs out, or to the end of the stream when `flush` is set.
      The decreases clause is the loop's termination measure. */
  function Decode(c: Config, d: Snapshot, input: seq<byte>, flush: bool): (r: Run)
    requires c.Valid() && Reachable(c.kind, d)
    ensures Reachable(c.kind, r.decoder)
    decreases InFlight(c.kind, d, input), |d.queue| + |input|
  {
    if d.queue == [] && input == [] && !flush then Run(d, [], true)
    else
      var t := TakeTurn(c, d, input);
      if t.outcome == Finished then Run(t.decoder, [], true)
      else if t.outcome == Error && c.fatal then Run(t.decoder, [], false)
      else Decode(c, t.decoder, t.rest, flush).After(Appended(t.outcome))
  }

  /** Pieces fed one after the other, only the last one flushed; a fatal error ends it. */
  function DecodePieces(c: Config, d: Snapshot, pieces: seq<seq<byte>>, flush: bool): (r: Run)
    requires c.Valid() && Reachable(c.kind, d)
    decreases |pieces|
  {
    if pieces == [] then Decode(c, d, [], flush)
    else
      var first := Decode(c, d, pieces[0], false);
      if !first.ok then first
      else DecodePieces(c, first.decoder, pieces[1..], flush).After(first.out)
  }

  function Concat(pieces: seq<seq<byte>>): seq<byte> {
    if pieces == [] then [] else pieces[0] + Concat(pieces[1..])
  }

  /** A turn that finds a byte does not look past it. */
  lemma TurnIsLocal(c: Config, d: Snapshot, a: seq<byte>, b: seq<byte>)
    requires c.Valid() && Reachable(c.kind, d) && (d.queue != [] || a != [])
    ensures TakeTurn(c, d, a + b) == TakeTurn(c, d, a).(rest := TakeTurn(c, d, a).rest + b)
  {
    hide DecoderStep;
    if d.queue == [] {
      assert (a + b)[0] == a[0] && (a + b)[1..] == a[1..] + b;
    }
  }

  /** Only a replacement decoder finishes before the end of the stream. */
  lemma OnlyReplacementFinishes(kind: Kind, t: Tables, s: State, x: byte)
    requires t.Valid() && StateOk(kind, s)
    ensures DecoderStep(kind, t, s, x).outcome == Finished ==> kind == KindReplacement && s.replaced
  {}

  lemma OnlyReplacementFinishesEarly(c: Config, d: Snapshot, input: seq<byte>)
    requires c.Valid() && Reachable(c.kind, d) && (d.queue != [] || input != [])
    ensures TakeTurn(c, d, input).outcome == Finished ==>
              c.kind == KindReplacement && d.queue == [] && d.state.replaced
  {
    hide DecoderStep;
    OnlyReplacementFinishes(c.kind, c.tables, d.state, if d.queue != [] then d.queue[0] else input[0]);
  }

  /** A replacement decoder that has spoken ignores everything after. */
  lemma {:induction false} ReplacementIsDone(c: Config, d: Snapshot, input: seq<byte>, flush: bool)
    requires c.Valid() && c.kind == KindReplacement && d.queue == [] && d.state.replaced
    ensures Decode(c, d, input, flush) == Run(d, [], true)
  {}

  /** The rest of a decode whose first turn is `t`. */
  function FromTurn(c: Config, t: Turn, flush: bool): Run
    requires c.Valid() && Reachable(c.kind, t.decoder)
  {
    if t.outcome == Finished then Run(t.decoder, [], true)
    else if t.outcome == Error && c.fatal then Run(t.decoder, [], false)
    else Decode(c, t.decoder, t.rest, flush).After(Appended(t.outcome))
  }

  lemma DecodeUnfolds(c: Config, d: Snapshot, input: seq<byte>, flush: bool)
    requires c.Valid() && Reachable(c.kind, d) && (d.queue != [] || input != [] || flush)
    ensures Decode(c, d, input, flush) == FromTurn(c, TakeTurn(c, d, input), flush)
  {
    hide TakeTurn;
  }

  lemma DecodeNothing(c: Config, d: Snapshot)
    requires c.Valid() && Reachable(c.kind, d) && d.queue == []
    ensures Decode(c, d, [], false) == Run(d, [], true)
  {}

  /** One piece, then the other. */
  function InTwo(c: Config, d: Snapshot, a: seq<byte>, b: seq<byte>, flush: bool): Run
    requires c.Valid() && Reachable(c.kind, d)
  {
    var first := Decode(c, d, a, false);
    if first.ok then Decode(c, first.decoder, b, flush).After(first.out) else first
  }

  /** Cutting the input anywhere changes neither the text, nor the decoder, nor the verdict. */
  lemma {:induction false} ChunkIndependent(c: Config, d: Snapshot, a: seq<byte>, b: seq<byte>, flush: bool)
    requires c.Valid() && Reachable(c.kind, d)
    ensures Decode(c, d, a + b, flush) == InTwo(c, d, a, b, flush)
    decreases InFlight(c.kind, d, a), |d.queue| + |a|
  {
    hide Decode;
    hide TakeTurn;
    hide Appended;
    if d.queue == [] && a == [] {
      assert a + b == b;
      DecodeNothing(c, d);
      assert [] + Decode(c, d, b, flush).out == Decode(c, d, b, flush).out;
    } else {
      TurnIsLocal(c, d, a, b);
      OnlyReplacementFinishesEarly(c, d, a);
      DecodeUnfolds(c, d, a, false);
      DecodeUnfolds(c, d, a + b, flush);
      var t := TakeTurn(c, d, a);
      if t.outcome == Finished {
        ReplacementIsDone(c, d, a, false);
        ReplacementIsDone(c, d, a + b, flush);
        ReplacementIsDone(c, d, b, flush);
      } else if !(t.outcome == Error && c.fatal) {
        ChunkIndependent(c, t.decoder, t.rest, b, flush);
        var tail := Decode(c, t.decoder, t.rest, false);
        if tail.ok {
          var last := Decode(c, tail.decoder, b, flush);
          assert Appended(t.outcome) + (tail.out + last.out) == (Appended(t.outcome) + tail.out) + last.out;
        }
      }
    }
  }

  /** Any way of cutting the input into any number of pieces is equivalent to not cutting it. */
  lemma {:induction false} PiecesIndependent(c: Config, d: Snapshot, pieces: seq<seq<byte>>, flush: bool)
    requires c.Valid() && Reachable(c.kind, d)
    decreases |pieces|
    ensures DecodePieces(c, d, pieces, flush) == Decode(c, d, Concat(pieces), flush)
  {
    hide Decode;
    if pieces != [] {
      ChunkIndependent(c, d, pieces[0], Concat(pieces[1..]), flush);
      var first := Decode(c, d, pieces[0], false);
      if first.ok {
        PiecesIndependent(c, first.decoder, pieces[1..], flush);
      }
    }
  }
}
