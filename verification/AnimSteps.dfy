/** One transition channel or one animation run: its fields, its moves, the events it emits. */
module AnimSteps {
  import opened Options

  datatype Phase = Idle | Before | Active | After

  datatype Kind =
    | Begin
    | Start(elapsed: real)
    | End(elapsed: real)
    | Cancel(elapsed: real)
    | Iteration(index: int)
    | ScriptFinish
    | ScriptCancel

  /** What a listener hears of one channel or run: nothing going on, or a start not yet ended and
      the last iteration announced since. */
  datatype Span = Closed | Open(last: int)

  /** The span after an event; nothing if the event is out of place. */
  function Hear(span: Span, k: Kind): Option<Span> {
    match k
    case Begin => if span.Closed? then Some(Closed) else None
    case Start(_) => if span.Closed? then Some(Open(0)) else None
    case End(_) => if span.Open? then Some(Closed) else None
    case Cancel(_) => Some(Closed)
    case Iteration(index) => if span.Open? && index > span.last then Some(Open(index)) else None
    case ScriptFinish => Some(span)
    case ScriptCancel => Some(span)
  }

  function Follow(span: Span, ks: seq<Kind>): Option<Span>
    decreases |ks|
  {
    if ks == [] then Some(span)
    else
      var next := Hear(span, ks[0]);
      if next == None then None else Follow(next.value, ks[1..])
  }

  lemma {:induction false} FollowConcat(span: Span, a: seq<Kind>, b: seq<Kind>)
    ensures Follow(span, a + b) == var mid := Follow(span, a); if mid == None then None else Follow(mid.value, b)
    decreases |a|
  {
    if a == [] {
      assert a + b == b;
    } else {
      assert (a + b)[0] == a[0] && (a + b)[1..] == a[1..] + b;
      var next := Hear(span, a[0]);
      if next.Some? { FollowConcat(next.value, a[1..], b); }
    }
  }

  /** What a move leaves: the entity, the events it emitted, and the engine's count of active entries. */
  datatype Out<T> = Out(entity: T, events: seq<Kind>, count: int)

  function Bit(b: bool): int { if b then 1 else 0 }

  /** The count taken down by one, guarded as everywhere in the engine. */
  function Less(count: int): int { if count > 0 then count - 1 else count }

  function Max(a: real, b: real): real { if a > b then a else b }
  function Min(a: real, b: real): real { if a < b then a else b }

  // ----- transition channels -----

  datatype Chan = Chan(
    active: bool, cancelled: bool, pending: bool, paused: bool, finished: bool, phase: Phase,
    start: real, duration: real, delay: real, pausedElapsed: real)

  const NEW_CHAN := Chan(false, false, false, false, false, Idle, 0.0, 0.0, 0.0, 0.0)

  /** Finished or cancelled channels are not active, and only an active one is before or in its interval. */
  predicate ChanOk(c: Chan) {
    && (c.active ==> !c.finished && !c.cancelled)
    && (c.cancelled ==> !c.finished)
    && (!c.active ==> c.phase == Idle || c.phase == After)
  }

  function ChanElapsed(c: Chan, now: real): real {
    if c.paused then c.pausedElapsed
    else if c.pending then -c.delay
    else (now - c.start) / 1000.0 - c.delay
  }

  function ChanPhaseAt(c: Chan, elapsed: real): Phase {
    if elapsed < 0.0 then Before else if elapsed >= c.duration then After else Active
  }

  function ChanPhaseEvents(c: Chan, cur: Phase): seq<Kind> {
    var startElapsed := Max(Min(-c.delay, c.duration), 0.0);
    if c.phase == cur then []
    else
      match cur
      case Active => [Start(if c.phase == After then c.duration else startElapsed)]
      case After => (if c.phase != Active then [Start(startElapsed)] else []) + [End(c.duration)]
      case Before => (if c.phase == After then [Start(c.duration)] else []) + (if c.phase != Idle then [End(0.0)] else [])
      case Idle => []
  }

  function AdvanceChan(c: Chan, count: int, now: real): Out<Chan> {
    var cur := ChanPhaseAt(c, ChanElapsed(c, now));
    var events := ChanPhaseEvents(c, cur);
    var moved := c.(phase := cur);
    if cur == After && c.active then Out(moved.(active := false, finished := true), events, Less(count))
    else Out(moved, events, count)
  }

  function CancelChan(c: Chan, count: int, now: real): Out<Chan> {
    var elapsed := Max(Min(ChanElapsed(c, now), c.duration), 0.0);
    Out(c.(active := false, phase := Idle), [Cancel(elapsed)], Less(count))
  }

  /** `duration` and `delay` are those of the style, shortened already where a transition reverses. */
  function StartChan(c: Chan, count: int, now: real, duration: real, delay: real): Out<Chan> {
    var was := if c.active then CancelChan(c, count, now) else Out(c, [], count);
    var begun := was.entity.(
      active := true, paused := false, finished := false, cancelled := false, pending := true, phase := Idle,
      start := now, duration := duration, delay := delay);
    var r := AdvanceChan(begun, was.count + 1, now);
    Out(r.entity, was.events + [Begin] + r.events, r.count)
  }

  function TickChan(c: Chan, count: int, now: real): Out<Chan> {
    if !c.active || c.paused then Out(c, [], count)
    else AdvanceChan(if c.pending then c.(pending := false, start := now) else c, count, now)
  }

  function SeekChan(c: Chan, count: int, now: real, ms: real): Out<Chan> {
    var sought := c.(pending := false,
                  pausedElapsed := if c.paused then ms - c.delay else c.pausedElapsed,
                  start := if c.paused then c.start else now - ms * 1000.0);
    if c.active then AdvanceChan(sought, count, now)
    else AdvanceChan(sought.(active := true, finished := false), count + 1, now)
  }

  datatype Op = Pause | Play | Finish | CancelOp

  function ControlChan(c: Chan, count: int, now: real, op: Op): Out<Chan> {
    if c.cancelled && op == Play then
      var r := AdvanceChan(c.(cancelled := false, active := true, finished := false, paused := false, phase := Idle, start := now),
                           count + 1, now);
      Out(r.entity, [Begin] + r.events, r.count)
    else if c.cancelled then Out(c, [], count)
    else
      match op
      case Pause => if c.paused then Out(c, [], count)
                    else Out(c.(pausedElapsed := ChanElapsed(c, now), pending := false, paused := true), [], count)
      case Play => if !c.paused then Out(c, [], count)
                   else Out(c.(start := now - (c.pausedElapsed + c.delay) * 1000.0, paused := false), [], count)
      case Finish =>
        var sought := c.(paused := false, pending := false, start := now - (c.delay + c.duration) * 1000.0);
        if c.active then AdvanceChan(sought, count, now) else Out(sought, [], count)
      case CancelOp =>
        var was := if c.active then CancelChan(c, count, now) else Out(c, [], count);
        Out(was.entity.(finished := false, cancelled := true), was.events, was.count)
  }

  /** What the comparison of two styles found for one property. */
  datatype Observation = Observation(
    changed: bool, runnable: bool, interpolable: bool, ancestor: bool, discrete: bool, duration: real, delay: real)

  const MAX_ACTIVE := 256

  function ObserveChan(c: Chan, count: int, now: real, o: Observation): Out<Chan> {
    if !o.changed then Out(c, [], count)
    else
      var canRun := o.runnable && (c.active || count < MAX_ACTIVE);
      if canRun && ((o.interpolable && !o.ancestor) || (!o.interpolable && o.discrete)) then
        StartChan(c, count, now, o.duration, o.delay)
      else if c.active then CancelChan(c, count, now)
      else Out(c, [], count)
  }

  /** The channel of a property no longer listed, or of an element no longer displayed. */
  function DropChan(c: Chan, count: int, now: real, hidden: bool): Out<Chan> {
    if c.active then
      var r := CancelChan(c, count, now);
      Out(r.entity.(cancelled := true, finished := if hidden then false else r.entity.finished), r.events, r.count)
    else if hidden then Out(c.(cancelled := true, finished := false), [], count)
    else Out(c, [], count)
  }

  // ----- the law of channels -----

  /** A start is heard open exactly while the phase is active. */
  function ChanSpan(c: Chan): bool { c.phase == Active }

  ghost predicate SpanFits(open: bool, span: Span) { span.Open? <==> open }

  /** A move keeps the channel consistent, its events in place, and the count in step. */
  ghost predicate ChanLaw(c: Chan, count: int, r: Out<Chan>) {
    && ChanOk(r.entity)
    && r.count == count + Bit(r.entity.active) - Bit(c.active)
    && forall span :: SpanFits(ChanSpan(c), span) ==>
         var after := Follow(span, r.events);
         after.Some? && SpanFits(ChanSpan(r.entity), after.value)
  }

  lemma FollowShort(span: Span, a: Kind, b: Kind)
    ensures Follow(span, []) == Some(span)
    ensures Follow(span, [a]) == Hear(span, a)
    ensures Follow(span, [a, b]) == var next := Hear(span, a); if next == None then None else Hear(next.value, b)
  {
    assert [a][1..] == [] && [b][1..] == [] && [a] + [b] == [a, b];
    FollowConcat(span, [a], [b]);
  }

  lemma AdvanceChanLaw(c: Chan, count: int, now: real)
    requires (c.active ==> !c.finished && !c.cancelled) && (c.cancelled ==> !c.finished) && c.active && count >= 1
    ensures ChanLaw(c, count, AdvanceChan(c, count, now))
  {
    var cur := ChanPhaseAt(c, ChanElapsed(c, now));
    var events := ChanPhaseEvents(c, cur);
    forall span | SpanFits(ChanSpan(c), span)
      ensures var after := Follow(span, events); after.Some? && SpanFits(cur == Active, after.value)
    {
      if |events| == 1 { FollowShort(span, events[0], events[0]); assert events == [events[0]]; }
      if |events| == 2 { FollowShort(span, events[0], events[1]); assert events == [events[0], events[1]]; }
      if |events| == 0 { FollowShort(span, Begin, Begin); }
    }
  }

  lemma CancelChanLaw(c: Chan, count: int, now: real)
    requires ChanOk(c) && c.active && count >= 1
    ensures ChanLaw(c, count, CancelChan(c, count, now))
    ensures !CancelChan(c, count, now).entity.active
  {
    var r := CancelChan(c, count, now);
    forall span ensures Follow(span, r.events) == Some(Closed) { FollowShort(span, r.events[0], Begin); }
  }

  /** Two moves after one another, with a `Begin` between them if a transition begins. */
  lemma ChanThen(c: Chan, count: int, a: Out<Chan>, mid: Chan, begin: bool, b: Out<Chan>)
    requires ChanLaw(c, count, a) && ChanLaw(mid, a.count + Bit(mid.active) - Bit(a.entity.active), b)
    requires ChanSpan(mid) == ChanSpan(a.entity) && (begin ==> !ChanSpan(mid))
    ensures ChanLaw(c, count, Out(b.entity, a.events + (if begin then [Begin] else []) + b.events, b.count))
  {
    forall span | SpanFits(ChanSpan(c), span)
      ensures var after := Follow(span, a.events + (if begin then [Begin] else []) + b.events);
              after.Some? && SpanFits(ChanSpan(b.entity), after.value)
    {
      FollowConcat(span, a.events, if begin then [Begin] else []);
      FollowConcat(span, a.events + (if begin then [Begin] else []), b.events);
      FollowShort(Follow(span, a.events).value, Begin, Begin);
    }
  }

  lemma StillChan(c: Chan, count: int, next: Chan)
    requires ChanOk(next) && next.active == c.active && ChanSpan(next) == ChanSpan(c)
    ensures ChanLaw(c, count, Out(next, [], count))
  {
    forall span ensures Follow(span, []) == Some(span) { FollowShort(span, Begin, Begin); }
  }

  lemma StartChanLaw(c: Chan, count: int, now: real, duration: real, delay: real)
    requires ChanOk(c) && count >= Bit(c.active)
    ensures ChanLaw(c, count, StartChan(c, count, now, duration, delay))
  {
    hide ChanLaw;
    hide AdvanceChan;
    var was := if c.active then CancelChan(c, count, now) else Out(c, [], count);
    if c.active { CancelChanLaw(c, count, now); } else { StillChan(c, count, c); }
    var begun := was.entity.(
      active := true, paused := false, finished := false, cancelled := false, pending := true, phase := Idle,
      start := now, duration := duration, delay := delay);
    CountAfter(c, count, was);
    AdvanceChanLaw(begun, was.count + 1, now);
    ChanThen(c, count, was, begun, true, AdvanceChan(begun, was.count + 1, now));
  }

  lemma CountAfter(c: Chan, count: int, r: Out<Chan>)
    requires ChanLaw(c, count, r)
    ensures r.count == count + Bit(r.entity.active) - Bit(c.active) && ChanOk(r.entity)
  {}

  lemma TickChanLaw(c: Chan, count: int, now: real)
    requires ChanOk(c) && count >= Bit(c.active)
    ensures ChanLaw(c, count, TickChan(c, count, now))
  {
    hide ChanLaw;
    hide AdvanceChan;
    if !c.active || c.paused {
      StillChan(c, count, c);
    } else {
      var begun := if c.pending then c.(pending := false, start := now) else c;
      AdvanceChanLaw(begun, count, now);
      Restated(c, count, begun, AdvanceChan(begun, count, now));
    }
  }

  /** A law about a channel with other times is a law about the channel. */
  lemma Restated(c: Chan, count: int, d: Chan, r: Out<Chan>)
    requires ChanLaw(d, count + Bit(d.active) - Bit(c.active), r) && ChanSpan(d) == ChanSpan(c)
    ensures ChanLaw(c, count, r)
  {}

  lemma SeekChanLaw(c: Chan, count: int, now: real, ms: real)
    requires ChanOk(c) && count >= Bit(c.active) && (c.active || c.finished)
    ensures ChanLaw(c, count, SeekChan(c, count, now, ms))
  {
    hide ChanLaw;
    hide AdvanceChan;
    var sought := c.(pending := false,
                     pausedElapsed := if c.paused then ms - c.delay else c.pausedElapsed,
                     start := if c.paused then c.start else now - ms * 1000.0);
    if c.active {
      AdvanceChanLaw(sought, count, now);
      Restated(c, count, sought, AdvanceChan(sought, count, now));
    } else {
      var begun := sought.(active := true, finished := false);
      AdvanceChanLaw(begun, count + 1, now);
      Restated(c, count, begun, AdvanceChan(begun, count + 1, now));
    }
  }

  lemma ControlChanLaw(c: Chan, count: int, now: real, op: Op)
    requires ChanOk(c) && count >= Bit(c.active)
    ensures ChanLaw(c, count, ControlChan(c, count, now, op))
  {
    hide ChanLaw;
    hide AdvanceChan;
    if c.cancelled && op == Play {
      var begun := c.(cancelled := false, active := true, finished := false, paused := false, phase := Idle, start := now);
      StillChan(c, count, c);
      AdvanceChanLaw(begun, count + 1, now);
      IdleAgain(c, count);
      ChanThen(c, count, Out(c.(phase := Idle), [], count), begun, true, AdvanceChan(begun, count + 1, now));
      assert [] + [Begin] == [Begin];
    } else if c.cancelled || op == Pause || op == Play {
      StillChan(c, count, ControlChan(c, count, now, op).entity);
    } else if op == Finish {
      var sought := c.(paused := false, pending := false, start := now - (c.delay + c.duration) * 1000.0);
      if c.active {
        AdvanceChanLaw(sought, count, now);
        Restated(c, count, sought, AdvanceChan(sought, count, now));
      } else {
        StillChan(c, count, sought);
      }
    } else {
      if c.active {
        CancelChanLaw(c, count, now);
        Amended(c, count, CancelChan(c, count, now), ControlChan(c, count, now, op).entity);
      } else {
        StillChan(c, count, ControlChan(c, count, now, op).entity);
      }
    }
  }

  lemma IdleAgain(c: Chan, count: int)
    requires ChanOk(c) && !c.active
    ensures ChanLaw(c, count, Out(c.(phase := Idle), [], count))
  {
    StillChan(c, count, c.(phase := Idle));
  }

  /** The entity may be given other marks that are as consistent. */
  lemma Amended(c: Chan, count: int, r: Out<Chan>, next: Chan)
    requires ChanLaw(c, count, r) && ChanOk(next) && next.active == r.entity.active && ChanSpan(next) == ChanSpan(r.entity)
    ensures ChanLaw(c, count, Out(next, r.events, r.count))
  {}

  lemma ObserveChanLaw(c: Chan, count: int, now: real, o: Observation)
    requires ChanOk(c) && count >= Bit(c.active)
    ensures ChanLaw(c, count, ObserveChan(c, count, now, o))
  {
    hide ChanLaw;
    hide StartChan;
    hide CancelChan;
    StillChan(c, count, c);
    StartChanLaw(c, count, now, o.duration, o.delay);
    if c.active { CancelChanLaw(c, count, now); }
  }

  lemma DropChanLaw(c: Chan, count: int, now: real, hidden: bool)
    requires ChanOk(c) && count >= Bit(c.active)
    ensures ChanLaw(c, count, DropChan(c, count, now, hidden))
  {
    hide ChanLaw;
    var r := DropChan(c, count, now, hidden);
    if c.active {
      CancelChanLaw(c, count, now);
      Amended(c, count, CancelChan(c, count, now), r.entity);
    } else {
      StillChan(c, count, r.entity);
    }
  }
}
