/** One animation run, from a style sheet or from script: its fields, its moves, its events. */
module AnimRuns {
  import opened Options
  import opened AnimSteps

  datatype Run = Run(
    script: bool, name: Option<string>, cancelledName: Option<string>,
    active: bool, paused: bool, cssPaused: bool, apiOverride: bool, finished: bool, pending: bool,
    phase: Phase, iters: int, elapsedBase: real,
    start: real, duration: real, delay: real, iterations: Option<real>)

  function NewRun(script: bool): Run {
    Run(script, None, None, false, false, false, false, false, false, Idle, 0, 0.0, 0.0, 0.0, 0.0, Some(0.0))
  }

  /** A run without a name is at rest, one with a name is active or finished, and a cancelled name is
      kept only without a name. Durations are never negative. */
  predicate RunOk(r: Run) {
    && r.duration >= 0.0
    && (r.active ==> !r.finished && r.name.Some?)
    && (r.name.Some? ==> r.active || r.finished)
    && (r.name == None ==> r.phase == Idle)
    && (r.cancelledName.Some? ==> r.name == None)
    && (r.script ==> r.phase == Idle)
  }

  function RunElapsed(r: Run, now: real): real {
    if r.paused then r.elapsedBase else if r.pending then -r.delay else (now - r.start) / 1000.0 - r.delay
  }

  function SetPaused(r: Run, paused: bool, now: real): Run {
    if paused && !r.paused then r.(elapsedBase := RunElapsed(r, now), paused := true)
    else if !paused && r.paused then r.(start := now - (r.elapsedBase + r.delay) * 1000.0, paused := false)
    else r
  }

  /** Real multiplication, by name. */
  function Times(a: real, b: real): real { a * b }

  /** The length of the active interval; none for an unending animation. */
  function ActiveMs(r: Run): Option<real> {
    if r.iterations == None then None else Some(Times(r.duration, r.iterations.value))
  }

  function Ceiling(x: real): int { -((-x).Floor) }

  function LastIteration(r: Run): (n: int)
    ensures n >= 0
  {
    if r.iterations == None || Ceiling(r.iterations.value) < 1 then 0 else Ceiling(r.iterations.value) - 1
  }

  predicate IsOver(r: Run, elapsed: real) {
    var active := ActiveMs(r);
    active.Some? && elapsed >= active.value
  }

  function RunPhaseAt(r: Run, elapsed: real): Phase {
    if elapsed < 0.0 then Before else if IsOver(r, elapsed) then After else Active
  }

  function AdvanceRun(r: Run, count: int, now: real): Out<Run> {
    var elapsed := RunElapsed(r, now);
    if r.name.Some? && elapsed >= 0.0 && (r.duration <= 0.0 || IsOver(r, elapsed)) && r.active then
      Out(r.(active := false, finished := true), [], Less(count))
    else Out(r, [], count)
  }

  const MANY := 1000000000.0

  function Reached(elapsed: real, duration: real): int
    requires duration > 0.0
  {
    Min(elapsed / duration, MANY).Floor
  }

  /** The events of a phase change. */
  function RunPhaseEvents(r: Run, cur: Phase, elapsed: real): seq<Kind> {
    var active := ActiveMs(r);
    var startElapsed := Max(if active.Some? then Min(-r.delay, active.value) else -r.delay, 0.0);
    var endElapsed := if active.Some? then active.value else elapsed;
    match cur
    case Active => [Start(if r.phase == After then endElapsed else startElapsed)]
    case After => (if r.phase != Active then [Start(startElapsed)] else []) + [End(endElapsed)]
    case Before => (if r.phase == After then [Start(endElapsed)] else []) + (if r.phase != Idle then [End(0.0)] else [])
    case Idle => []
  }

  /** The iteration in progress, as far as it is announced. */
  function Current(r: Run, elapsed: real): int
    requires r.duration > 0.0
  {
    var reached := Reached(elapsed, r.duration);
    if r.iterations.Some? && reached > LastIteration(r) then LastIteration(r) else reached
  }

  function Progress(r: Run, count: int, now: real): (out: Out<Run>)
    ensures forall i :: i in out.events && i.Iteration? ==>
              r.iters < i.index && (r.iterations.Some? ==> i.index <= LastIteration(r)) && r.phase == Active
  {
    if r.script then Out(r, if r.active then [] else [ScriptFinish], count)
    else if r.name == None then Out(r, [], count)
    else
      var elapsed := RunElapsed(r, now);
      var cur := RunPhaseAt(r, elapsed);
      if r.phase != cur then
        var iters := if cur != Active then r.iters
                     else if r.phase == After then LastIteration(r)
                     else Reached(elapsed, Max(r.duration, 0.000000001));
        Out(r.(phase := cur, iters := iters), RunPhaseEvents(r, cur, elapsed), count)
      else if cur == Active && r.duration > 0.0 && r.iters < Current(r, elapsed) then
        Out(r.(iters := Current(r, elapsed)), [Iteration(Current(r, elapsed))], count)
      else Out(r, [], count)
  }

  function AdvanceAndTell(r: Run, count: int, now: real): Out<Run> {
    var a := AdvanceRun(r, count, now);
    Progress(a.entity, a.count, now)
  }

  function CancelRun(r: Run, count: int, now: real): Out<Run> {
    var elapsed := RunElapsed(r, now);
    var at := if elapsed < 0.0 then 0.0 else if IsOver(r, elapsed) then ActiveMs(r).value else elapsed;
    var events := if r.name == None then [] else if r.script then [ScriptCancel] else if r.phase != Idle then [Cancel(at)] else [];
    Out(r.(active := false, name := None, finished := false, pending := false, phase := Idle), events,
        if r.active then Less(count) else count)
  }

  /** One item of an `animation` list; `known` if its keyframes exist. */
  datatype Item = Item(name: Option<string>, known: bool, duration: real, delay: real, iterations: Option<real>, paused: bool)

  function Configure(r: Run, e: Item): Run {
    r.(duration := e.duration, delay := e.delay, iterations := e.iterations)
  }

  function StartRun(r: Run, count: int, now: real, e: Item): Out<Run> {
    if !r.active && count >= MAX_ACTIVE then Out(r, [], count)
    else
      var begun := Configure(r, e).(
        name := e.name, cancelledName := None, start := now, active := true, paused := e.paused, cssPaused := e.paused,
        apiOverride := false, pending := !e.paused, finished := false, phase := Idle, iters := 0, elapsedBase := -e.delay);
      AdvanceAndTell(begun, if r.active then count else count + 1, now)
  }

  function TickRun(r: Run, count: int, now: real): Out<Run> {
    if !r.active then Out(r, [], count)
    else AdvanceAndTell(if r.pending then r.(pending := false, start := now) else r, count, now)
  }

  /** Reconciling a run with the item at its place in the list. */
  function ObserveRun(r: Run, count: int, now: real, e: Item): Out<Run> {
    if e.name == None || e.duration < 0.0 || !e.known then DropRun(r, count, now)
    else if r.cancelledName == e.name then Out(r, [], count)
    else
      var was := r.(cancelledName := None);
      if was.name == e.name then
        var changed := Configure(was, e);
        var paused := if e.paused != changed.cssPaused && !changed.apiOverride then SetPaused(changed, e.paused, now) else changed;
        Out(paused.(cssPaused := e.paused), [], count)
      else
        var c := if was.name.Some? then CancelRun(was, count, now) else Out(was, [], count);
        var s := StartRun(c.entity, c.count, now, e);
        Out(s.entity, c.events + s.events, s.count)
  }

  /** A run whose place in the list is gone or void. */
  function DropRun(r: Run, count: int, now: real): Out<Run> {
    var c := if r.name.Some? then CancelRun(r, count, now) else Out(r, [], count);
    Out(c.entity.(cancelledName := None), c.events, c.count)
  }

  function SeekRun(r: Run, count: int, now: real, ms: real): Out<Run> {
    if r.name == None then
      AdvanceAndTell(r.(name := r.cancelledName, cancelledName := None, active := true, finished := false, paused := true,
                        pending := false, elapsedBase := ms - r.delay), count + 1, now)
    else
      var sought := r.(pending := false,
                       elapsedBase := if r.paused then ms - r.delay else r.elapsedBase,
                       start := if r.paused then r.start else now - ms * 1000.0);
      if !r.active && r.finished then AdvanceAndTell(sought.(active := true, finished := false), count + 1, now)
      else AdvanceAndTell(sought, count, now)
  }

  function ControlRun(r: Run, count: int, now: real, op: Op): Out<Run> {
    match op
    case Pause =>
      if r.name == None then Out(r, [], count)
      else
        var changed := if r.pending then r.(pending := false, start := now) else r;
        Out(SetPaused(changed, true, now).(apiOverride := true), [], count)
    case Play =>
      if r.name == None then
        AdvanceRun(r.(apiOverride := true, name := r.cancelledName, cancelledName := None, active := true, finished := false,
                      paused := false, pending := true, start := now), count + 1, now)
      else
        var changed := SetPaused(r, false, now).(apiOverride := true);
        if !r.active && r.finished then Out(changed.(active := true, finished := false, start := now), [], count + 1)
        else Out(changed, [], count)
    case Finish =>
      if r.name == None then Out(r, [], count)
      else
        var total := r.delay + (if ActiveMs(r).Some? then ActiveMs(r).value else 0.0);
        AdvanceAndTell(r.(paused := false, pending := false, start := now - total * 1000.0), count, now)
    case CancelOp =>
      if r.name == None then Out(r, [], count)
      else
        var c := CancelRun(r, count, now);
        Out(c.entity.(cancelledName := r.name), c.events, c.count)
  }

  datatype Timing = Timing(duration: real, delay: real, iterations: Option<real>)

  /** A run handed to script: a free one of the element, started anew. */
  function StartScript(r: Run, count: int, now: real, t: Timing): Out<Run> {
    AdvanceRun(r.(name := Some(""), cancelledName := None, start := now, duration := Max(t.duration, 0.0), delay := t.delay,
                  iterations := if t.iterations.Some? && t.iterations.value < 0.0 then Some(0.0) else t.iterations,
                  active := true, paused := false, pending := true, finished := false, iters := 0, elapsedBase := 0.0),
               count + 1, now)
  }

  // ----- the law of runs -----

  /** A start is heard open exactly while the phase is active, with no later iteration announced. */
  ghost predicate RunFits(r: Run, span: Span) {
    if r.phase == Active then span.Open? && span.last <= r.iters else span.Closed?
  }

  ghost predicate RunLaw(r: Run, count: int, out: Out<Run>) {
    && RunOk(out.entity) && out.entity.script == r.script
    && out.count == count + Bit(out.entity.active) - Bit(r.active)
    && forall span :: RunFits(r, span) ==>
         var after := Follow(span, out.events);
         after.Some? && RunFits(out.entity, after.value)
  }

  lemma StillRun(r: Run, count: int, next: Run, extra: int)
    requires RunOk(next) && next.script == r.script && extra == Bit(next.active) - Bit(r.active)
    requires next.phase == r.phase && next.iters == r.iters
    ensures RunLaw(r, count, Out(next, [], count + extra))
  {
    forall span ensures Follow(span, []) == Some(span) { FollowShort(span, Begin, Begin); }
  }

  lemma RunThen(r: Run, count: int, a: Out<Run>, b: Out<Run>)
    requires RunLaw(r, count, a) && RunLaw(a.entity, a.count, b)
    ensures RunLaw(r, count, Out(b.entity, a.events + b.events, b.count))
  {
    forall span | RunFits(r, span)
      ensures var after := Follow(span, a.events + b.events); after.Some? && RunFits(b.entity, after.value)
    {
      FollowConcat(span, a.events, b.events);
    }
  }

  lemma AdvanceRunLaw(r: Run, count: int, now: real)
    requires RunOk(r) && count >= Bit(r.active)
    ensures RunLaw(r, count, AdvanceRun(r, count, now))
    ensures AdvanceRun(r, count, now).count >= Bit(AdvanceRun(r, count, now).entity.active)
  {
    hide IsOver;
    var out := AdvanceRun(r, count, now);
    StillRun(r, count, out.entity, Bit(out.entity.active) - Bit(r.active));
  }

  lemma ReachedIsNatural(elapsed: real, duration: real)
    requires elapsed >= 0.0 && duration > 0.0
    ensures Reached(elapsed, duration) >= 0
  {
    assert elapsed / duration >= 0.0;
  }

  lemma PhaseChangeFits(r: Run, cur: Phase, elapsed: real, iters: int, span: Span)
    requires cur != Idle && cur != r.phase && RunFits(r, span) && (cur == Active ==> iters >= 0)
    ensures var after := Follow(span, RunPhaseEvents(r, cur, elapsed));
            after.Some? && RunFits(r.(phase := cur, iters := iters), after.value)
  {
    hide ActiveMs;
    hide Max;
    hide Min;
    var es := RunPhaseEvents(r, cur, elapsed);
    if |es| == 0 { FollowShort(span, Begin, Begin); }
    if |es| == 1 { FollowShort(span, es[0], es[0]); assert es == [es[0]]; }
    if |es| == 2 { FollowShort(span, es[0], es[1]); assert es == [es[0], es[1]]; }
  }

  lemma ProgressLaw(r: Run, count: int, now: real)
    requires RunOk(r)
    ensures RunLaw(r, count, Progress(r, count, now))
  {
    hide IsOver;
    hide Reached;
    hide RunElapsed;
    hide Current;
    hide RunPhaseEvents;
    hide LastIteration;
    hide Max;
    var out, elapsed := Progress(r, count, now), RunElapsed(r, now);
    var slow := Max(r.duration, 0.000000001);
    PositiveMax(r.duration);
    if elapsed >= 0.0 { ReachedIsNatural(elapsed, slow); }
    forall span | RunFits(r, span)
      ensures var after := Follow(span, out.events); after.Some? && RunFits(out.entity, after.value)
    {
      if r.script || r.name == None || RunPhaseAt(r, elapsed) == r.phase {
        FollowShort(span, ScriptFinish, Begin);
        FollowShort(span, if out.events == [] then Begin else out.events[0], Begin);
      } else {
        PhaseChangeFits(r, RunPhaseAt(r, elapsed), elapsed, out.entity.iters, span);
      }
    }
  }

  lemma PositiveMax(d: real)
    ensures Max(d, 0.000000001) > 0.0
  {}

  lemma AdvanceAndTellLaw(r: Run, count: int, now: real)
    requires RunOk(r) && count >= Bit(r.active)
    ensures RunLaw(r, count, AdvanceAndTell(r, count, now))
  {
    hide RunLaw;
    hide AdvanceRun;
    hide Progress;
    var a := AdvanceRun(r, count, now);
    AdvanceRunLaw(r, count, now);
    LawGives(r, count, a);
    ProgressLaw(a.entity, a.count, now);
    var b := Progress(a.entity, a.count, now);
    RunThen(r, count, a, b);
    NoEvents(r, count, now);
    assert [] + b.events == b.events;
  }

  lemma NoEvents(r: Run, count: int, now: real)
    ensures AdvanceRun(r, count, now).events == []
  {}

  lemma LawGives(r: Run, count: int, out: Out<Run>)
    requires RunLaw(r, count, out)
    ensures RunOk(out.entity) && out.entity.script == r.script && out.count == count + Bit(out.entity.active) - Bit(r.active)
  {}

  /** A move of the run as it was rewritten is a move of the run. */
  lemma RunRestated(r: Run, count: int, d: Run, out: Out<Run>)
    requires RunLaw(d, count + Bit(d.active) - Bit(r.active), out)
    requires d.script == r.script && (r.phase == Active ==> d.phase == Active && r.iters <= d.iters)
    requires r.phase != Active ==> d.phase != Active
    ensures RunLaw(r, count, out)
  {
    forall span | RunFits(r, span)
      ensures var after := Follow(span, out.events); after.Some? && RunFits(out.entity, after.value)
    {
      assert RunFits(d, span);
    }
  }

  lemma CancelRunLaw(r: Run, count: int, now: real)
    requires RunOk(r) && count >= Bit(r.active)
    ensures RunLaw(r, count, CancelRun(r, count, now))
  {
    hide IsOver;
    hide ActiveMs;
    var out := CancelRun(r, count, now);
    forall span | RunFits(r, span)
      ensures var after := Follow(span, out.events); after.Some? && RunFits(out.entity, after.value)
    {
      if |out.events| == 1 {
        FollowShort(span, out.events[0], Begin);
        assert out.events == [out.events[0]];
      } else {
        FollowShort(span, Begin, Begin);
      }
    }
  }

  lemma StartRunLaw(r: Run, count: int, now: real, e: Item)
    requires RunOk(r) && r.name == None && !r.script && e.name.Some? && e.duration >= 0.0 && count >= 0
    ensures RunLaw(r, count, StartRun(r, count, now, e))
  {
    hide RunLaw;
    hide AdvanceAndTell;
    if count >= MAX_ACTIVE {
      StillRun(r, count, r, 0);
    } else {
      var begun := Configure(r, e).(
        name := e.name, cancelledName := None, start := now, active := true, paused := e.paused, cssPaused := e.paused,
        apiOverride := false, pending := !e.paused, finished := false, phase := Idle, iters := 0, elapsedBase := -e.delay);
      AdvanceAndTellLaw(begun, count + 1, now);
      RunRestated(r, count, begun, AdvanceAndTell(begun, count + 1, now));
    }
  }

  lemma TickRunLaw(r: Run, count: int, now: real)
    requires RunOk(r) && count >= Bit(r.active)
    ensures RunLaw(r, count, TickRun(r, count, now))
  {
    hide RunLaw;
    hide AdvanceAndTell;
    if !r.active {
      StillRun(r, count, r, 0);
    } else {
      var begun := if r.pending then r.(pending := false, start := now) else r;
      AdvanceAndTellLaw(begun, count, now);
      RunRestated(r, count, begun, AdvanceAndTell(begun, count, now));
    }
  }

  lemma DropRunLaw(r: Run, count: int, now: real)
    requires RunOk(r) && count >= Bit(r.active)
    ensures RunLaw(r, count, DropRun(r, count, now))
    ensures DropRun(r, count, now).entity.name == None && DropRun(r, count, now).entity.cancelledName == None
  {
    var c := if r.name.Some? then CancelRun(r, count, now) else Out(r, [], count);
    if r.name.Some? { CancelRunLaw(r, count, now); } else { StillRun(r, count, r, 0); }
    hide RunLaw;
    LawGives(r, count, c);
    StillRun(c.entity, c.count, c.entity.(cancelledName := None), 0);
    RunThen(r, count, c, Out(c.entity.(cancelledName := None), [], c.count));
    assert c.events + [] == c.events;
  }

  lemma ObserveRunLaw(r: Run, count: int, now: real, e: Item)
    requires RunOk(r) && !r.script && count >= Bit(r.active)
    ensures RunLaw(r, count, ObserveRun(r, count, now, e))
  {
    hide RunLaw;
    hide CancelRun;
    hide StartRun;
    hide DropRun;
    var out := ObserveRun(r, count, now, e);
    if e.name == None || e.duration < 0.0 || !e.known {
      DropRunLaw(r, count, now);
    } else if r.cancelledName == e.name {
      StillRun(r, count, r, 0);
    } else if r.name == e.name {
      StillRun(r, count, out.entity, 0);
    } else {
      RestartLaw(r, count, now, e);
    }
  }

  lemma RestartLaw(r: Run, count: int, now: real, e: Item)
    requires RunOk(r) && !r.script && count >= Bit(r.active) && e.name.Some? && e.duration >= 0.0 && r.name != e.name
    ensures var was := r.(cancelledName := None);
            var c := if was.name.Some? then CancelRun(was, count, now) else Out(was, [], count);
            var s := StartRun(c.entity, c.count, now, e);
            RunLaw(r, count, Out(s.entity, c.events + s.events, s.count))
  {
    hide RunLaw;
    hide StartRun;
    var was := r.(cancelledName := None);
    var c := if was.name.Some? then CancelRun(was, count, now) else Out(was, [], count);
    if was.name.Some? { CancelRunLaw(was, count, now); } else { StillRun(was, count, was, 0); }
    RunRestated(r, count, was, c);
    LawGives(r, count, c);
    StartRunLaw(c.entity, c.count, now, e);
    RunThen(r, count, c, StartRun(c.entity, c.count, now, e));
  }

  lemma SeekRunLaw(r: Run, count: int, now: real, ms: real)
    requires RunOk(r) && count >= Bit(r.active) && (r.name.Some? || r.cancelledName.Some?)
    ensures RunLaw(r, count, SeekRun(r, count, now, ms))
  {
    hide RunLaw;
    hide AdvanceAndTell;
    if r.name == None {
      var begun := r.(name := r.cancelledName, cancelledName := None, active := true, finished := false, paused := true,
                      pending := false, elapsedBase := ms - r.delay);
      AdvanceAndTellLaw(begun, count + 1, now);
      RunRestated(r, count, begun, AdvanceAndTell(begun, count + 1, now));
    } else {
      var sought := r.(pending := false,
                       elapsedBase := if r.paused then ms - r.delay else r.elapsedBase,
                       start := if r.paused then r.start else now - ms * 1000.0);
      var begun := if !r.active && r.finished then sought.(active := true, finished := false) else sought;
      var n := count + Bit(begun.active) - Bit(r.active);
      AdvanceAndTellLaw(begun, n, now);
      RunRestated(r, count, begun, AdvanceAndTell(begun, n, now));
    }
  }

  lemma ControlRunLaw(r: Run, count: int, now: real, op: Op)
    requires RunOk(r) && count >= Bit(r.active) && (r.name.Some? || r.cancelledName.Some?)
    ensures RunLaw(r, count, ControlRun(r, count, now, op))
  {
    hide RunLaw;
    hide AdvanceAndTell;
    hide AdvanceRun;
    hide CancelRun;
    hide ActiveMs;
    var out := ControlRun(r, count, now, op);
    if r.name == None && op == Play {
      var begun := r.(apiOverride := true, name := r.cancelledName, cancelledName := None, active := true, finished := false,
                      paused := false, pending := true, start := now);
      AdvanceRunLaw(begun, count + 1, now);
      RunRestated(r, count, begun, AdvanceRun(begun, count + 1, now));
    } else if r.name == None || op == Pause || op == Play {
      StillRun(r, count, out.entity, Bit(out.entity.active) - Bit(r.active));
    } else if op == Finish {
      var total := r.delay + (if ActiveMs(r).Some? then ActiveMs(r).value else 0.0);
      var sought := r.(paused := false, pending := false, start := now - total * 1000.0);
      AdvanceAndTellLaw(sought, count, now);
      RunRestated(r, count, sought, AdvanceAndTell(sought, count, now));
    } else {
      CancelRunLaw(r, count, now);
      AtRest(r, count, now);
      Renamed(r, count, CancelRun(r, count, now), r.name);
    }
  }

  lemma AtRest(r: Run, count: int, now: real)
    ensures CancelRun(r, count, now).entity.name == None
  {}

  lemma Renamed(r: Run, count: int, out: Out<Run>, name: Option<string>)
    requires RunLaw(r, count, out) && out.entity.name == None
    ensures RunLaw(r, count, Out(out.entity.(cancelledName := name), out.events, out.count))
  {
    forall span | RunFits(r, span)
      ensures var after := Follow(span, out.events); after.Some? && RunFits(out.entity.(cancelledName := name), after.value)
    {}
  }

  lemma StartScriptLaw(r: Run, count: int, now: real, t: Timing)
    requires RunOk(r) && r.script && r.name == None && count >= 0
    ensures RunLaw(r, count, StartScript(r, count, now, t))
  {
    hide RunLaw;
    hide AdvanceRun;
    var begun := r.(name := Some(""), cancelledName := None, start := now, duration := Max(t.duration, 0.0), delay := t.delay,
                    iterations := if t.iterations.Some? && t.iterations.value < 0.0 then Some(0.0) else t.iterations,
                    active := true, paused := false, pending := true, finished := false, iters := 0, elapsedBase := 0.0);
    AdvanceRunLaw(begun, count + 1, now);
    RunRestated(r, count, begun, AdvanceRun(begun, count + 1, now));
  }
}
