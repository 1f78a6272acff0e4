/** Inactive animations left in their active phase. */
module AnimStranded {
  import opened Options
  import opened AnimSteps
  import opened AnimRuns
  import opened AnimLog
  import opened AnimMoves
  import opened AnimEngine

  /** For animations, unlike transitions, the phase does not follow activity. */
  predicate Stranded(r: Run) { !r.active && r.phase == Active }

  // ----- exactly when -----

  /** An animation that has been advanced is stranded if and only if its active interval has begun
      and not ended, and it was inactive already or takes no time. */
  lemma PhaseFollowsActivity(r: Run, count: int, now: real)
    requires RunOk(r) && r.name.Some? && !r.script
    ensures var elapsed := RunElapsed(r, now);
            Stranded(AdvanceAndTell(r, count, now).entity)
            <==> elapsed >= 0.0 && !IsOver(r, elapsed) && (r.active ==> r.duration == 0.0)
  {
    hide RunPhaseEvents;
    hide Current;
    var a := AdvanceRun(r, count, now).entity;
    assert RunElapsed(a, now) == RunElapsed(r, now) && ActiveMs(a) == ActiveMs(r);
  }

  /** An interval of no duration ends as soon as it begins, unless it never ends. */
  lemma NoTime(r: Run, elapsed: real)
    requires r.duration == 0.0 && elapsed >= 0.0
    ensures IsOver(r, elapsed) <==> r.iterations.Some?
  {
    if r.iterations.Some? { assert Times(r.duration, r.iterations.value) == 0.0; }
  }

  predicate IsEndlessInstant(r: Run) { r.iterations == None && r.duration == 0.0 }

  /** A frame strands a run that never ends, takes no time, and has begun; it leaves others as they were. */
  lemma TickStrands(r: Run, count: int, now: real)
    requires RunOk(r) && !r.script
    ensures Stranded(TickRun(r, count, now).entity)
            <==> if r.active then IsEndlessInstant(r) && (if r.pending && !r.paused then -r.delay else RunElapsed(r, now)) >= 0.0
                 else Stranded(r)
  {
    if r.active {
      hide AdvanceAndTell;
      var begun := if r.pending then r.(pending := false, start := now) else r;
      PhaseFollowsActivity(begun, count, now);
      if begun.duration == 0.0 && RunElapsed(begun, now) >= 0.0 { NoTime(begun, RunElapsed(begun, now)); }
    }
  }

  /** Finishing strands an endless run that is inactive already or takes no time: there is no end to
      put it at, and it is put where its active interval begins. */
  lemma FinishStrands(r: Run, count: int, now: real)
    requires RunOk(r) && r.name.Some? && !r.script
    ensures Stranded(ControlRun(r, count, now, Finish).entity) <==> r.iterations == None && (r.active ==> r.duration == 0.0)
  {
    hide AdvanceAndTell;
    var active := if ActiveMs(r).Some? then ActiveMs(r).value else 0.0;
    var begun := r.(paused := false, pending := false, start := now - (r.delay + active) * 1000.0);
    assert ActiveMs(begun) == ActiveMs(r) && RunElapsed(begun, now) == active;
    PhaseFollowsActivity(begun, count, now);
  }

  /** The other controls strand nothing, and playing a finished run that is stranded frees it. */
  lemma OtherControlsStrand(r: Run, count: int, now: real, op: Op)
    requires RunOk(r) && (r.name.Some? || r.cancelledName.Some?) && !r.script && op != Finish
    ensures Stranded(ControlRun(r, count, now, op).entity) <==> Stranded(r) && op == Pause
  {}

  /** Seeking strands a run that never ends and takes no time, at or after its beginning. */
  lemma SeekStrands(r: Run, count: int, now: real, ms: real)
    requires RunOk(r) && (r.name.Some? || r.cancelledName.Some?) && !r.script
    ensures Stranded(SeekRun(r, count, now, ms).entity) <==> IsEndlessInstant(r) && ms >= r.delay
  {
    hide AdvanceAndTell;
    var sought :=
      if r.name == None then
        r.(name := r.cancelledName, cancelledName := None, active := true, finished := false, paused := true,
           pending := false, elapsedBase := ms - r.delay)
      else
        r.(pending := false, elapsedBase := if r.paused then ms - r.delay else r.elapsedBase,
           start := if r.paused then r.start else now - ms * 1000.0, active := true, finished := false);
    assert RunElapsed(sought, now) == ms - r.delay;
    PhaseFollowsActivity(sought, if r.active then count else count + 1, now);
    if sought.duration == 0.0 && ms >= r.delay { NoTime(sought, ms - r.delay); }
  }

  /** The list entry names the animation the run already is. */
  predicate Stays(r: Run, e: Item) {
    e.name.Some? && e.duration >= 0.0 && e.known && r.cancelledName != e.name && r.name == e.name
  }

  /** The list entry names another animation than the run is, or was when it was cancelled. */
  predicate Restarts(r: Run, e: Item) {
    e.name.Some? && e.duration >= 0.0 && e.known && r.cancelledName != e.name && r.name != e.name
  }

  predicate StrandsAtStart(e: Item, count: int) {
    e.iterations == None && e.duration == 0.0 && e.delay <= 0.0 && count < MAX_ACTIVE
  }

  /** A style change strands a run it starts with no delay, no end and no duration, unless too many are
      active; a run that goes on being the same animation stays stranded, whatever its timing becomes. */
  lemma ObserveStrands(r: Run, count: int, now: real, e: Item)
    requires RunOk(r) && !r.script
    ensures Stranded(ObserveRun(r, count, now, e).entity)
            <==> ((Stays(r, e) && Stranded(r)) || (Restarts(r, e) && StrandsAtStart(e, if r.active then Less(count) else count)))
  {
    hide AdvanceAndTell;
    hide CancelRun;
    CancelLeaves(r, count, now);
    CancelLeaves(r.(cancelledName := None), count, now);
    if Restarts(r, e) {
      var was := r.(cancelledName := None);
      var c := if was.name.Some? then CancelRun(was, count, now) else Out(was, [], count);
      StartStrands(c.entity, c.count, now, e);
    }
  }

  lemma CancelLeaves(r: Run, count: int, now: real)
    requires RunOk(r) && !r.script
    ensures var c := CancelRun(r, count, now);
            && RunOk(c.entity) && c.entity.name == None && !c.entity.active && !c.entity.script && c.entity.phase == Idle
            && c.count == if r.active then Less(count) else count
  {}

  lemma StartStrands(r: Run, count: int, now: real, e: Item)
    requires RunOk(r) && r.name == None && !r.script && e.name.Some? && e.duration >= 0.0
    ensures Stranded(StartRun(r, count, now, e).entity)
            <==> StrandsAtStart(e, count)
  {
    hide AdvanceAndTell;
    var begun := Configure(r, e).(
      name := e.name, cancelledName := None, start := now, active := true, paused := e.paused, cssPaused := e.paused,
      apiOverride := false, pending := !e.paused, finished := false, phase := Idle, iters := 0, elapsedBase := -e.delay);
    PhaseFollowsActivity(begun, count + 1, now);
    if e.duration == 0.0 && e.delay <= 0.0 { NoTime(begun, -e.delay); }
  }

  // ----- two histories that strand an animation -----

  /** Observing a list of one animation, on an element without transitions. */
  lemma OneItem(s: State, count: int, r: Run, e: Item, now: real)
    requires s.chans == [] && ((s.runs == [] && r == NewRun(false)) || s.runs == [r])
    requires IsHandle(ObserveRun(r, count, now, e).entity)
    ensures var m, out := ObserveState(s, count, [], [e], now, false), ObserveRun(r, count, now, e);
            m.state == s.(runs := [out.entity]) && m.count == out.count
  {
    hide ObserveRun;
    var a := ObserveListed(s, count, [], now);
    assert ObserveAllChans(s, count, [], now, false).state == s;
    var m := ObserveRunIn(s, count, 0, e, now);
    assert m.state.runs == [ObserveRun(r, count, now, e).entity];
    assert ObserveItems(m.state, m.count, 1, [e], now) == Moved(m.state, m.count, []);
  }

  /** A style that starts an animation without end or duration strands it at once. */
  method StrandedByStyle(n: Node) returns (e: Engine)
    ensures e.Valid() && n in e.states && |e.states[n].runs| == 1 && Stranded(e.states[n].runs[0])
  {
    hide ObserveState;
    hide ObserveRun;
    var item := Item(Some("spin"), true, 0.0, 0.0, None, false);
    e := new Engine();
    ghost var s := StateOrNew(e.states, e.next, n);
    ObserveStrands(NewRun(false), 0, 0.0, item);
    Named(NewRun(false), 0.0, item);
    OneItem(s, 0, NewRun(false), item, 0.0);
    e.Observe(n, [], [item], 0.0, false);
  }

  lemma Named(r: Run, now: real, e: Item)
    requires RunOk(r) && !r.script && (Restarts(r, e) || Stays(r, e))
    ensures ObserveRun(r, 0, now, e).entity.name == e.name
  {
    hide AdvanceAndTell;
    hide CancelRun;
    if Restarts(r, e) {
      var was := r.(cancelledName := None);
      var c := if was.name.Some? then CancelRun(was, 0, now) else Out(was, [], 0);
      CancelLeaves(was, 0, now);
      var begun := Configure(c.entity, e).(
        name := e.name, cancelledName := None, start := now, active := true, paused := e.paused, cssPaused := e.paused,
        apiOverride := false, pending := !e.paused, finished := false, phase := Idle, iters := 0, elapsedBase := -e.delay);
      NameStays(begun, if c.entity.active then c.count else c.count + 1, now);
    }
  }

  lemma NameStays(r: Run, count: int, now: real)
    ensures AdvanceAndTell(r, count, now).entity.name == r.name
  {
    hide RunPhaseEvents;
    hide RunPhaseAt;
    hide Current;
    hide IsOver;
  }

  /** An animation that has run its second is given no end by a style change, and then finished: it is
      inactive, in its active phase, with a start that nothing will close on its own. */
  method StrandedByFinish(n: Node) returns (e: Engine)
    ensures e.Valid() && n in e.states && |e.states[n].runs| == 1
    ensures var r := e.states[n].runs[0]; Stranded(r) && r.duration == 1000.0
  {
    hide Sound;
    hide IsActiveState;
    hide ObserveRun;
    hide ControlRun;
    hide TickRun;
    var once, always := Item(Some("slide"), true, 1000.0, 0.0, Some(1.0), false), Item(Some("slide"), true, 1000.0, 0.0, None, false);
    e := new Engine();
    ghost var r0 := Started(once);
    ObserveOnly(e, n, NewRun(false), once, 0.0);
    ghost var r1 := Begun(r0);
    TickOnly(e, n, r0, 0.0);
    ghost var r2 := Over(r1);
    TickOnly(e, n, r1, 1000000.0);
    ghost var r3 := Prolonged(r2, e.activeCount, always);
    ObserveOnly(e, n, r2, always, 1000000.0);
    FinishStrands(r3, e.activeCount, 1000000.0);
    FinishKeepsDuration(r3, e.activeCount, 1000000.0);
    var ok := e.ControlAnimation(n, Styled, 0, 1000000.0, Finish);
  }

  /** The element has one animation and nothing else. */
  predicate Only(s: State, r: Run) { s.chans == [] && s.scripts == [] && s.runs == [r] }

  method ObserveOnly(e: Engine, n: Node, ghost r: Run, item: Item, now: real)
    requires e.Valid() && if n in e.states then Only(e.states[n], r) else r == NewRun(false)
    requires IsHandle(ObserveRun(r, e.activeCount, now, item).entity)
    modifies e
    ensures e.Valid() && n in e.states && Only(e.states[n], ObserveRun(r, old(e.activeCount), now, item).entity)
  {
    hide Sound;
    hide IsActiveState;
    hide ObserveState;
    hide ObserveRun;
    ghost var s := StateOrNew(e.states, e.next, n);
    OneItem(s, e.activeCount, r, item, now);
    e.Observe(n, [], [item], now, false);
  }

  method TickOnly(e: Engine, n: Node, ghost r: Run, now: real)
    requires e.Valid() && n in e.states && Only(e.states[n], r) && r.active && !r.paused
    modifies e
    ensures e.Valid() && n in e.states && Only(e.states[n], TickRun(r, 0, now).entity)
  {
    hide Sound;
    hide TickRun;
    OneRunTicked(e.states[n], r, now);
    e.Tick(now);
  }

  lemma OneRunTicked(s: State, r: Run, now: real)
    requires Only(s, r)
    ensures Only(Ticked(s, now), TickRun(r, 0, now).entity)
    ensures r.active && !r.paused ==> IsActiveState(s)
  {
    hide TickRun;
    assert s.runs[0] == r;
  }

  lemma Started(once: Item) returns (r: Run)
    requires once == Item(Some("slide"), true, 1000.0, 0.0, Some(1.0), false)
    ensures r == ObserveRun(NewRun(false), 0, 0.0, once).entity
    ensures RunOk(r) && !r.script && r.name == Some("slide") && r.cancelledName == None && r.active && !r.paused && r.pending
    ensures r.duration == 1000.0 && r.delay == 0.0 && r.iterations == Some(1.0) && !r.cssPaused
  {
    hide RunPhaseEvents;
    hide Current;
    r := ObserveRun(NewRun(false), 0, 0.0, once).entity;
  }

  lemma Begun(r: Run) returns (out: Run)
    requires RunOk(r) && !r.script && r.active && !r.paused && r.pending && r.duration == 1000.0 && r.delay == 0.0 && r.iterations == Some(1.0)
    ensures out == TickRun(r, 0, 0.0).entity
    ensures out == r.(pending := false, start := 0.0, phase := out.phase, iters := out.iters)
  {
    hide RunPhaseEvents;
    hide Current;
    out := TickRun(r, 0, 0.0).entity;
  }

  lemma Over(r: Run) returns (out: Run)
    requires RunOk(r) && !r.script && r.active && !r.paused && !r.pending && r.start == 0.0
    requires r.duration == 1000.0 && r.delay == 0.0 && r.iterations == Some(1.0)
    ensures out == TickRun(r, 0, 1000000.0).entity
    ensures out == r.(active := false, finished := true, phase := out.phase, iters := out.iters)
  {
    hide RunPhaseEvents;
    hide Current;
    out := TickRun(r, 0, 1000000.0).entity;
  }

  lemma Prolonged(r: Run, count: int, always: Item) returns (out: Run)
    requires always == Item(Some("slide"), true, 1000.0, 0.0, None, false)
    requires r.name == always.name && r.cancelledName == None && !r.cssPaused
    ensures out == ObserveRun(r, count, 1000000.0, always).entity
    ensures out == r.(iterations := None, duration := 1000.0, delay := 0.0)
  {
    out := ObserveRun(r, count, 1000000.0, always).entity;
  }

  lemma FinishKeepsDuration(r: Run, count: int, now: real)
    ensures ControlRun(r, count, now, Finish).entity.duration == r.duration
  {}
}
