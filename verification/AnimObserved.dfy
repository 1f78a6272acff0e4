/** Styles and scripts together. */
module AnimObserved {
  import opened Options
  import opened AnimSteps
  import opened AnimRuns
  import opened AnimClock
  import opened AnimTold

  // ----- transitions -----

  /** A changed property begins a transition: it can run, there is room or one is running already, and
      its values meet half-way with no ancestor in transition, or may jump. */
  predicate Begins(c: Chan, count: int, o: Observation) {
    && o.changed && o.runnable && (c.active || count < 256)
    && (if o.interpolable then !o.ancestor else o.discrete)
  }

  /** Begun anew, cancelled, or left alone: which one, and what is heard of it. */
  lemma ChangeBeginsOrCancels(c: Chan, count: int, now: real, o: Observation)
    requires o.duration >= 0.0
    ensures var out := ObserveChan(c, count, now, o);
            && (Begin in out.events <==> Begins(c, count, o))
            && (Begins(c, count, o) ==> Shows(out.entity, Waiting, o.duration, o.delay, now))
            && (!Begins(c, count, o) && o.changed && c.active ==> !out.entity.active && |out.events| == 1 && out.events[0].Cancel?)
            && (!o.changed || (!Begins(c, count, o) && !c.active) ==> out == Out(c, [], count))
  {
    hide AdvanceChan;
    hide Shows;
    StartShows(c, count, now, o.duration, o.delay);
    BeginIsHeard(c, count, now, o.duration, o.delay);
  }

  lemma BeginIsHeard(c: Chan, count: int, now: real, duration: real, delay: real)
    ensures Begin in StartChan(c, count, now, duration, delay).events
  {
    hide AdvanceChan;
    var out := StartChan(c, count, now, duration, delay);
    assert out.events[if c.active then 1 else 0] == Begin;
  }

  /** Once cancelled, by script or because nothing lists or shows it any more, a transition stays so. */
  lemma CancelledStays(c: Chan, count: int, now: real, op: Op)
    requires c.cancelled && op != Play
    ensures ControlChan(c, count, now, op) == Out(c, [], count)
  {}

  lemma BecomesCancelled(c: Chan, count: int, now: real, hidden: bool)
    ensures ControlChan(c, count, now, CancelOp).entity.cancelled
    ensures c.active || hidden ==> DropChan(c, count, now, hidden).entity.cancelled
    ensures !c.active && !hidden ==> DropChan(c, count, now, hidden) == Out(c, [], count)
  {}

  /** Only playing brings it back, and then from its beginning. */
  lemma CancelledPlaysAnew(c: Chan, count: int, now: real)
    requires c.cancelled && c.duration >= 0.0
    ensures var out := ControlChan(c, count, now, Play);
            && Shows(out.entity, if c.pending then Waiting else Running(now, -c.delay), c.duration, c.delay, now)
            && out.events == [Begin] + Crossings(ChanBounds(c.duration, c.delay), 0, ChanZone(c.duration, -c.delay))
  {
    hide ChanBounds;
    hide Crossings;
    hide ChanPhaseEvents;
    var begun := c.(cancelled := false, active := true, finished := false, paused := false, phase := Idle, start := now);
    AdvanceTold(begun, count + 1, now);
  }

  // ----- animations -----

  /** Nothing but the style decides whether the run stands still. */
  predicate FollowsStyle(r: Run) {
    !r.apiOverride && r.paused == r.cssPaused
  }

  /** An item that names the animation a run is running. */
  predicate Names(e: Item, r: Run) {
    e.name.Some? && e.name == r.name && e.known && e.duration >= 0.0
  }

  /** Looking at the style again changes timing and standing still, and tells nothing. */
  lemma ObservedAgain(r: Run, count: int, now: real, e: Item)
    requires RunOk(r) && Names(e, r)
    ensures var out := ObserveRun(r, count, now, e);
            && out.events == [] && out.count == count && TimingOf(out.entity) == Interval(e.duration, e.delay, e.iterations)
            && out.entity.name == r.name && out.entity.active == r.active && EarOf(out.entity) == EarOf(r)
            && (FollowsStyle(r) ==> FollowsStyle(out.entity) && out.entity.paused == e.paused)
            && (r.apiOverride ==> out.entity.apiOverride && out.entity.paused == r.paused)
  {}

  /** The time shown goes on from where it was: what has passed of a running or waiting one, what stands
      of one that stood still. */
  lemma ObservedKeepsTime(r: Run, count: int, now: real, e: Item)
    requires RunOk(r) && Names(e, r) && !(r.paused && r.pending)
    ensures var r' := ObserveRun(r, count, now, e).entity;
            if r.paused then RunElapsed(r', now) == RunElapsed(r, now)
            else RunElapsed(r', now) + e.delay == RunElapsed(r, now) + r.delay
  {}

  /** What a script has paused or resumed, the style no longer does. */
  lemma ScriptOverrides(r: Run, count: int, now: real, op: Op, later: real, e: Item)
    requires RunOk(r) && Names(e, r) && (op == Pause || op == Play)
    ensures var s := ControlRun(r, count, now, op);
            var out := ObserveRun(s.entity, s.count, later, e);
            s.entity.paused == (op == Pause) && out.entity.paused == s.entity.paused
  {}

  /** What a script has cancelled, the same style does not start again; another one does. */
  lemma CancelSticks(r: Run, count: int, now: real, later: real, e: Item)
    requires RunOk(r) && r.name.Some? && e.name.Some? && e.known && e.duration >= 0.0
    ensures var s := ControlRun(r, count, now, CancelOp);
            var out := ObserveRun(s.entity, s.count, later, e);
            && s.entity.name == None && !s.entity.active
            && (e.name == r.name ==> out == Out(s.entity, [], s.count))
            && (e.name != r.name ==> out == StartRun(s.entity.(cancelledName := None), s.count, later, e))
  {
    hide StartRun;
    var s := ControlRun(r, count, now, CancelOp);
    var out := ObserveRun(s.entity, s.count, later, e);
    if e.name != r.name {
      var begun := StartRun(s.entity.(cancelledName := None), s.count, later, e);
      assert [] + begun.events == begun.events;
    }
  }

  /** Playing brings back what a script cancelled, under its name and from its beginning. */
  lemma CancelledRunPlaysAnew(r: Run, count: int, now: real, later: real)
    requires RunOk(r) && r.name.Some?
    ensures var s := ControlRun(r, count, now, CancelOp);
            var out := ControlRun(s.entity, s.count, later, Play);
            && RunShows(out.entity, Timer(Waiting, Ends(TimingOf(r), -r.delay)), TimingOf(r)) && out.entity.name == r.name
            && out.entity.apiOverride && out.events == []
  {
    hide Times;
    hide RunShows;
    var s := ControlRun(r, count, now, CancelOp);
    var back := s.entity.(apiOverride := true, name := r.name, cancelledName := None, active := true, finished := false,
                          paused := false, pending := true, start := later);
    AdvancingRetires(back, s.count + 1, later);
    RestIsShown(AdvanceRun(back, s.count + 1, later).entity);
  }

  lemma RestIsShown(r: Run)
    requires RunOk(r) && r.name.Some? && r.pending && !r.paused
    requires r.active <==> !Ends(TimingOf(r), -r.delay)
    ensures RunShows(r, Timer(Waiting, Ends(TimingOf(r), -r.delay)), TimingOf(r))
  {
    hide Times;
  }

  /** Another animation in the same place: the old one is cancelled, the new one started. */
  lemma OtherNameReplaces(r: Run, count: int, now: real, e: Item)
    requires RunOk(r) && r.name.Some? && e.name.Some? && e.name != r.name && e.known && e.duration >= 0.0
    ensures var gone := CancelRun(r, count, now);
            var begun := StartRun(gone.entity, gone.count, now, e);
            && ObserveRun(r, count, now, e) == Out(begun.entity, gone.events + begun.events, begun.count)
            && !gone.entity.active && gone.entity.name == None
  {
    hide StartRun;
    assert r.(cancelledName := None) == r;
  }

  /** A run for script is made with the timing asked for, brought into range, and waits for its first frame. */
  lemma ScriptRunShows(r: Run, count: int, now: real, t: Timing)
    requires r.script && r.phase == Idle
    ensures var out := StartScript(r, count, now, t);
            var d := if t.duration < 0.0 then 0.0 else t.duration;
            var n := if t.iterations.Some? && t.iterations.value < 0.0 then Some(0.0) else t.iterations;
            var made := Interval(d, t.delay, n);
            && RunShows(out.entity, Timer(Waiting, Ends(made, -t.delay)), made) && out.events == []
  {
    hide Times;
    hide RunShows;
    var n := if t.iterations.Some? && t.iterations.value < 0.0 then Some(0.0) else t.iterations;
    var begun := r.(name := Some(""), cancelledName := None, start := now, duration := Max(t.duration, 0.0), delay := t.delay,
                    iterations := n, active := true, paused := false, pending := true, finished := false, iters := 0, elapsedBase := 0.0);
    AdvancingRetires(begun, count + 1, now);
    RestIsShown(AdvanceRun(begun, count + 1, now).entity);
  }
}
