/** What listeners are told. */
module AnimTold {
  import opened Options
  import opened AnimSteps
  import opened AnimRuns
  import opened AnimClock

  // ----- boundaries -----

  /** A time is before the interval (0), inside (1) or after it (2). */
  type Zone = z: int | 0 <= z <= 2

  /** The two ends of an interval: what crossing the beginning forwards carries, and its length. */
  datatype Bounds = Bounds(skipped: real, length: real)

  function CrossUp(b: Bounds, from: Zone): Kind {
    if from == 0 then Start(b.skipped) else End(b.length)
  }

  function CrossDown(b: Bounds, from: Zone): Kind {
    if from == 2 then Start(b.length) else End(0.0)
  }

  /** One event for every boundary between two zones, in the order they are crossed. */
  function Crossings(b: Bounds, from: Zone, to: Zone): seq<Kind>
    decreases if from < to then to - from else from - to
  {
    if from < to then [CrossUp(b, from)] + Crossings(b, from + 1, to)
    else if from > to then [CrossDown(b, from)] + Crossings(b, from - 1, to)
    else []
  }

  /** The part of an interval that a negative delay skips. */
  function Skipped(delay: real, length: real): real {
    if delay >= 0.0 || length <= 0.0 then 0.0 else if -delay < length then -delay else length
  }

  function ZoneOf(p: Phase): Zone {
    if p == Active then 1 else if p == After then 2 else 0
  }

  // ----- transitions -----

  function ChanZone(duration: real, shown: real): Zone {
    if shown < 0.0 then 0 else if shown < duration then 1 else 2
  }

  function ChanBounds(duration: real, delay: real): Bounds {
    Bounds(Skipped(delay, duration), duration)
  }

  /** Everything heard of a channel from its start on. */
  function ChanLog(start: Out<Chan>, es: seq<Event>): seq<Kind> {
    if es == [] then start.events else ChanLog(start, es[..|es| - 1]) + HappenAll(start, es).events
  }

  /** The zone last told, and all that is told, by the watch. */
  function LastTold(duration: real, delay: real, es: seq<Event>): Zone {
    if es == [] then ChanZone(duration, -delay)
    else
      var w, e := PressAll(duration, delay, es), es[|es| - 1];
      if Updates(w, e.act) then ChanZone(duration, Reading(w, delay, e.now)) else LastTold(duration, delay, es[..|es| - 1])
  }

  function Told(duration: real, delay: real, es: seq<Event>): seq<Kind> {
    var b := ChanBounds(duration, delay);
    if es == [] then [Begin] + Crossings(b, 0, LastTold(duration, delay, []))
    else
      var front := es[..|es| - 1];
      Told(duration, delay, front) + Crossings(b, LastTold(duration, delay, front), LastTold(duration, delay, es))
  }

  lemma ChanEventsCross(c: Chan, cur: Phase)
    requires cur != Idle && c.duration >= 0.0
    ensures (if c.phase == cur then [] else ChanPhaseEvents(c, cur))
            == Crossings(ChanBounds(c.duration, c.delay), ZoneOf(c.phase), ZoneOf(cur))
  {
    var b := ChanBounds(c.duration, c.delay);
    ShortCrossings(b);
  }

  lemma ShortCrossings(b: Bounds)
    ensures forall z :: Crossings(b, z, z) == []
    ensures Crossings(b, 0, 1) == [Start(b.skipped)] && Crossings(b, 1, 2) == [End(b.length)]
    ensures Crossings(b, 2, 1) == [Start(b.length)] && Crossings(b, 1, 0) == [End(0.0)]
    ensures Crossings(b, 0, 2) == [Start(b.skipped), End(b.length)]
    ensures Crossings(b, 2, 0) == [Start(b.length), End(0.0)]
  {
    assert Crossings(b, 1, 2) == [CrossUp(b, 1)] + Crossings(b, 2, 2);
    assert Crossings(b, 1, 0) == [CrossDown(b, 1)] + Crossings(b, 0, 0);
  }

  lemma AdvanceTold(c: Chan, count: int, now: real)
    requires c.duration >= 0.0
    ensures var out := AdvanceChan(c, count, now);
            && out.events == Crossings(ChanBounds(c.duration, c.delay), ZoneOf(c.phase), ChanZone(c.duration, ChanElapsed(c, now)))
            && ChanElapsed(out.entity, now) == ChanElapsed(c, now)
  {
    hide ChanBounds;
    hide Crossings;
    var cur := ChanPhaseAt(c, ChanElapsed(c, now));
    ChanEventsCross(c, cur);
    assert AdvanceChan(c, count, now).events == ChanPhaseEvents(c, cur);
    assert ChanPhaseEvents(c, c.phase) == [];
  }

  /** The channel as an event finds it, its clock set. */
  function Set(c: Chan, e: Event): Chan {
    match e.act
    case Frame => if c.pending then c.(pending := false, start := e.now) else c
    case SeekTo(ms) =>
      c.(pending := false, pausedElapsed := if c.paused then ms - c.delay else c.pausedElapsed,
         start := if c.paused then c.start else e.now - ms * 1000.0, active := true, finished := false)
    case _ => c.(paused := false, pending := false, start := e.now - (c.delay + c.duration) * 1000.0)
  }

  /** Events that bring the phase up to date advance the channel so set; the others tell nothing. */
  lemma EventAdvances(c: Chan, count: int, w: Watch, duration: real, delay: real, e: Event)
    requires Shows(c, w, duration, delay, e.now) && duration >= 0.0
    ensures var out, w' := Happen(c, count, e), Press(w, duration, delay, e);
            if Updates(w', e.act) && (c.active || e.act.SeekTo?) then
              exists n :: out == AdvanceChan(Set(c, e), n, e.now)
            else out.events == [] && out.entity.phase == c.phase
  {
    hide AdvanceChan;
    var n := if c.active then count else count + 1;
    match e.act
    case SeekTo(ms) => assert Happen(c, count, e) == AdvanceChan(Set(c, e), n, e.now);
    case Frame => assert c.active && !c.paused ==> Happen(c, count, e) == AdvanceChan(Set(c, e), n, e.now);
    case FinishIt => assert c.active ==> Happen(c, count, e) == AdvanceChan(Set(c, e), n, e.now);
    case _ =>
  }

  /** One event of a channel's history. */
  lemma ChanEventTold(c: Chan, count: int, w: Watch, duration: real, delay: real, e: Event)
    requires Shows(c, w, duration, delay, e.now) && duration >= 0.0
    ensures var out, w' := Happen(c, count, e), Press(w, duration, delay, e);
            var z := if Updates(w', e.act) then ChanZone(duration, Reading(w', delay, e.now)) else ZoneOf(c.phase);
            && ZoneOf(out.entity.phase) == z
            && out.events == Crossings(ChanBounds(duration, delay), ZoneOf(c.phase), z)
  {
    hide ChanBounds;
    hide Crossings;
    hide Shows;
    hide Press;
    hide Happen;
    hide AdvanceChan;
    var out, w' := Happen(c, count, e), Press(w, duration, delay, e);
    HappenShows(c, count, w, duration, delay, e);
    ShowsTiming(c, w, duration, delay, e.now);
    ShowsTiming(out.entity, w', duration, delay, e.now);
    ShortCrossings(ChanBounds(duration, delay));
    ShowsReading(out.entity, w', duration, delay, e.now, e.now);
    EventAdvances(c, count, w, duration, delay, e);
    if Updates(w', e.act) && (c.active || e.act.SeekTo?) {
      var n :| out == AdvanceChan(Set(c, e), n, e.now);
      AdvanceTold(Set(c, e), n, e.now);
    }
  }

  lemma ShowsTiming(c: Chan, w: Watch, duration: real, delay: real, now: real)
    requires Shows(c, w, duration, delay, now)
    ensures c.duration == duration && c.delay == delay && !c.cancelled
    ensures !c.active ==> c.phase == After && c.finished && Reading(w, delay, now) >= duration
    ensures (w.Stopped? <==> c.paused) && (w.Waiting? <==> c.pending)
  {}

  lemma StartTold(c: Chan, count: int, now: real, duration: real, delay: real)
    requires duration >= 0.0 && !c.active
    ensures var out := StartChan(c, count, now, duration, delay);
            && out.events == [Begin] + Crossings(ChanBounds(duration, delay), 0, ChanZone(duration, -delay))
            && ZoneOf(out.entity.phase) == ChanZone(duration, -delay)
  {
    hide ChanBounds;
    hide Crossings;
    hide ChanPhaseEvents;
    var begun := c.(active := true, paused := false, finished := false, cancelled := false, pending := true, phase := Idle,
                    start := now, duration := duration, delay := delay);
    AdvanceTold(begun, count + 1, now);
    var r := AdvanceChan(begun, count + 1, now);
    assert [] + [Begin] + r.events == [Begin] + r.events;
  }

  lemma ToldSoFar(duration: real, delay: real, es: seq<Event>)
    requires es != []
    ensures var front := es[..|es| - 1];
            Told(duration, delay, es) == Told(duration, delay, front)
              + Crossings(ChanBounds(duration, delay), LastTold(duration, delay, front), LastTold(duration, delay, es))
  {}

  /** All that is ever heard of a transition that is not cancelled follows from the watch: one event
      for each end of its interval each time the time shown crosses it, carrying the length of the
      interval at its end, the part a negative delay skips at its beginning, and 0 on leaving it
      backwards. */
  lemma {:induction false} TransitionIsTold(c: Chan, count: int, start: real, duration: real, delay: real, es: seq<Event>)
    requires duration >= 0.0 && InTurn(start, es) && !c.active
    ensures var begun := StartChan(c, count, start, duration, delay);
            && ChanLog(begun, es) == Told(duration, delay, es)
            && ZoneOf(HappenAll(begun, es).entity.phase) == LastTold(duration, delay, es)
  {
    hide StartChan;
    hide Happen;
    hide Press;
    hide Shows;
    hide ChanZone;
    hide ChanBounds;
    hide Crossings;
    hide Told;
    hide Reading;
    hide Updates;
    var begun := StartChan(c, count, start, duration, delay);
    if es == [] {
      StartTold(c, count, start, duration, delay);
      FirstTold(duration, delay);
    } else {
      var front, e := es[..|es| - 1], es[|es| - 1];
      TransitionIsTold(c, count, start, duration, delay, front);
      TransitionIsStopwatch(c, count, start, duration, delay, front);
      var before, w := HappenAll(begun, front), PressAll(duration, delay, front);
      ShowsReading(before.entity, w, duration, delay, Latest(start, front), e.now);
      ChanEventTold(before.entity, before.count, w, duration, delay, e);
      ToldSoFar(duration, delay, es);
    }
  }

  lemma FirstTold(duration: real, delay: real)
    ensures Told(duration, delay, []) == [Begin] + Crossings(ChanBounds(duration, delay), 0, LastTold(duration, delay, []))
  {}

  /** The time a cancellation reports: the time shown, cut to the interval. */
  function Cut(shown: real, length: real): real {
    if shown < 0.0 then 0.0 else if shown > length then length else shown
  }

  lemma CancelIsTold(c: Chan, count: int, w: Watch, duration: real, delay: real, now: real)
    requires Shows(c, w, duration, delay, now) && duration >= 0.0
    ensures CancelChan(c, count, now).events == [Cancel(Cut(Reading(w, delay, now), duration))]
  {
    ShowsReading(c, w, duration, delay, now, now);
  }

  /** A transition started over a running one cancels that one first. */
  lemma RestartIsTold(c: Chan, count: int, w: Watch, was: Interval, now: real, duration: real, delay: real)
    requires Shows(c, w, was.duration, was.delay, now) && was.duration >= 0.0 && duration >= 0.0 && c.active
    ensures StartChan(c, count, now, duration, delay).events
         == [Cancel(Cut(Reading(w, was.delay, now), was.duration)), Begin]
            + Crossings(ChanBounds(duration, delay), 0, ChanZone(duration, -delay))
  {
    hide AdvanceChan;
    hide ChanBounds;
    hide Crossings;
    CancelIsTold(c, count, w, was.duration, was.delay, now);
    var begun := CancelChan(c, count, now).entity.(
      active := true, paused := false, finished := false, cancelled := false, pending := true, phase := Idle,
      start := now, duration := duration, delay := delay);
    AdvanceTold(begun, CancelChan(c, count, now).count + 1, now);
    var cancel := CancelChan(c, count, now).events;
    assert cancel + [Begin] == [cancel[0], Begin];
  }

  // ----- animations -----

  function RunZone(t: Interval, shown: real): Zone {
    if shown < 0.0 then 0 else if Extent(t).Some? && shown >= Extent(t).value then 2 else 1
  }

  /** An unending interval is left with the time then shown. */
  function RunBounds(t: Interval, shown: real): Bounds {
    var length := if Extent(t).Some? then Extent(t).value else shown;
    Bounds(if Extent(t).Some? then Skipped(t.delay, length) else if t.delay < 0.0 then -t.delay else 0.0, length)
  }

  /** As many iterations of length `d` as fit into the time, counted up to a bound. */
  predicate HavePassed(d: real, shown: real, k: int) {
    if shown > Times(MANY, d) then k as real == MANY else Times(k as real, d) <= shown < Times(k as real + 1.0, d)
  }

  /** The last iteration: one less than their number, rounded up, and the first one at least. */
  predicate IsLast(t: Interval, k: int) {
    if t.iterations == None || t.iterations.value <= 1.0 then k == 0
    else (k as real) < t.iterations.value <= k as real + 1.0
  }

  lemma ReachedHasPassed(d: real, shown: real)
    requires d > 0.0
    ensures HavePassed(d, shown, Reached(shown, d))
    ensures forall k :: HavePassed(d, shown, k) ==> k == Reached(shown, d)
  {
    var q, k := shown / d, Reached(shown, d);
    assert Times(q, d) == shown;
    forall x: real ensures q < x <==> Times(q, d) < Times(x, d) { Scales(q, x, d); }
  }

  lemma Scales(a: real, b: real, d: real)
    requires d > 0.0
    ensures a < b <==> Times(a, d) < Times(b, d)
  {
    assert Times(b, d) - Times(a, d) == Times(b - a, d);
    if a < b { assert Times(b - a, d) > 0.0; } else { assert Times(a - b, d) >= 0.0 && Times(a - b, d) == -Times(b - a, d); }
  }

  lemma LastIsLast(r: Run)
    ensures IsLast(TimingOf(r), LastIteration(r))
    ensures forall k :: IsLast(TimingOf(r), k) ==> k == LastIteration(r)
  {}

  ghost function Passed(d: real, shown: real): (k: int)
    requires d > 0.0
    ensures HavePassed(d, shown, k)
  {
    ReachedHasPassed(d, shown);
    var k :| HavePassed(d, shown, k);
    k
  }

  ghost function TheLast(t: Interval): (k: int)
    ensures IsLast(t, k)
  {
    LastExists(t);
    var k :| IsLast(t, k);
    k
  }

  lemma LastExists(t: Interval)
    ensures exists k :: IsLast(t, k)
  {
    LastIsLast(NewRun(false).(duration := t.duration, delay := t.delay, iterations := t.iterations));
  }

  /** What a listener knows: the zone it was told of, and the last iteration announced or implied. */
  datatype Ear = Ear(zone: Zone, iteration: int)

  /** The iteration in progress, never past the last one. */
  ghost function RunningAt(t: Interval, shown: real): int
    requires t.duration > 0.0
  {
    if t.iterations.Some? && Passed(t.duration, shown) > TheLast(t) then TheLast(t) else Passed(t.duration, shown)
  }

  /** What is told when the time is looked at. Entering the interval from behind counts as hearing
      of the last iteration, from in front as hearing of the one in progress. */
  ghost function LookedAt(t: Interval, ear: Ear, shown: real): (seq<Kind>, Ear) {
    var zone := RunZone(t, shown);
    if zone != ear.zone then
      var entered := if ear.zone == 2 then TheLast(t) else Passed(Max(t.duration, 0.000000001), shown);
      (Crossings(RunBounds(t, shown), ear.zone, zone), Ear(zone, if zone == 1 then entered else ear.iteration))
    else if zone == 1 && t.duration > 0.0 && RunningAt(t, shown) > ear.iteration then
      ([Iteration(RunningAt(t, shown))], Ear(1, RunningAt(t, shown)))
    else ([], ear)
  }

  function EarOf(r: Run): Ear { Ear(ZoneOf(r.phase), r.iters) }

  lemma RunEventsCross(r: Run, cur: Phase, shown: real)
    requires cur != Idle && cur != r.phase && cur == RunPhaseAt(r, shown)
    ensures RunPhaseEvents(r, cur, shown) == Crossings(RunBounds(TimingOf(r), shown), ZoneOf(r.phase), ZoneOf(cur))
  {
    hide Times;
    ShortCrossings(RunBounds(TimingOf(r), shown));
  }

  lemma ZoneIsPhase(r: Run, shown: real)
    ensures ZoneOf(RunPhaseAt(r, shown)) == RunZone(TimingOf(r), shown) && RunPhaseAt(r, shown) != Idle
  {
    hide Times;
  }

  lemma CurrentIsRunning(r: Run, shown: real)
    requires r.duration > 0.0
    ensures Current(r, shown) == RunningAt(TimingOf(r), shown)
  {
    hide HavePassed;
    hide IsLast;
    hide Reached;
    hide LastIteration;
    ReachedHasPassed(r.duration, shown);
    LastIsLast(r);
  }

  lemma ProgressTold(r: Run, count: int, now: real)
    requires r.name.Some? && !r.script
    ensures var out, heard := Progress(r, count, now), LookedAt(TimingOf(r), EarOf(r), RunElapsed(r, now));
            out.events == heard.0 && EarOf(out.entity) == heard.1
  {
    hide RunElapsed;
    hide RunPhaseAt;
    hide RunPhaseEvents;
    hide RunZone;
    hide RunBounds;
    hide Crossings;
    hide Current;
    hide RunningAt;
    hide Reached;
    hide LastIteration;
    hide HavePassed;
    hide IsLast;
    var t, shown := TimingOf(r), RunElapsed(r, now);
    var cur := RunPhaseAt(r, shown);
    ZoneIsPhase(r, shown);
    if r.phase != cur {
      RunEventsCross(r, cur, shown);
      PositiveMax(r.duration);
      ReachedHasPassed(Max(r.duration, 0.000000001), shown);
      LastIsLast(r);
      ShortCrossings(RunBounds(t, shown));
    } else if r.duration > 0.0 {
      CurrentIsRunning(r, shown);
    }
  }

  /** Everything heard of a run from a given moment on. */
  function RunLog(start: Out<Run>, es: seq<Event>): seq<Kind> {
    if es == [] then start.events else RunLog(start, es[..|es| - 1]) + HappenToAll(start, es).events
  }

  /** All that is told, by the watch: what there is to tell at each event that looks at the time. */
  ghost function RunTold(w: Timer, t: Interval, ear: Ear, es: seq<Event>): (seq<Kind>, Ear) {
    if es == [] then ([], ear)
    else
      var front, e := es[..|es| - 1], es[|es| - 1];
      var before := RunTold(w, t, ear, front);
      var w0 := PressTimerAll(w, t, front);
      if Tells(w0, e.act) then
        var now := LookedAt(t, before.1, Reading(PressTimer(w0, t, e).watch, t.delay, e.now));
        (before.0 + now.0, now.1)
      else before
  }

  lemma AdvancingTells(r: Run, count: int, now: real)
    requires RunOk(r) && r.name.Some? && count >= Bit(r.active)
    ensures var out := AdvanceAndTell(r, count, now);
            && RunElapsed(out.entity, now) == RunElapsed(r, now)
            && (r.script ==> out.events == (if out.entity.active then [] else [ScriptFinish]) && EarOf(out.entity) == EarOf(r))
            && (!r.script ==>
                  var heard := LookedAt(TimingOf(r), EarOf(r), RunElapsed(r, now));
                  out.events == heard.0 && EarOf(out.entity) == heard.1)
  {
    hide Progress;
    hide LookedAt;
    hide IsOver;
    var a := AdvanceRun(r, count, now);
    PhaseOfSame(r, a.entity, now);
    if r.script { ScriptTells(a.entity, a.count, now); } else { ProgressTold(a.entity, a.count, now); }
    TellingMovesPhase(a.entity, a.count, now);
    assert [] + Progress(a.entity, a.count, now).events == Progress(a.entity, a.count, now).events;
  }

  lemma ScriptTells(r: Run, count: int, now: real)
    requires r.script
    ensures Progress(r, count, now) == Out(r, if r.active then [] else [ScriptFinish], count)
  {}

  /** The run as an event finds it, its clock set. */
  function SetRun(r: Run, e: Event): Run {
    match e.act
    case Frame => if r.pending then r.(pending := false, start := e.now) else r
    case SeekTo(ms) =>
      r.(pending := false, elapsedBase := if r.paused then ms - r.delay else r.elapsedBase,
         start := if r.paused then r.start else e.now - ms * 1000.0, active := true, finished := false)
    case _ =>
      var total := r.delay + (if ActiveMs(r).Some? then ActiveMs(r).value else 0.0);
      r.(paused := false, pending := false, start := e.now - total * 1000.0)
  }

  /** Events that look at the time advance the run so set; the others tell nothing. */
  lemma RunEventAdvances(r: Run, count: int, w: Timer, t: Interval, e: Event)
    requires RunShows(r, w, t) && count >= Bit(r.active)
    ensures var out, x := HappenTo(r, count, e), SetRun(r, e);
            if Tells(w, e.act) then
              && RunOk(x) && x.name.Some? && TimingOf(x) == t && EarOf(x) == EarOf(r) && x.script == r.script
              && exists n :: n >= Bit(x.active) && out == AdvanceAndTell(x, n, e.now)
            else out.events == [] && EarOf(out.entity) == EarOf(r)
  {
    hide AdvanceAndTell;
    hide ActiveMs;
    var n := if e.act.SeekTo? && !r.active then count + 1 else count;
    match e.act
    case Frame => assert r.active ==> HappenTo(r, count, e) == AdvanceAndTell(SetRun(r, e), n, e.now);
    case SeekTo(ms) => assert HappenTo(r, count, e) == AdvanceAndTell(SetRun(r, e), n, e.now);
    case FinishIt => assert HappenTo(r, count, e) == AdvanceAndTell(SetRun(r, e), n, e.now);
    case _ =>
  }

  /** One event of a run's history. */
  lemma RunEventTold(r: Run, count: int, w: Timer, t: Interval, e: Event)
    requires RunShows(r, w, t) && count >= Bit(r.active)
    ensures var out, w' := HappenTo(r, count, e), PressTimer(w, t, e);
            if !Tells(w, e.act) then out.events == [] && EarOf(out.entity) == EarOf(r)
            else if r.script then out.events == (if w'.over then [ScriptFinish] else [])
            else
              var heard := LookedAt(t, EarOf(r), Reading(w'.watch, t.delay, e.now));
              out.events == heard.0 && EarOf(out.entity) == heard.1
  {
    hide AdvanceAndTell;
    hide HappenTo;
    hide PressTimer;
    hide LookedAt;
    hide RunElapsed;
    hide SetRun;
    hide Tells;
    var out, w' := HappenTo(r, count, e), PressTimer(w, t, e);
    HappenToShows(r, count, w, t, e);
    RunEventAdvances(r, count, w, t, e);
    if Tells(w, e.act) {
      var n :| n >= Bit(SetRun(r, e).active) && out == AdvanceAndTell(SetRun(r, e), n, e.now);
      AdvancingTells(SetRun(r, e), n, e.now);
      RunShowsReading(out.entity, w', t, e.now);
    }
  }

  lemma RunToldSoFar(w: Timer, t: Interval, ear: Ear, es: seq<Event>)
    requires es != []
    ensures var front, e := es[..|es| - 1], es[|es| - 1];
            var before, w0 := RunTold(w, t, ear, front), PressTimerAll(w, t, front);
            RunTold(w, t, ear, es) ==
            if Tells(w0, e.act) then
              var now := LookedAt(t, before.1, Reading(PressTimer(w0, t, e).watch, t.delay, e.now));
              (before.0 + now.0, now.1)
            else before
  {
    hide LookedAt;
  }

  /** All that is ever heard of an animation that is not cancelled follows from its watch: its starts
      and ends with the times they carry, and the iterations announced in between. */
  lemma {:induction false} AnimationIsTold(start: Out<Run>, w: Timer, t: Interval, es: seq<Event>)
    requires RunShows(start.entity, w, t) && start.count >= Bit(start.entity.active) && !start.entity.script
    ensures var told := RunTold(w, t, EarOf(start.entity), es);
            RunLog(start, es) == start.events + told.0 && EarOf(HappenToAll(start, es).entity) == told.1
  {
    hide HappenTo;
    hide PressTimer;
    hide LookedAt;
    hide RunTold;
    hide RunShows;
    hide Tells;
    var ear := EarOf(start.entity);
    if es == [] {
      NothingTold(w, t, ear);
      assert start.events + [] == start.events;
    } else {
      var front, e := es[..|es| - 1], es[|es| - 1];
      AnimationIsTold(start, w, t, front);
      AnimationIsStopwatch(start, w, t, front);
      var before, w0 := HappenToAll(start, front), PressTimerAll(w, t, front);
      RunEventTold(before.entity, before.count, w0, t, e);
      RunToldSoFar(w, t, ear, es);
      var told := RunTold(w, t, ear, front);
      Joins(start.events, told.0, HappenToAll(start, es).events);
    }
  }

  lemma NothingTold(w: Timer, t: Interval, ear: Ear)
    ensures RunTold(w, t, ear, []) == ([], ear)
  {}

  lemma Joins(a: seq<Kind>, b: seq<Kind>, c: seq<Kind>)
    ensures (a + b) + c == a + (b + c)
    ensures c == [] ==> (a + b) + c == a + b
  {}

  // ----- how a run begins and is cancelled -----

  /** A style's animation begins before its interval and is looked at at once. */
  lemma StyleStartIsTold(r: Run, count: int, now: real, e: Item)
    requires RunOk(r) && r.name == None && !r.script && e.name.Some? && e.duration >= 0.0 && 0 <= count < MAX_ACTIVE
    ensures var out, t := StartRun(r, count, now, e), Interval(e.duration, e.delay, e.iterations);
            var heard := LookedAt(t, Ear(0, 0), -e.delay);
            out.events == heard.0 && EarOf(out.entity) == heard.1
  {
    hide AdvanceAndTell;
    hide LookedAt;
    var begun := Configure(r, e).(
      name := e.name, cancelledName := None, start := now, active := true, paused := e.paused, cssPaused := e.paused,
      apiOverride := false, pending := !e.paused, finished := false, phase := Idle, iters := 0, elapsedBase := -e.delay);
    AdvancingTells(begun, if r.active then count else count + 1, now);
  }

  /** The time a cancelled animation reports: the time shown, cut to the interval where it has an end. */
  function CutTo(t: Interval, shown: real): real {
    if shown < 0.0 then 0.0 else if Extent(t).Some? && shown >= Extent(t).value then Extent(t).value else shown
  }

  lemma RunCancelIsTold(r: Run, count: int, w: Timer, t: Interval, now: real)
    requires RunShows(r, w, t)
    ensures CancelRun(r, count, now).events ==
            if r.script then [ScriptCancel]
            else if r.phase == Idle then []
            else [Cancel(CutTo(t, Reading(w.watch, t.delay, now)))]
  {
    hide Times;
    RunShowsReading(r, w, t, now);
  }
}
