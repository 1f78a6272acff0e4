/** Pausing, seeking, and the frame rate. */
module AnimClock {
  import opened Options
  import opened AnimSteps
  import opened AnimRuns

  // ----- a transition keeps time like a stopwatch -----

  /** What may happen to an animation, and when. */
  datatype Act = Frame | PauseIt | PlayIt | SeekTo(ms: real) | FinishIt

  datatype Event = Event(act: Act, now: real)

  /** A stopwatch that waits for its first frame, stands still, or runs. */
  datatype Watch = Waiting | Stopped(shown: real) | Running(since: real, shown: real)

  function Reading(w: Watch, delay: real, now: real): real {
    match w
    case Waiting => -delay
    case Stopped(shown) => shown
    case Running(since, shown) => shown + (now - since) / 1000.0
  }

  function Press(w: Watch, duration: real, delay: real, e: Event): Watch {
    match e.act
    case Frame => if w.Waiting? && -delay < duration then Running(e.now, -delay) else w
    case PauseIt => Stopped(Reading(w, delay, e.now))
    case PlayIt => if w.Stopped? then Running(e.now, w.shown) else w
    case SeekTo(ms) => if w.Stopped? then Stopped(ms - delay) else Running(e.now, ms - delay)
    case FinishIt => Running(e.now, duration)
  }

  function PressAll(duration: real, delay: real, es: seq<Event>): Watch {
    if es == [] then Waiting else Press(PressAll(duration, delay, es[..|es| - 1]), duration, delay, es[|es| - 1])
  }

  function Happen(c: Chan, count: int, e: Event): Out<Chan> {
    match e.act
    case Frame => TickChan(c, count, e.now)
    case PauseIt => ControlChan(c, count, e.now, Pause)
    case PlayIt => ControlChan(c, count, e.now, Play)
    case SeekTo(ms) => SeekChan(c, count, e.now, ms)
    case FinishIt => ControlChan(c, count, e.now, Finish)
  }

  function HappenAll(start: Out<Chan>, es: seq<Event>): Out<Chan> {
    if es == [] then start
    else
      var before := HappenAll(start, es[..|es| - 1]);
      Happen(before.entity, before.count, es[|es| - 1])
  }

  function Latest(start: real, es: seq<Event>): real {
    if es == [] then start else es[|es| - 1].now
  }

  predicate InTurn(start: real, es: seq<Event>) {
    es == [] || (InTurn(start, es[..|es| - 1]) && Latest(start, es[..|es| - 1]) <= es[|es| - 1].now)
  }

  /** The channel shows what the watch does, and has ended only where the watch is past the end. */
  predicate Shows(c: Chan, w: Watch, duration: real, delay: real, now: real) {
    && c.duration == duration && c.delay == delay && !c.cancelled && (c.finished <==> !c.active)
    && (w.Stopped? <==> c.paused) && (w.Waiting? <==> c.pending)
    && (match w
        case Waiting => true
        case Stopped(shown) => c.pausedElapsed == shown
        case Running(since, shown) => c.start == since - (shown + delay) * 1000.0)
    && (w.Waiting? ==> (c.active <==> -delay < duration))
    && (!c.active ==> c.phase == After && Reading(w, delay, now) >= duration)
  }

  lemma ShowsReading(c: Chan, w: Watch, duration: real, delay: real, now: real, later: real)
    requires Shows(c, w, duration, delay, now)
    ensures ChanElapsed(c, later) == Reading(w, delay, later)
    ensures now <= later ==> Shows(c, w, duration, delay, later)
  {}

  /** Events that bring the phase up to date: all but pausing, playing, and frames of a paused one. */
  predicate Updates(w: Watch, a: Act) { a.SeekTo? || a.FinishIt? || (a.Frame? && !w.Stopped?) }

  lemma HappenShows(c: Chan, count: int, w: Watch, duration: real, delay: real, e: Event)
    requires Shows(c, w, duration, delay, e.now) && duration >= 0.0
    ensures var c', w' := Happen(c, count, e).entity, Press(w, duration, delay, e);
            && Shows(c', w', duration, delay, e.now)
            && (Updates(w', e.act) ==> c'.phase == ChanPhaseAt(c', Reading(w', delay, e.now)) && (c'.active <==> Reading(w', delay, e.now) < duration))
  {
    hide ChanPhaseEvents;
    ShowsReading(c, w, duration, delay, e.now, e.now);
    match e.act {
      case Frame =>
        hide ControlChan;
        hide SeekChan;
      case SeekTo(_) =>
        hide ControlChan;
        hide TickChan;
      case _ =>
        hide SeekChan;
        hide TickChan;
    }
  }

  lemma StartShows(c: Chan, count: int, now: real, duration: real, delay: real)
    requires duration >= 0.0
    ensures Shows(StartChan(c, count, now, duration, delay).entity, Waiting, duration, delay, now)
  {
    hide ChanPhaseEvents;
  }

  /** Whatever frames, pauses, resumptions, seeks and finishes follow its start, a transition is always
      where a stopwatch with the same buttons pressed would be; it has ended only past its end, and
      after every seek, finish and frame it is active if and only if its end lies ahead. */
  lemma {:induction false} TransitionIsStopwatch(c: Chan, count: int, start: real, duration: real, delay: real, es: seq<Event>)
    requires duration >= 0.0 && InTurn(start, es)
    ensures var c', w := HappenAll(StartChan(c, count, start, duration, delay), es).entity, PressAll(duration, delay, es);
            var now := Latest(start, es);
            && Shows(c', w, duration, delay, now)
            && (forall t :: ChanElapsed(c', t) == Reading(w, delay, t))
            && (!c'.active ==> c'.phase == After && Reading(w, delay, now) >= duration)
            && (es != [] && Updates(w, es[|es| - 1].act) ==>
                  c'.phase == ChanPhaseAt(c', Reading(w, delay, now)) && (c'.active <==> Reading(w, delay, now) < duration))
  {
    hide StartChan;
    hide Happen;
    hide Press;
    hide ChanPhaseAt;
    if es == [] {
      StartShows(c, count, start, duration, delay);
      assert Shows(StartChan(c, count, start, duration, delay).entity, Waiting, duration, delay, start);
    } else {
      var front, e := es[..|es| - 1], es[|es| - 1];
      TransitionIsStopwatch(c, count, start, duration, delay, front);
      var before, w := HappenAll(StartChan(c, count, start, duration, delay), front), PressAll(duration, delay, front);
      ShowsReading(before.entity, w, duration, delay, Latest(start, front), e.now);
      HappenShows(before.entity, before.count, w, duration, delay, e);
    }
    var c', w, now := HappenAll(StartChan(c, count, start, duration, delay), es).entity, PressAll(duration, delay, es), Latest(start, es);
    forall t ensures ChanElapsed(c', t) == Reading(w, delay, t) { ShowsReading(c', w, duration, delay, now, t); }
  }

  // ----- frames -----

  /** A run of frames over one transition. */
  function TickAll(c: Chan, count: int, times: seq<real>): Out<Chan>
    decreases |times|
  {
    if times == [] then Out(c, [], count)
    else
      var first := TickChan(c, count, times[0]);
      var rest := TickAll(first.entity, first.count, times[1..]);
      Out(rest.entity, first.events + rest.events, rest.count)
  }

  predicate Rising(times: seq<real>) {
    forall i, j :: 0 <= i < j < |times| ==> times[i] <= times[j]
  }

  /** A running transition whose phase is the one of an earlier time. */
  predicate UpTo(c: Chan, now: real) {
    && c.active && !c.paused && !c.pending && ChanOk(c)
    && (c.phase == Before || (c.phase == Active && ChanElapsed(c, now) >= 0.0))
  }

  lemma LaterElapsed(c: Chan, now: real, later: real)
    requires now <= later && !c.paused && !c.pending
    ensures ChanElapsed(c, now) <= ChanElapsed(c, later)
  {}

  lemma TwoFrames(c: Chan, count: int, now: real, later: real)
    requires UpTo(c, now) && now <= later && c.duration >= 0.0 && count >= 1
    ensures var one := TickChan(c, count, now);
            var two := TickChan(one.entity, one.count, later);
            TickChan(c, count, later) == Out(two.entity, one.events + two.events, two.count)
    ensures var one := TickChan(c, count, now).entity; !one.active || UpTo(one, later)
  {
    LaterElapsed(c, now, later);
    var e, e' := ChanElapsed(c, now), ChanElapsed(c, later);
    assert ChanPhaseAt(c, e) == Active ==> ChanPhaseAt(c, e') != Before;
    assert ChanPhaseAt(c, e) == After ==> ChanPhaseAt(c, e') == After;
  }

  lemma {:induction false} NothingAfterEnd(c: Chan, count: int, times: seq<real>)
    requires !c.active
    ensures TickAll(c, count, times) == Out(c, [], count)
    decreases |times|
  {
    if times != [] { NothingAfterEnd(c, count, times[1..]); }
  }

  /** However many frames there were, a transition is where the last one alone would have put it,
      and its listeners have heard exactly the same events. */
  lemma {:induction false} FramesDoNotMatter(c: Chan, count: int, times: seq<real>)
    requires times != [] && Rising(times) && UpTo(c, times[0]) && c.duration >= 0.0 && count >= 1
    ensures TickAll(c, count, times) == TickChan(c, count, times[|times| - 1])
    decreases |times|
  {
    hide TickChan;
    hide UpTo;
    var now, last := times[0], times[|times| - 1];
    var one := TickChan(c, count, now);
    var rest := times[1..];
    if rest == [] {
      assert TickAll(one.entity, one.count, rest) == Out(one.entity, [], one.count);
      assert one.events + [] == one.events;
    } else {
      TwoFrames(c, count, now, last);
      TwoFrames(c, count, now, rest[0]);
      OneFrame(c, count, now);
      if one.entity.active {
        FramesDoNotMatter(one.entity, one.count, rest);
      } else {
        NothingAfterEnd(one.entity, one.count, rest);
        Ended(one.entity, one.count, last);
      }
    }
  }

  lemma OneFrame(c: Chan, count: int, now: real)
    requires UpTo(c, now) && count >= 1
    ensures var one := TickChan(c, count, now);
            one.entity.duration == c.duration && (one.entity.active ==> one.count >= 1)
  {}

  lemma Ended(c: Chan, count: int, now: real)
    requires !c.active
    ensures TickChan(c, count, now) == Out(c, [], count)
  {}

  // ----- frames of an animation run -----

  function TickRunAll(r: Run, count: int, times: seq<real>): Out<Run>
    decreases |times|
  {
    if times == [] then Out(r, [], count)
    else
      var first := TickRun(r, count, times[0]);
      var rest := TickRunAll(first.entity, first.count, times[1..]);
      Out(rest.entity, first.events + rest.events, rest.count)
  }

  /** Events other than the announcements of iterations. */
  function Coarse(ks: seq<Kind>): seq<Kind> {
    if ks == [] then [] else (if ks[0].Iteration? then [] else [ks[0]]) + Coarse(ks[1..])
  }

  lemma {:induction false} CoarseConcat(a: seq<Kind>, b: seq<Kind>)
    ensures Coarse(a + b) == Coarse(a) + Coarse(b)
    decreases |a|
  {
    if a == [] {
      assert a + b == b;
    } else {
      assert (a + b)[0] == a[0] && (a + b)[1..] == a[1..] + b;
      CoarseConcat(a[1..], b);
    }
  }

  /** The same outcome but for the iterations announced on the way. */
  predicate Alike(a: Out<Run>, b: Out<Run>) {
    a.entity.(iters := 0) == b.entity.(iters := 0) && Coarse(a.events) == Coarse(b.events) && a.count == b.count
  }

  /** A running animation whose phase is the one of an earlier time. */
  predicate RunUpTo(r: Run, now: real) {
    && r.active && r.name.Some? && !r.script && !r.paused && !r.pending && RunOk(r)
    && (r.phase == Before || (r.phase == Active && RunElapsed(r, now) >= 0.0))
  }

  lemma SameEvents(r: Run, mid: Run, cur: Phase, elapsed: real)
    requires mid.duration == r.duration && mid.delay == r.delay && mid.iterations == r.iterations && mid.phase == r.phase
    ensures RunPhaseEvents(mid, cur, elapsed) == RunPhaseEvents(r, cur, elapsed)
  {
    assert ActiveMs(mid) == ActiveMs(r);
  }

  /** A frame of a running animation, iterations aside: by its old and new phase alone. */
  lemma RunFrame(r: Run, count: int, now: real)
    requires RunUpTo(r, now) && count >= 1
    ensures var out := TickRun(r, count, now);
            var elapsed := RunElapsed(r, now);
            var cur := RunPhaseAt(r, elapsed);
            var over := elapsed >= 0.0 && (r.duration <= 0.0 || IsOver(r, elapsed));
            && Coarse(out.events) == (if r.phase == cur then [] else RunPhaseEvents(r, cur, elapsed))
            && out.entity == r.(active := !over, finished := r.finished || over, phase := cur, iters := out.entity.iters)
            && out.count == if over then count - 1 else count
  {
    hide Reached;
    hide Current;
    var elapsed := RunElapsed(r, now);
    var a := AdvanceRun(r, count, now).entity;
    assert RunElapsed(a, now) == elapsed && RunPhaseAt(a, elapsed) == RunPhaseAt(r, elapsed);
    SameEvents(r, a, RunPhaseAt(r, elapsed), elapsed);
    FewEvents(r, RunPhaseAt(r, elapsed), elapsed);
    var events := TickRun(r, count, now).events;
    if r.phase != RunPhaseAt(r, elapsed) {
      assert events == RunPhaseEvents(r, RunPhaseAt(r, elapsed), elapsed);
    } else if events != [] {
      assert events == [events[0]] && events[0].Iteration?;
      CoarseTwo(events[0], events[0]);
    }
  }

  lemma CoarseTwo(a: Kind, b: Kind)
    ensures Coarse([a]) == if a.Iteration? then [] else [a]
    ensures !a.Iteration? && !b.Iteration? ==> Coarse([a, b]) == [a, b]
  {
    assert [a, b][1..] == [b] && [b][1..] == [] && Coarse([b]) == if b.Iteration? then [] else [b];
  }

  lemma FewEvents(r: Run, cur: Phase, elapsed: real)
    ensures Coarse(RunPhaseEvents(r, cur, elapsed)) == RunPhaseEvents(r, cur, elapsed)
  {
    var ks := RunPhaseEvents(r, cur, elapsed);
    if ks != [] {
      CoarseTwo(ks[0], ks[|ks| - 1]);
      assert ks == [ks[0]] || ks == [ks[0], ks[1]];
    }
  }

  predicate RunOver(r: Run, elapsed: real) {
    elapsed >= 0.0 && (r.duration <= 0.0 || IsOver(r, elapsed))
  }

  /** Phases only move forward, and what ends them stays true. */
  lemma PhasesRise(r: Run, e: real, e': real)
    requires e <= e' && r.duration >= 0.0
    ensures RunPhaseAt(r, e) == Active ==> RunPhaseAt(r, e') == Active || RunPhaseAt(r, e') == After
    ensures RunPhaseAt(r, e) == After ==> RunPhaseAt(r, e') == After
    ensures RunOver(r, e) ==> RunOver(r, e') && RunPhaseAt(r, e') == RunPhaseAt(r, e)
    ensures !RunOver(r, e) ==> RunPhaseAt(r, e) == Before || (RunPhaseAt(r, e) == Active && e >= 0.0)
    ensures RunPhaseAt(r, e) != Idle && (RunPhaseAt(r, e) == Before <==> e < 0.0)
    ensures RunPhaseAt(r, e') == After ==> IsOver(r, e')
  {
    if r.duration == 0.0 && r.iterations.Some? { assert r.duration * r.iterations.value == 0.0; }
  }

  /** Moving forward through the phases tells the same whether or not a frame falls in between. */
  lemma EventsCompose(r: Run, mid: Run, e: real, e': real)
    requires mid.duration == r.duration && mid.delay == r.delay && mid.iterations == r.iterations
    ensures r.phase == Before ==> RunPhaseEvents(r, Active, e) == RunPhaseEvents(r, Active, e')
    ensures r.phase == Before || r.phase == Active ==>
              RunPhaseAt(r, e) == After ==> RunPhaseEvents(r, After, e) == RunPhaseEvents(r, After, e')
    ensures r.phase == Before && mid.phase == Active ==>
              RunPhaseEvents(r, Active, e) + RunPhaseEvents(mid, After, e') == RunPhaseEvents(r, After, e') || !IsOver(r, e')
    ensures mid.phase == r.phase ==> forall cur :: RunPhaseEvents(mid, cur, e') == RunPhaseEvents(r, cur, e')
    ensures forall x :: RunPhaseAt(mid, x) == RunPhaseAt(r, x) && RunOver(mid, x) == RunOver(r, x)
  {
    assert ActiveMs(mid) == ActiveMs(r);
    if IsOver(r, e') {
      var start, end := RunPhaseEvents(r, Active, e), RunPhaseEvents(r, After, e');
      if r.phase == Before && mid.phase == Active {
        assert [] + [end[1]] == [end[1]] && start == [end[0]];
      }
    }
    if mid.phase == r.phase {
      forall cur ensures RunPhaseEvents(mid, cur, e') == RunPhaseEvents(r, cur, e') { SameEvents(r, mid, cur, e'); }
    }
  }

  lemma TwoRunFrames(r: Run, count: int, now: real, later: real)
    requires RunUpTo(r, now) && now <= later && r.duration >= 0.0 && count >= 1
    ensures var one := TickRun(r, count, now);
            && (one.entity.active ==>
                  && RunUpTo(one.entity, later) && one.count >= 1
                  && var two := TickRun(one.entity, one.count, later);
                     Alike(TickRun(r, count, later), Out(two.entity, one.events + two.events, two.count)))
            && (!one.entity.active ==> Alike(TickRun(r, count, later), one))
  {
    hide TickRun;
    hide RunPhaseAt;
    hide RunPhaseEvents;
    hide IsOver;
    hide Coarse;
    var e, e' := RunElapsed(r, now), RunElapsed(r, later);
    RunFrame(r, count, now);
    RunLater(r, now, later);
    RunFrame(r, count, later);
    PhasesRise(r, e, e');
    var one := TickRun(r, count, now);
    assert one.entity.active == !RunOver(r, e);
    EventsCompose(r, one.entity, e, e');
    if one.entity.active {
      RunFrame(one.entity, one.count, later);
      CoarseConcat(one.events, TickRun(one.entity, one.count, later).events);
    }
  }

  lemma RunLater(r: Run, now: real, later: real)
    requires now <= later && !r.paused && !r.pending
    ensures RunElapsed(r, now) <= RunElapsed(r, later)
  {}

  lemma {:induction false} NothingAfterRunEnd(r: Run, count: int, times: seq<real>)
    requires !r.active
    ensures TickRunAll(r, count, times) == Out(r, [], count)
    decreases |times|
  {
    if times != [] { NothingAfterRunEnd(r, count, times[1..]); }
  }

  /** For animations the frames in between decide only which iterations are announced: the start,
      the end and the state reached are those of the last frame alone. */
  lemma {:induction false} FramesOnlyAnnounceIterations(r: Run, count: int, times: seq<real>)
    requires times != [] && Rising(times) && RunUpTo(r, times[0]) && r.duration >= 0.0 && count >= 1
    ensures Alike(TickRunAll(r, count, times), TickRun(r, count, times[|times| - 1]))
    decreases |times|
  {
    hide TickRun;
    hide RunUpTo;
    hide Coarse;
    var now, last, rest := times[0], times[|times| - 1], times[1..];
    var one := TickRun(r, count, now);
    if rest == [] {
      assert one.events + [] == one.events;
    } else {
      TwoRunFrames(r, count, now, last);
      if one.entity.active {
        TwoRunFrames(r, count, now, rest[0]);
        SameDuration(r, count, now);
        FramesOnlyAnnounceIterations(one.entity, one.count, rest);
        CoarseConcat(one.events, TickRunAll(one.entity, one.count, rest).events);
        CoarseConcat(one.events, TickRun(one.entity, one.count, last).events);
      } else {
        NothingAfterRunEnd(one.entity, one.count, rest);
        assert one.events + [] == one.events;
      }
    }
  }

  lemma SameDuration(r: Run, count: int, now: real)
    requires RunUpTo(r, now) && count >= 1
    ensures TickRun(r, count, now).entity.duration == r.duration
  {
    hide TickRun;
    RunFrame(r, count, now);
  }

  // ----- an animation keeps time like a stopwatch -----

  datatype Interval = Interval(duration: real, delay: real, iterations: Option<real>)

  /** The length of the active interval, if it has one. */
  function Extent(t: Interval): Option<real> {
    if t.iterations == None then None else Some(Times(t.duration, t.iterations.value))
  }

  /** The time shown is past the end: an interval of no duration is over as soon as it begins. */
  predicate Ends(t: Interval, shown: real) {
    shown >= 0.0 && (t.duration <= 0.0 || (Extent(t).Some? && shown >= Extent(t).value))
  }

  /** A stopwatch with a light that goes on at the end. */
  datatype Timer = Timer(watch: Watch, over: bool)

  /** What the buttons do: only playing and seeking put the light out. */
  function PressTimer(w: Timer, t: Interval, e: Event): Timer {
    match e.act
    case Frame =>
      if w.over then w
      else
        var watch := if w.watch.Waiting? then Running(e.now, -t.delay) else w.watch;
        Timer(watch, Ends(t, Reading(watch, t.delay, e.now)))
    case PauseIt => Timer(Stopped(Reading(w.watch, t.delay, e.now)), w.over)
    case PlayIt =>
      Timer(if w.over && !w.watch.Waiting? then Running(e.now, -t.delay)
            else if w.watch.Stopped? then Running(e.now, w.watch.shown)
            else w.watch, false)
    case SeekTo(ms) =>
      Timer(if w.watch.Stopped? then Stopped(ms - t.delay) else Running(e.now, ms - t.delay), Ends(t, ms - t.delay))
    case FinishIt =>
      var end := if Extent(t).Some? then Extent(t).value else 0.0;
      Timer(Running(e.now, end), w.over || Ends(t, end))
  }

  function PressTimerAll(w: Timer, t: Interval, es: seq<Event>): Timer {
    if es == [] then w else PressTimer(PressTimerAll(w, t, es[..|es| - 1]), t, es[|es| - 1])
  }

  function HappenTo(r: Run, count: int, e: Event): Out<Run> {
    match e.act
    case Frame => TickRun(r, count, e.now)
    case PauseIt => ControlRun(r, count, e.now, Pause)
    case PlayIt => ControlRun(r, count, e.now, Play)
    case SeekTo(ms) => SeekRun(r, count, e.now, ms)
    case FinishIt => ControlRun(r, count, e.now, Finish)
  }

  function HappenToAll(start: Out<Run>, es: seq<Event>): Out<Run> {
    if es == [] then start
    else
      var before := HappenToAll(start, es[..|es| - 1]);
      HappenTo(before.entity, before.count, es[|es| - 1])
  }

  function TimingOf(r: Run): Interval { Interval(r.duration, r.delay, r.iterations) }

  /** The run has this timing, shows what the watch does, and is inactive exactly when the light is on. */
  predicate RunShows(r: Run, w: Timer, t: Interval) {
    && r.name.Some? && RunOk(r) && TimingOf(r) == t && (w.watch.Stopped? <==> r.paused) && (w.watch.Waiting? <==> r.pending)
    && (r.active <==> !w.over)
    && (match w.watch
        case Waiting => true
        case Stopped(shown) => r.elapsedBase == shown
        case Running(since, shown) => r.start == since - (shown + r.delay) * 1000.0)
  }

  lemma RunShowsReading(r: Run, w: Timer, t: Interval, at: real)
    requires RunShows(r, w, t)
    ensures RunElapsed(r, at) == Reading(w.watch, t.delay, at)
  {}

  /** Advancing moves neither clock nor timing, and retires a run that is past its end. */
  lemma AdvancingKeepsTime(r: Run, count: int, now: real)
    requires RunOk(r) && r.name.Some? && count >= Bit(r.active)
    ensures var out := AdvanceAndTell(r, count, now);
            && out.entity == r.(active := out.entity.active, finished := out.entity.finished, phase := out.entity.phase, iters := out.entity.iters)
            && RunOk(out.entity) && out.count >= Bit(out.entity.active)
            && (out.entity.active <==> r.active && !Ends(TimingOf(r), RunElapsed(r, now)))
            && (!r.script ==> out.entity.phase == RunPhaseAt(r, RunElapsed(r, now)))
  {
    hide AdvanceRun;
    hide Progress;
    hide RunPhaseAt;
    AdvanceAndTellLaw(r, count, now);
    LawGives(r, count, AdvanceAndTell(r, count, now));
    AdvancingRetires(r, count, now);
    TellingMovesPhase(AdvanceRun(r, count, now).entity, AdvanceRun(r, count, now).count, now);
    PhaseOfSame(r, AdvanceRun(r, count, now).entity, now);
  }

  lemma AdvancingRetires(r: Run, count: int, now: real)
    requires RunOk(r) && r.name.Some?
    ensures var out := AdvanceRun(r, count, now).entity;
            && out == r.(active := out.active, finished := out.finished)
            && (out.active <==> r.active && !Ends(TimingOf(r), RunElapsed(r, now)))
  {
    hide RunElapsed;
    hide Times;
  }

  lemma PhaseOfSame(r: Run, a: Run, now: real)
    requires a == r.(active := a.active, finished := a.finished)
    ensures RunElapsed(a, now) == RunElapsed(r, now) && RunPhaseAt(a, RunElapsed(a, now)) == RunPhaseAt(r, RunElapsed(r, now))
  {
    hide Times;
  }

  lemma TellingMovesPhase(r: Run, count: int, now: real)
    ensures var out := Progress(r, count, now).entity;
            && out == r.(phase := out.phase, iters := out.iters)
            && (!r.script && r.name.Some? ==> out.phase == RunPhaseAt(r, RunElapsed(r, now)))
  {
    hide RunPhaseEvents;
    hide RunPhaseAt;
    hide LastIteration;
    hide Current;
    hide Reached;
    hide RunElapsed;
    hide IsOver;
    hide Max;
    var elapsed := RunElapsed(r, now);
    var cur := RunPhaseAt(r, elapsed);
    if r.script || r.name == None {
      assert Progress(r, count, now).entity == r;
    } else if r.phase == cur {
      assert Progress(r, count, now).entity == r.(iters := Progress(r, count, now).entity.iters);
    }
  }

  /** The event brings the phase up to date: a seek, a finish, or a frame while the light is off. */
  predicate Tells(w: Timer, a: Act) { a.SeekTo? || a.FinishIt? || (a.Frame? && !w.over) }

  /** One event keeps run and watch together. */
  predicate Follows(r: Run, count: int, w: Timer, t: Interval, e: Event) {
    var out, w' := HappenTo(r, count, e), PressTimer(w, t, e);
    && RunShows(out.entity, w', t) && out.count >= Bit(out.entity.active) && out.entity.script == r.script
    && (Tells(w, e.act) && !r.script ==> out.entity.phase == RunPhaseAt(out.entity, Reading(w'.watch, t.delay, e.now)))
  }

  /** Advancing a run whose clock has been set shows the watch that was set, with the light as it then is. */
  lemma AdvancedShows(r: Run, count: int, watch: Watch, over: bool, t: Interval, now: real)
    requires RunShows(r, Timer(watch, over), t) && count >= Bit(r.active)
    ensures var out := AdvanceAndTell(r, count, now);
            && RunShows(out.entity, Timer(watch, over || Ends(t, Reading(watch, t.delay, now))), t)
            && out.count >= Bit(out.entity.active) && out.entity.script == r.script
            && (!r.script ==> out.entity.phase == RunPhaseAt(out.entity, Reading(watch, t.delay, now)))
  {
    hide AdvanceAndTell;
    hide Ends;
    hide Times;
    RunShowsReading(r, Timer(watch, over), t, now);
    AdvancingKeepsTime(r, count, now);
  }

  lemma FrameShows(r: Run, count: int, w: Timer, t: Interval, now: real)
    requires RunShows(r, w, t) && count >= Bit(r.active)
    ensures Follows(r, count, w, t, Event(Frame, now))
  {
    hide AdvanceAndTell;
    hide Ends;
    hide RunPhaseAt;
    if r.active {
      var watch := if w.watch.Waiting? then Running(now, -t.delay) else w.watch;
      AdvancedShows(if r.pending then r.(pending := false, start := now) else r, count, watch, false, t, now);
    }
  }

  lemma SeekShows(r: Run, count: int, w: Timer, t: Interval, now: real, ms: real)
    requires RunShows(r, w, t) && count >= Bit(r.active)
    ensures Follows(r, count, w, t, Event(SeekTo(ms), now))
  {
    hide AdvanceAndTell;
    hide Ends;
    hide RunPhaseAt;
    var sought := r.(pending := false, elapsedBase := if r.paused then ms - r.delay else r.elapsedBase,
                     start := if r.paused then r.start else now - ms * 1000.0, active := true, finished := false);
    var watch := if w.watch.Stopped? then Stopped(ms - t.delay) else Running(now, ms - t.delay);
    AdvancedShows(sought, if r.active then count else count + 1, watch, false, t, now);
  }

  lemma FinishShows(r: Run, count: int, w: Timer, t: Interval, now: real)
    requires RunShows(r, w, t) && count >= Bit(r.active)
    ensures Follows(r, count, w, t, Event(FinishIt, now))
  {
    hide AdvanceAndTell;
    hide Ends;
    hide RunPhaseAt;
    hide Times;
    var end := if Extent(t).Some? then Extent(t).value else 0.0;
    AdvancedShows(r.(paused := false, pending := false, start := now - (r.delay + end) * 1000.0), count, Running(now, end), w.over, t, now);
  }

  lemma PauseShows(r: Run, count: int, w: Timer, t: Interval, e: Event)
    requires RunShows(r, w, t) && count >= Bit(r.active) && (e.act.PauseIt? || e.act.PlayIt?)
    ensures Follows(r, count, w, t, e)
  {
    hide TickRun;
    hide SeekRun;
    hide Ends;
    RunShowsReading(r, w, t, e.now);
  }

  lemma HappenToShows(r: Run, count: int, w: Timer, t: Interval, e: Event)
    requires RunShows(r, w, t) && count >= Bit(r.active)
    ensures Follows(r, count, w, t, e)
  {
    hide Follows;
    hide RunShows;
    match e.act {
      case Frame => FrameShows(r, count, w, t, e.now);
      case SeekTo(ms) => SeekShows(r, count, w, t, e.now, ms);
      case FinishIt => FinishShows(r, count, w, t, e.now);
      case _ => PauseShows(r, count, w, t, e);
    }
  }

  /** Whatever happens to an animation that is not cancelled, its time is that of a stopwatch with the
      same buttons pressed, and it is active exactly while the watch's light is off. */
  lemma {:induction false} AnimationIsStopwatch(start: Out<Run>, w: Timer, t: Interval, es: seq<Event>)
    requires RunShows(start.entity, w, t) && start.count >= Bit(start.entity.active)
    ensures var out, timer := HappenToAll(start, es), PressTimerAll(w, t, es);
            && RunShows(out.entity, timer, t) && out.count >= Bit(out.entity.active) && out.entity.script == start.entity.script
            && (out.entity.active <==> !timer.over)
            && (forall at :: RunElapsed(out.entity, at) == Reading(timer.watch, t.delay, at))
            && (es != [] && Tells(PressTimerAll(w, t, es[..|es| - 1]), es[|es| - 1].act) && !start.entity.script ==>
                  out.entity.phase == RunPhaseAt(out.entity, Reading(timer.watch, t.delay, es[|es| - 1].now)))
  {
    hide HappenTo;
    hide PressTimer;
    hide RunElapsed;
    hide RunPhaseAt;
    if es != [] {
      var front := es[..|es| - 1];
      AnimationIsStopwatch(start, w, t, front);
      var before := HappenToAll(start, front);
      HappenToShows(before.entity, before.count, PressTimerAll(w, t, front), t, es[|es| - 1]);
    }
    var out, timer := HappenToAll(start, es), PressTimerAll(w, t, es);
    forall at ensures RunElapsed(out.entity, at) == Reading(timer.watch, t.delay, at) { RunShowsReading(out.entity, timer, t, at); }
  }

  // ----- when the light is on -----

  /** A frame, a seek or a finish at position `i` of the history found the time past the end. */
  predicate FoundOver(w: Timer, t: Interval, es: seq<Event>, i: int) {
    && 0 <= i < |es| && (es[i].act.Frame? || es[i].act.SeekTo? || es[i].act.FinishIt?)
    && Ends(t, Reading(PressTimerAll(w, t, es[..i + 1]).watch, t.delay, es[i].now))
  }

  /** Nothing from position `i` on puts the light out. */
  predicate NotRestarted(es: seq<Event>, i: int) {
    forall j :: 0 <= j < |es| && i <= j ==> !es[j].act.PlayIt? && !es[j].act.SeekTo?
  }

  ghost predicate LastFoundOver(w: Timer, t: Interval, es: seq<Event>) {
    exists i :: FoundOver(w, t, es, i) && NotRestarted(es, i + 1)
  }

  /** An animation is over if and only if some frame, seek or finish found it past its end, or it was
      over to begin with, and nothing has played or sought it since. */
  lemma {:induction false} OverSince(w: Timer, t: Interval, es: seq<Event>)
    ensures PressTimerAll(w, t, es).over <==> (w.over && NotRestarted(es, 0)) || LastFoundOver(w, t, es)
    decreases |es|
  {
    hide Ends;
    hide Reading;
    hide PressTimer;
    hide LastFoundOver;
    if es == [] {
      NeverFound(w, t);
    } else {
      var front, e, last := es[..|es| - 1], es[|es| - 1], |es| - 1;
      OverSince(w, t, front);
      assert es[..last + 1] == es;
      FoundStep(w, t, es);
      EarlierRestarts(es, 0);
      LightAfter(PressTimerAll(w, t, front), t, e);
    }
  }

  lemma NeverFound(w: Timer, t: Interval)
    ensures !LastFoundOver(w, t, [])
  {}

  lemma FoundStep(w: Timer, t: Interval, es: seq<Event>)
    requires es != []
    ensures var front, e, last := es[..|es| - 1], es[|es| - 1], |es| - 1;
            LastFoundOver(w, t, es)
            <==> FoundOver(w, t, es, last) || (LastFoundOver(w, t, front) && !e.act.PlayIt? && !e.act.SeekTo?)
  {
    hide Ends;
    hide Reading;
    hide PressTimerAll;
    hide NotRestarted;
    var front, last := es[..|es| - 1], |es| - 1;
    EarlierRestarts(es, last);
    if i :| FoundOver(w, t, es, i) && NotRestarted(es, i + 1) {
      if i < last {
        EarlierRestarts(es, i + 1);
        SameBefore(w, t, es, i);
      }
    }
    if i :| FoundOver(w, t, front, i) && NotRestarted(front, i + 1) {
      EarlierRestarts(es, i + 1);
      SameBefore(w, t, es, i);
    }
    if FoundOver(w, t, es, last) { assert NotRestarted(es, last + 1); }
  }

  lemma SameBefore(w: Timer, t: Interval, es: seq<Event>, i: int)
    requires 0 <= i < |es| - 1
    ensures FoundOver(w, t, es, i) == FoundOver(w, t, es[..|es| - 1], i)
  {
    assert es[..i + 1] == es[..|es| - 1][..i + 1];
  }

  lemma EarlierRestarts(es: seq<Event>, i: int)
    requires 0 <= i < |es|
    ensures NotRestarted(es, i) <==>
            NotRestarted(es[..|es| - 1], i) && !es[|es| - 1].act.PlayIt? && !es[|es| - 1].act.SeekTo?
    ensures NotRestarted(es, |es|)
  {
    assert forall j :: 0 <= j < |es| - 1 ==> es[..|es| - 1][j] == es[j];
  }

  lemma LightAfter(w: Timer, t: Interval, e: Event)
    ensures var w' := PressTimer(w, t, e);
            w'.over <==>
              ((e.act.Frame? || e.act.SeekTo? || e.act.FinishIt?) && (e.act.Frame? ==> !w.over) && Ends(t, Reading(w'.watch, t.delay, e.now)))
              || (w.over && !e.act.PlayIt? && !e.act.SeekTo?)
  {}

  /** An animation a style has just started waits for its first frame, or stands still if it starts paused. */
  lemma StartedShows(r: Run, count: int, now: real, e: Item)
    requires RunOk(r) && r.name == None && !r.script && e.name.Some? && e.duration >= 0.0 && 0 <= count < MAX_ACTIVE
    ensures var out, t := StartRun(r, count, now, e), Interval(e.duration, e.delay, e.iterations);
            RunShows(out.entity, Timer(if e.paused then Stopped(-e.delay) else Waiting, Ends(t, -e.delay)), t)
            && out.count >= Bit(out.entity.active)
  {
    hide AdvanceAndTell;
    hide Ends;
    hide Times;
    var begun := Configure(r, e).(
      name := e.name, cancelledName := None, start := now, active := true, paused := e.paused, cssPaused := e.paused,
      apiOverride := false, pending := !e.paused, finished := false, phase := Idle, iters := 0, elapsedBase := -e.delay);
    var watch := if e.paused then Stopped(-e.delay) else Waiting;
    AdvancedShows(begun, if r.active then count else count + 1, watch, false, Interval(e.duration, e.delay, e.iterations), now);
  }
}
