/** The animation engine: every operation keeps its count, its active set and its event log. */
module AnimEngine {
  import opened Options
  import opened AnimSteps
  import opened AnimRuns
  import opened AnimLog
  import opened AnimMoves

  function IsActiveState(s: State): bool {
    || (exists i :: 0 <= i < |s.runs| && s.runs[i].active && !s.runs[i].paused)
    || (exists i :: 0 <= i < |s.scripts| && s.scripts[i].active && !s.scripts[i].paused)
    || (exists i :: 0 <= i < |s.chans| && s.chans[i].active && !s.chans[i].paused)
  }

  lemma CountCovers(states: map<Node, State>, n: Node)
    requires n in states
    ensures Total(states) >= StateCount(states[n]) >= 0
    ensures forall i :: 0 <= i < |states[n].chans| ==> Total(states) >= Bit(states[n].chans[i].active)
    ensures forall i :: 0 <= i < |states[n].runs| ==> Total(states) >= Bit(states[n].runs[i].active)
    ensures forall i :: 0 <= i < |states[n].scripts| ==> Total(states) >= Bit(states[n].scripts[i].active)
  {
    var s := states[n];
    TotalWithout(states, n);
    forall i | 0 <= i < |s.chans| ensures StateCount(s) >= Bit(s.chans[i].active) { ChansUpdate(s.chans, i, s.chans[i]); }
    forall i | 0 <= i < |s.runs| ensures StateCount(s) >= Bit(s.runs[i].active) { RunsUpdate(s.runs, i, s.runs[i]); }
    forall i | 0 <= i < |s.scripts| ensures StateCount(s) >= Bit(s.scripts[i].active) { RunsUpdate(s.scripts, i, s.scripts[i]); }
  }

  class Engine {
    var states: map<Node, State>
    var active: set<Node>
    var activeCount: int
    var log: seq<Event>
    var next: nat
    var ended: bool

    ghost predicate Consistent()
      reads this
    {
      Sound(states, activeCount, log, next)
    }

    /** The active set is exact for all elements but `n`. */
    ghost predicate TrackedBut(n: Node)
      reads this
    {
      forall m :: m != n ==> (m in active <==> m in states && IsActiveState(states[m]))
    }

    ghost predicate Tracked()
      reads this
    {
      forall m :: m in active <==> m in states && IsActiveState(states[m])
    }

    ghost predicate Valid()
      reads this
    {
      Consistent() && Tracked()
    }

    constructor ()
      ensures Valid() && states == map[] && log == [] && activeCount == 0
    {
      states, active, activeCount, log, next, ended := map[], {}, 0, [], 0, false;
    }

    /** One channel, the count and the log moved as `r` says, and nothing else. */
    twostate predicate ChanBecame(n: Node, i: nat, r: Out<Chan>)
      requires n in old(states) && i < |old(states)[n].chans|
      reads this
    {
      && states == old(states)[n := old(states)[n].(chans := old(states)[n].chans[i := r.entity])]
      && log == old(log) + Tagged(Who(old(states)[n].id, Channels, i), r.events) && activeCount == r.count
    }

    twostate predicate RunBecame(n: Node, part: Part, i: nat, r: Out<Run>)
      requires n in old(states) && part != Channels && i < |RunsOf(old(states)[n], part)|
      reads this
    {
      && states == old(states)[n := WithRuns(old(states)[n], part, RunsOf(old(states)[n], part)[i := r.entity])]
      && log == old(log) + Tagged(Who(old(states)[n].id, part, i), r.events) && activeCount == r.count
    }

    /** The state of `n`, the count and the log moved as `m` says, and nothing else. */
    twostate predicate StateBecame(n: Node, m: Moved)
      reads this
    {
      states == old(states)[n := m.state] && activeCount == m.count && log == old(log) + m.told
    }

    twostate predicate Unmoved()
      reads this
    {
      states == old(states) && log == old(log) && activeCount == old(activeCount) && active == old(active)
    }

    // ----- one entry changes -----

    method PutChan(n: Node, i: nat, r: Out<Chan>)
      requires Consistent() && n in states && i < |states[n].chans| && ChanLaw(states[n].chans[i], activeCount, r)
      modifies `states, `activeCount, `log
      ensures Consistent() && ChanBecame(n, i, r)
    {
      hide Sound;
      hide ChanLaw;
      ChanMoves(states, activeCount, log, next, n, i, r);
      var s := states[n];
      log := log + Tagged(Who(s.id, Channels, i), r.events);
      states := states[n := s.(chans := s.chans[i := r.entity])];
      activeCount := r.count;
    }

    method PutRun(n: Node, part: Part, i: nat, r: Out<Run>)
      requires Consistent() && n in states && part != Channels && i < |RunsOf(states[n], part)|
      requires RunLaw(RunsOf(states[n], part)[i], activeCount, r)
      modifies `states, `activeCount, `log
      ensures Consistent() && RunBecame(n, part, i, r)
    {
      hide Sound;
      hide RunLaw;
      RunMoves(states, activeCount, log, next, n, part, i, r);
      var s := states[n];
      log := log + Tagged(Who(s.id, part, i), r.events);
      states := states[n := WithRuns(s, part, RunsOf(s, part)[i := r.entity])];
      activeCount := r.count;
    }

    lemma ChanReady(n: Node, i: nat)
      requires Consistent() && n in states && i < |states[n].chans|
      ensures ChanOk(states[n].chans[i]) && activeCount >= Bit(states[n].chans[i].active)
    {
      CountCovers(states, n);
    }

    lemma RunReady(n: Node, part: Part, i: nat)
      requires Consistent() && n in states && part != Channels && i < |RunsOf(states[n], part)|
      ensures RunOk(RunsOf(states[n], part)[i]) && activeCount >= Bit(RunsOf(states[n], part)[i].active)
      ensures RunsOf(states[n], part)[i].script <==> part == Scripted
    {
      CountCovers(states, n);
    }

    method Track(n: Node)
      requires Consistent() && TrackedBut(n)
      modifies `active
      ensures Valid()
    {
      if n in states && IsActiveState(states[n]) {
        active := active + {n};
      } else {
        active := active - {n};
      }
    }

    /** The state of an element, made on first use. */
    method StateFor(n: Node)
      requires Consistent() && TrackedBut(n)
      modifies `states, `next
      ensures Consistent() && TrackedBut(n) && n in states
      ensures states == old(states)[n := StateOrNew(old(states), old(next), n)]
    {
      hide Sound;
      hide IsActiveState;
      SameWhere(states, n);
      if n in states { return; }
      FreshState(states, activeCount, log, next, n);
      states := states[n := State(next, [], [], [])];
      next := next + 1;
    }

    // ----- ticking -----

    method TickChans(n: Node, now: real)
      requires Consistent() && TrackedBut(n) && n in states
      modifies `states, `activeCount, `log, `ended
      ensures Consistent() && TrackedBut(n) && n in states
      ensures states == old(states)[n := old(states)[n].(chans := TickedChans(old(states)[n].chans, now))]
      ensures forall who :: Of(log, who) == Of(old(log), who) + TickToldUpTo(old(states)[n], Channels, |old(states)[n].chans|, who, now)
      ensures ended == (old(ended) || ChanRetires(old(states)[n].chans, now))
    {
      hide Consistent;
      hide TrackedBut;
      hide TickChan;
      hide Of;
      ghost var was := states[n];
      for i := 0 to |states[n].chans|
        invariant Consistent() && TrackedBut(n) && n in states
        invariant |states[n].chans| == |was.chans| && states == old(states)[n := was.(chans := states[n].chans)]
        invariant forall j :: 0 <= j < |was.chans| ==>
                    states[n].chans[j] == if j < i then TickChan(was.chans[j], 0, now).entity else was.chans[j]
        invariant forall who :: Of(log, who) == Of(old(log), who) + TickToldUpTo(was, Channels, i, who, now)
        invariant ended == (old(ended) || ChanRetires(was.chans[..i], now))
      {
        ChanRetiresNext(was.chans, i, now);
        TickOneChan(n, i, now);
      }
      assert states[n].chans == TickedChans(was.chans, now) && was.chans[..|was.chans|] == was.chans;
    }

    method TickOneChan(n: Node, i: nat, now: real)
      requires Consistent() && TrackedBut(n) && n in states && i < |states[n].chans|
      modifies `states, `activeCount, `log, `ended
      ensures Consistent() && TrackedBut(n)
      ensures var s, cs := old(states)[n], old(states)[n].chans;
              && states == old(states)[n := s.(chans := cs[i := TickChan(cs[i], 0, now).entity])]
              && (ended == (old(ended) || (cs[i].active && !TickChan(cs[i], 0, now).entity.active)))
              && forall who :: Of(log, who) == Of(old(log), who) + if who == Who(s.id, Channels, i) then TickChan(cs[i], 0, now).events else []
    {
      hide Sound;
      hide ChanLaw;
      hide TickChan;
      hide Of;
      var c := states[n].chans[i];
      CountIsIdle(c, activeCount, now);
      if c.active && !c.paused {
        ChanReady(n, i);
        TickChanLaw(c, activeCount, now);
        var r := TickChan(c, activeCount, now);
        LogGrows(log, Who(states[n].id, Channels, i), r.events);
        PutChan(n, i, r);
        if !r.entity.active { ended := true; }
      } else {
        assert states[n].chans[i := c] == states[n].chans;
      }
    }

    method TickRuns(n: Node, part: Part, now: real)
      requires Consistent() && TrackedBut(n) && n in states && part != Channels
      modifies `states, `activeCount, `log, `ended
      ensures Consistent() && TrackedBut(n) && n in states
      ensures states == old(states)[n := WithRuns(old(states)[n], part, TickedRuns(RunsOf(old(states)[n], part), now))]
      ensures forall who :: Of(log, who) == Of(old(log), who) + TickToldUpTo(old(states)[n], part, |RunsOf(old(states)[n], part)|, who, now)
      ensures ended == (old(ended) || RunRetires(RunsOf(old(states)[n], part), now))
    {
      hide Consistent;
      hide TrackedBut;
      hide TickRun;
      hide Of;
      ghost var was := states[n];
      for i := 0 to |RunsOf(states[n], part)|
        invariant Consistent() && TrackedBut(n) && n in states
        invariant |RunsOf(states[n], part)| == |RunsOf(was, part)|
        invariant states == old(states)[n := WithRuns(was, part, RunsOf(states[n], part))]
        invariant forall j :: 0 <= j < |RunsOf(was, part)| ==>
                    RunsOf(states[n], part)[j] == if j < i then TickRun(RunsOf(was, part)[j], 0, now).entity else RunsOf(was, part)[j]
        invariant forall who :: Of(log, who) == Of(old(log), who) + TickToldUpTo(was, part, i, who, now)
        invariant ended == (old(ended) || RunRetires(RunsOf(was, part)[..i], now))
      {
        RunRetiresNext(RunsOf(was, part), i, now);
        TickOneRun(n, part, i, now);
      }
      assert RunsOf(states[n], part) == TickedRuns(RunsOf(was, part), now);
      assert RunsOf(was, part)[..|RunsOf(was, part)|] == RunsOf(was, part);
    }

    method TickOneRun(n: Node, part: Part, i: nat, now: real)
      requires Consistent() && TrackedBut(n) && n in states && part != Channels && i < |RunsOf(states[n], part)|
      modifies `states, `activeCount, `log, `ended
      ensures Consistent() && TrackedBut(n)
      ensures var s, rs := old(states)[n], RunsOf(old(states)[n], part);
              && states == old(states)[n := WithRuns(s, part, rs[i := TickRun(rs[i], 0, now).entity])]
              && (ended == (old(ended) || (rs[i].active && !TickRun(rs[i], 0, now).entity.active)))
              && forall who :: Of(log, who) == Of(old(log), who) + if who == Who(s.id, part, i) then TickRun(rs[i], 0, now).events else []
    {
      hide Sound;
      hide RunLaw;
      hide TickRun;
      hide Of;
      var r := RunsOf(states[n], part)[i];
      CountIsIdleRun(r, activeCount, now);
      if r.active {
        RunReady(n, part, i);
        TickRunLaw(r, activeCount, now);
        var out := TickRun(r, activeCount, now);
        LogGrows(log, Who(states[n].id, part, i), out.events);
        PutRun(n, part, i, out);
        if !out.entity.active { ended := true; }
      } else {
        assert RunsOf(states[n], part)[i := r] == RunsOf(states[n], part);
      }
    }

    lemma ActiveIsIn(n: Node)
      requires Valid() && n in active
      ensures n in states
    {}

    /** One frame: every active element advances, and those with nothing left to do leave the set. */
    method Tick(now: real)
      requires Valid()
      modifies this
      ensures Valid() && states.Keys == old(states).Keys
      ensures forall n :: n in states ==> states[n] == if n in old(active) then Ticked(old(states)[n], now) else old(states)[n]
      ensures forall n, part: Part, i: nat :: n in states ==>
                var s, who := old(states)[n], Who(old(states)[n].id, part, i);
                Of(log, who) == Of(old(log), who) + if n in old(active) then TickTold(s, who, now) else []
      ensures ended == (old(ended) || exists n :: n in old(active) && n in old(states) && Retires(old(states)[n], now))
    {
      hide Valid;
      hide Sound;
      hide IsActiveState;
      hide TickedChans;
      hide TickedRuns;
      hide Retires;
      IdsApart();
      var left := active;
      while left != {}
        invariant Valid() && left <= active && left <= old(active) && states.Keys == old(states).Keys
        invariant forall n :: n in states ==>
                    states[n] == if n in old(active) && n !in left then Ticked(old(states)[n], now) else old(states)[n]
        invariant forall n, part: Part, i: nat :: n in states ==>
                    var s, who := old(states)[n], Who(old(states)[n].id, part, i);
                    Of(log, who) == Of(old(log), who) + if n in old(active) && n !in left then TickTold(s, who, now) else []
        invariant ended == (old(ended) || exists n :: n in old(active) && n !in left && n in old(states) && Retires(old(states)[n], now))
        decreases left
      {
        var n :| n in left;
        ActiveIsIn(n);
        left := left - {n};
        TickState(n, now);
      }
    }

    lemma IdsApart()
      requires Valid()
      ensures forall m, n :: m in states && n in states && states[m].id == states[n].id ==> m == n
    {}

    method TickState(n: Node, now: real)
      requires Valid() && n in active
      modifies this
      ensures Valid() && n in old(states) && states == old(states)[n := Ticked(old(states)[n], now)]
      ensures old(active) - {n} <= active <= old(active)
      ensures forall who :: Of(log, who) == Of(old(log), who) + TickTold(old(states)[n], who, now)
      ensures ended == (old(ended) || Retires(old(states)[n], now))
    {
      hide Sound;
      hide IsActiveState;
      hide TickedChans;
      hide TickedRuns;
      hide TickToldUpTo;
      hide TickTold;
      hide ChanRetires;
      hide RunRetires;
      hide Of;
      ghost var was, before := states[n], log;
      TickChans(n, now);
      ghost var one, after1 := states[n], log;
      TickRuns(n, Styled, now);
      ghost var two, after2 := states[n], log;
      TickRuns(n, Scripted, now);
      AllTold(was, one, two, before, after1, after2, log, now);
      if !IsActiveState(states[n]) { active := active - {n}; }
    }

    // ----- script calls on one entry -----

    /** Setting the current time of a transition. */
    method SeekTransition(n: Node, i: nat, now: real, ms: real) returns (ok: bool)
      requires Valid()
      modifies `states, `activeCount, `log, `active
      ensures Valid()
      ensures ok == (n in old(states) && i < |old(states)[n].chans| && (old(states)[n].chans[i].active || old(states)[n].chans[i].finished))
      ensures if ok then ChanBecame(n, i, SeekChan(old(states)[n].chans[i], old(activeCount), now, ms)) else Unmoved()
    {
      hide Sound;
      hide ChanLaw;
      hide SeekChan;
      hide IsActiveState;
      if n !in states || i >= |states[n].chans| { return false; }
      var c := states[n].chans[i];
      if !c.active && !c.finished { return false; }
      ChanReady(n, i);
      SeekChanLaw(c, activeCount, now, ms);
      var r := SeekChan(c, activeCount, now, ms);
      PutChan(n, i, r);
      Track(n);
      ok := true;
    }

    /** Pausing, playing, finishing or cancelling a transition. */
    method ControlTransition(n: Node, i: nat, now: real, op: Op) returns (ok: bool)
      requires Valid()
      modifies `states, `activeCount, `log, `active
      ensures Valid()
      ensures ok == (n in old(states) && i < |old(states)[n].chans| && AcceptsChan(old(states)[n].chans[i], op))
      ensures if ok then ChanBecame(n, i, ControlChan(old(states)[n].chans[i], old(activeCount), now, op)) else Unmoved()
    {
      hide Sound;
      hide ChanLaw;
      hide ControlChan;
      hide IsActiveState;
      if n !in states || i >= |states[n].chans| { return false; }
      var c := states[n].chans[i];
      if !c.active && !c.finished && !c.cancelled { return false; }
      if c.cancelled && op != Play { return false; }
      ChanReady(n, i);
      ControlChanLaw(c, activeCount, now, op);
      var r := ControlChan(c, activeCount, now, op);
      PutChan(n, i, r);
      Track(n);
      ok := true;
    }

    method SeekAnimation(n: Node, part: Part, i: nat, now: real, ms: real) returns (ok: bool)
      requires Valid() && part != Channels
      modifies `states, `activeCount, `log, `active
      ensures Valid()
      ensures ok == (n in old(states) && i < |RunsOf(old(states)[n], part)| && IsHandle(RunsOf(old(states)[n], part)[i]))
      ensures if ok then RunBecame(n, part, i, SeekRun(RunsOf(old(states)[n], part)[i], old(activeCount), now, ms)) else Unmoved()
    {
      hide Sound;
      hide RunLaw;
      hide SeekRun;
      hide IsActiveState;
      if n !in states || i >= |RunsOf(states[n], part)| { return false; }
      var r := RunsOf(states[n], part)[i];
      if !IsHandle(r) { return false; }
      RunReady(n, part, i);
      SeekRunLaw(r, activeCount, now, ms);
      var out := SeekRun(r, activeCount, now, ms);
      PutRun(n, part, i, out);
      Track(n);
      ok := true;
    }

    method ControlAnimation(n: Node, part: Part, i: nat, now: real, op: Op) returns (ok: bool)
      requires Valid() && part != Channels
      modifies `states, `activeCount, `log, `active
      ensures Valid()
      ensures ok == (n in old(states) && i < |RunsOf(old(states)[n], part)| && AcceptsRun(RunsOf(old(states)[n], part)[i], op))
      ensures if ok then RunBecame(n, part, i, ControlRun(RunsOf(old(states)[n], part)[i], old(activeCount), now, op)) else Unmoved()
    {
      hide Sound;
      hide RunLaw;
      hide ControlRun;
      hide IsActiveState;
      if n !in states || i >= |RunsOf(states[n], part)| { return false; }
      var r := RunsOf(states[n], part)[i];
      if !IsHandle(r) { return false; }
      if r.name == None && op != Play { return false; }
      RunReady(n, part, i);
      ControlRunLaw(r, activeCount, now, op);
      var out := ControlRun(r, activeCount, now, op);
      PutRun(n, part, i, out);
      Track(n);
      ok := true;
    }

    /** A script animation, in a free place of the element's list. */
    method ScriptStart(n: Node, now: real, t: Timing) returns (ok: bool, index: nat)
      requires Valid()
      modifies `states, `activeCount, `log, `active, `next
      ensures Valid() && ok == (old(activeCount) < MAX_ACTIVE)
      ensures !ok ==> Unmoved()
      ensures ok ==>
                var s := StateOrNew(old(states), old(next), n);
                index == FirstFree(s.scripts) && StateBecame(n, StartScriptIn(s, old(activeCount), now, t))
    {
      hide Sound;
      hide RunLaw;
      hide StartScript;
      hide IsActiveState;
      index := 0;
      if activeCount >= MAX_ACTIVE { return false, 0; }
      StateFor(n);
      ghost var s := states[n];
      while index < |states[n].scripts| && !IsFree(states[n].scripts[index])
        invariant index <= FirstFree(states[n].scripts)
      {
        index := index + 1;
      }
      if index == |states[n].scripts| { AddRun(n, Scripted); }
      var r := states[n].scripts[index];
      RunReady(n, Scripted, index);
      NoNegativeCount();
      StartScriptLaw(r, activeCount, now, t);
      var out := StartScript(r, activeCount, now, t);
      PutRun(n, Scripted, index, out);
      Track(n);
      ok := true;
    }

    lemma NoNegativeCount()
      requires Consistent()
      ensures activeCount >= 0
    {}

    // ----- observing a style -----

    /** The listed properties in turn, each by the place of its channel; then those no longer listed. */
    method ObserveTransitions(n: Node, listed: seq<(nat, Observation)>, now: real, hidden: bool)
      requires Consistent() && TrackedBut(n) && n in states
      requires InPlace(listed, |states[n].chans|)
      modifies `states, `activeCount, `log
      ensures Consistent() && TrackedBut(n)
      ensures StateBecame(n, ObserveAllChans(old(states)[n], old(activeCount), listed, now, hidden))
    {
      hide Sound;
      hide ObserveListed;
      hide DropRest;
      ObserveEach(n, listed, now);
      DropUnlisted(n, listed, now, hidden);
    }

    method ObserveEach(n: Node, listed: seq<(nat, Observation)>, now: real)
      requires Consistent() && TrackedBut(n) && n in states
      requires InPlace(listed, |states[n].chans|)
      modifies `states, `activeCount, `log
      ensures Consistent() && TrackedBut(n)
      ensures StateBecame(n, ObserveListed(old(states)[n], old(activeCount), listed, now))
    {
      hide Sound;
      hide ObserveChanIn;
      ghost var all, told := ObserveListed(states[n], activeCount, listed, now), [];
      assert all.After([]) == all;
      for k := 0 to |listed|
        invariant Consistent() && TrackedBut(n) && n in states && InPlace(listed[k..], |states[n].chans|)
        invariant states == old(states)[n := states[n]] && log == old(log) + told
        invariant all == ObserveListed(states[n], activeCount, listed[k..], now).After(told)
      {
        assert listed[k..][0] == listed[k] && listed[k..][1..] == listed[k + 1..];
        ghost var m := ObserveChanIn(states[n], activeCount, listed[k], now);
        ObserveOneChan(n, listed[k].0, listed[k].1, now);
        AfterAfter(ObserveListed(m.state, m.count, listed[k + 1..], now), told, m.told);
        told := told + m.told;
      }
    }

    method ObserveOneChan(n: Node, i: nat, o: Observation, now: real)
      requires Consistent() && TrackedBut(n) && n in states && i <= |states[n].chans|
      modifies `states, `activeCount, `log
      ensures Consistent() && TrackedBut(n)
      ensures StateBecame(n, ObserveChanIn(old(states)[n], old(activeCount), (i, o), now))
    {
      hide Sound;
      hide ChanLaw;
      hide ObserveChan;
      if i == |states[n].chans| { AddChan(n); }
      ChanReady(n, i);
      ObserveChanLaw(states[n].chans[i], activeCount, now, o);
      var r := ObserveChan(states[n].chans[i], activeCount, now, o);
      PutChan(n, i, r);
    }

    method DropUnlisted(n: Node, listed: seq<(nat, Observation)>, now: real, hidden: bool)
      requires Consistent() && TrackedBut(n) && n in states
      modifies `states, `activeCount, `log
      ensures Consistent() && TrackedBut(n)
      ensures StateBecame(n, DropRest(old(states)[n], old(activeCount), 0, listed, now, hidden))
    {
      hide Consistent;
      hide TrackedBut;
      hide DropChan;
      ghost var all, told := DropRest(states[n], activeCount, 0, listed, now, hidden), [];
      assert all.After([]) == all;
      for i := 0 to |states[n].chans|
        invariant Consistent() && TrackedBut(n) && n in states && |states[n].chans| == |old(states)[n].chans|
        invariant states == old(states)[n := states[n]] && log == old(log) + told
        invariant all == DropRest(states[n], activeCount, i, listed, now, hidden).After(told)
      {
        if forall k :: 0 <= k < |listed| ==> listed[k].0 != i {
          ghost var m := MoveChan(states[n], i, DropChan(states[n].chans[i], activeCount, now, hidden));
          DropOneChan(n, i, now, hidden);
          AfterAfter(DropRest(m.state, m.count, i + 1, listed, now, hidden), told, m.told);
          told := told + m.told;
        }
      }
    }

    method DropOneChan(n: Node, i: nat, now: real, hidden: bool)
      requires Consistent() && TrackedBut(n) && n in states && i < |states[n].chans|
      modifies `states, `activeCount, `log
      ensures Consistent() && TrackedBut(n)
      ensures StateBecame(n, MoveChan(old(states)[n], i, DropChan(old(states)[n].chans[i], old(activeCount), now, hidden)))
    {
      hide Sound;
      hide ChanLaw;
      hide DropChan;
      ChanReady(n, i);
      DropChanLaw(states[n].chans[i], activeCount, now, hidden);
      var r := DropChan(states[n].chans[i], activeCount, now, hidden);
      PutChan(n, i, r);
    }

    /** Each run is brought in line with the item at its place; runs past the list are cancelled,
        and nameless ones at the end are given up. */
    method ObserveAnimations(n: Node, items: seq<Item>, now: real)
      requires Consistent() && TrackedBut(n) && n in states
      modifies `states, `activeCount, `log
      ensures Consistent() && TrackedBut(n)
      ensures StateBecame(n, ObserveAllRuns(old(states)[n], old(activeCount), items, now))
    {
      hide Consistent;
      hide TrackedBut;
      hide ObserveRunIn;
      hide DropRuns;
      hide Trimmed;
      ghost var all, told := ObserveItems(states[n], activeCount, 0, items, now), [];
      assert all.After([]) == all;
      for i := 0 to |items|
        invariant Consistent() && TrackedBut(n) && n in states && |states[n].runs| >= i
        invariant states == old(states)[n := states[n]] && log == old(log) + told
        invariant all == ObserveItems(states[n], activeCount, i, items, now).After(told)
      {
        ghost var m := ObserveRunIn(states[n], activeCount, i, items[i], now);
        ObserveOneRun(n, i, items[i], now);
        AfterAfter(ObserveItems(m.state, m.count, i + 1, items, now), told, m.told);
        told := told + m.told;
      }
      assert all == Moved(states[n], activeCount, told);
      CancelPast(n, |items|, now);
      TrimRuns(n);
    }

    method ObserveOneRun(n: Node, i: nat, e: Item, now: real)
      requires Consistent() && TrackedBut(n) && n in states && i <= |states[n].runs|
      modifies `states, `activeCount, `log
      ensures Consistent() && TrackedBut(n)
      ensures StateBecame(n, ObserveRunIn(old(states)[n], old(activeCount), i, e, now))
    {
      hide Consistent;
      hide RunLaw;
      hide ObserveRun;
      if |states[n].runs| <= i { AddRun(n, Styled); }
      RunReady(n, Styled, i);
      ObserveRunLaw(states[n].runs[i], activeCount, now, e);
      var r := ObserveRun(states[n].runs[i], activeCount, now, e);
      PutRun(n, Styled, i, r);
    }

    /** Giving up the runs at the end of the list that nothing refers to. */
    method TrimRuns(n: Node)
      requires Consistent() && TrackedBut(n) && n in states
      modifies `states
      ensures Consistent() && TrackedBut(n)
      ensures states == old(states)[n := old(states)[n].(runs := Trimmed(old(states)[n].runs))]
    {
      hide Consistent;
      hide TrackedBut;
      ghost var was := states[n];
      while |states[n].runs| > 0 && !IsHandle(states[n].runs[|states[n].runs| - 1])
        invariant Consistent() && TrackedBut(n) && n in states
        invariant states == old(states)[n := was.(runs := states[n].runs)] && Trimmed(states[n].runs) == Trimmed(was.runs)
        decreases |states[n].runs|
      {
        TrimOne(n);
      }
    }

    method TrimOne(n: Node)
      requires Consistent() && TrackedBut(n) && n in states && states[n].runs != [] && !IsHandle(states[n].runs[|states[n].runs| - 1])
      modifies `states
      ensures Consistent() && TrackedBut(n)
      ensures states == old(states)[n := old(states)[n].(runs := old(states)[n].runs[..|old(states)[n].runs| - 1])]
    {
      hide Sound;
      RunTrimmed(states, activeCount, log, next, n);
      states := states[n := states[n].(runs := states[n].runs[..|states[n].runs| - 1])];
    }

    method CancelPast(n: Node, from: nat, now: real)
      requires Consistent() && TrackedBut(n) && n in states && from <= |states[n].runs|
      modifies `states, `activeCount, `log
      ensures Consistent() && TrackedBut(n)
      ensures StateBecame(n, DropRuns(old(states)[n], old(activeCount), from, now))
    {
      hide Consistent;
      hide TrackedBut;
      hide DropRun;
      ghost var all, told := DropRuns(states[n], activeCount, from, now), [];
      assert all.After([]) == all;
      for i := from to |states[n].runs|
        invariant Consistent() && TrackedBut(n) && n in states && |states[n].runs| == |old(states)[n].runs|
        invariant states == old(states)[n := states[n]] && log == old(log) + told
        invariant all == DropRuns(states[n], activeCount, i, now).After(told)
      {
        ghost var m := MoveRun(states[n], Styled, i, DropRun(states[n].runs[i], activeCount, now));
        CancelOneRun(n, i, now);
        AfterAfter(DropRuns(m.state, m.count, i + 1, now), told, m.told);
        told := told + m.told;
      }
    }

    method CancelOneRun(n: Node, i: nat, now: real)
      requires Consistent() && TrackedBut(n) && n in states && i < |states[n].runs|
      modifies `states, `activeCount, `log
      ensures Consistent() && TrackedBut(n)
      ensures StateBecame(n, MoveRun(old(states)[n], Styled, i, DropRun(old(states)[n].runs[i], old(activeCount), now)))
    {
      hide Sound;
      hide RunLaw;
      hide DropRun;
      RunReady(n, Styled, i);
      DropRunLaw(states[n].runs[i], activeCount, now);
      var r := DropRun(states[n].runs[i], activeCount, now);
      PutRun(n, Styled, i, r);
    }

    /** One element's new style: its transitions, then its animations. A hidden element drops all. */
    method Observe(n: Node, listed: seq<(nat, Observation)>, items: seq<Item>, now: real, hidden: bool)
      requires Valid()
      requires InPlace(listed, if n in states then |states[n].chans| else 0)
      modifies `states, `activeCount, `log, `active, `next
      ensures Valid()
      ensures if n !in old(states) && listed == [] && items == [] then Unmoved()
              else StateBecame(n, ObserveState(StateOrNew(old(states), old(next), n), old(activeCount), listed, items, now, hidden))
    {
      hide Sound;
      hide IsActiveState;
      hide ObserveState;
      if n !in states && listed == [] && items == [] { return; }
      ghost var s := StateOrNew(states, next, n);
      StateFor(n);
      ObserveOne(n, s, listed, items, now, hidden);
      Track(n);
    }

    method ObserveOne(n: Node, ghost s: State, listed: seq<(nat, Observation)>, items: seq<Item>, now: real, hidden: bool)
      requires Consistent() && TrackedBut(n) && n in states && states[n] == s && InPlace(listed, |s.chans|)
      modifies `states, `activeCount, `log
      ensures Consistent() && TrackedBut(n)
      ensures StateBecame(n, ObserveState(s, old(activeCount), listed, items, now, hidden))
    {
      hide Sound;
      hide IsActiveState;
      hide InPlace;
      hide ObserveAllChans;
      hide ObserveAllRuns;
      assert InPlace([], |s.chans|) by { NothingListed(|s.chans|); }
      ObserveTransitions(n, if hidden then [] else listed, now, hidden);
      ObserveAnimations(n, if hidden then [] else items, now);
    }

    // ----- elements that went away -----

    /** Dropping the states of elements that are no longer styled. */
    method Prune(live: set<Node>)
      requires Valid()
      modifies `states, `activeCount, `active
      ensures Valid() && states == old(states) - (old(states).Keys - live)
    {
      hide Sound;
      hide IsActiveState;
      var left := states.Keys - live;
      while left != {}
        invariant Valid() && left <= states.Keys && states == old(states) - (old(states).Keys - live - left)
        decreases left
      {
        var n :| n in left;
        left := left - {n};
        PrunedCount(n);
        StatePruned(states, activeCount, log, next, n);
        var fewer := activeCount - StateCount(states[n]);
        activeCount := if fewer < 0 then 0 else fewer;
        active := active - {n};
        states := states - {n};
      }
    }

    lemma PrunedCount(n: Node)
      requires Consistent() && n in states
      ensures activeCount - StateCount(states[n]) >= 0
    {
      CountCovers(states, n);
    }

    /** Moving every start time to a new time base. */
    method Rebase(base: real)
      requires Valid()
      modifies `states
      ensures Valid() && states.Keys == old(states).Keys
      ensures forall n :: n in states ==> states[n] == Rebased(old(states)[n], base)
    {
      hide Sound;
      hide Rebased;
      var left := states.Keys;
      while left != {}
        invariant Valid() && states.Keys == old(states).Keys && left <= states.Keys
        invariant forall n :: n in states ==> states[n] == if n in left then old(states)[n] else Rebased(old(states)[n], base)
        decreases left
      {
        var n :| n in left;
        left := left - {n};
        RebasedState(states, activeCount, log, next, n, base);
        RebasedStays(states[n], base);
        states := states[n := Rebased(states[n], base)];
      }
    }

    /** A run at rest at the end of a list. */
    method AddRun(n: Node, part: Part)
      requires Consistent() && TrackedBut(n) && n in states && part != Channels
      modifies `states
      ensures Consistent() && TrackedBut(n)
      ensures states == old(states)[n := WithRuns(old(states)[n], part, RunsOf(old(states)[n], part) + [NewRun(part == Scripted)])]
    {
      hide Sound;
      RunAdded(states, activeCount, log, next, n, part);
      states := states[n := WithRuns(states[n], part, RunsOf(states[n], part) + [NewRun(part == Scripted)])];
    }

    method AddChan(n: Node)
      requires Consistent() && TrackedBut(n) && n in states
      modifies `states
      ensures Consistent() && TrackedBut(n)
      ensures states == old(states)[n := old(states)[n].(chans := old(states)[n].chans + [NEW_CHAN])]
    {
      hide Sound;
      ChanAdded(states, activeCount, log, next, n);
      states := states[n := states[n].(chans := states[n].chans + [NEW_CHAN])];
    }
  }

  /** A new element's state has said nothing and counts for nothing. */
  lemma FreshState(states: map<Node, State>, count: int, log: seq<Event>, next: nat, n: Node)
    requires Sound(states, count, log, next) && n !in states
    ensures Sound(states[n := State(next, [], [], [])], count, log, next + 1)
  {
    hide Said;
    hide Agrees;
    hide StateOk;
    TotalUpdate(states, n, State(next, [], [], []));
    NothingSaid(log, next);
  }

  lemma NothingSaid(log: seq<Event>, next: nat)
    requires Legal(log, next)
    ensures Agrees(log, State(next, [], [], [])) && StateOk(State(next, [], [], []))
  {
    hide Said;
    forall part: Part, i: nat ensures Said(log, Who(next, part, i)) == Some(Closed) {
      assert Who(next, part, i).owner >= next;
    }
  }

  function TickedChans(cs: seq<Chan>, now: real): seq<Chan> {
    seq(|cs|, i requires 0 <= i < |cs| => TickChan(cs[i], 0, now).entity)
  }

  function TickedRuns(rs: seq<Run>, now: real): seq<Run> {
    seq(|rs|, i requires 0 <= i < |rs| => TickRun(rs[i], 0, now).entity)
  }

  /** A state with all its channels and runs advanced. */
  function Ticked(s: State, now: real): State {
    State(s.id, TickedChans(s.chans, now), TickedRuns(s.runs, now), TickedRuns(s.scripts, now))
  }

  /** The count passes through a tick without affecting the entry. */
  lemma CountIsIdle(c: Chan, count: int, now: real)
    ensures TickChan(c, count, now).entity == TickChan(c, 0, now).entity
    ensures TickChan(c, count, now).events == TickChan(c, 0, now).events
    ensures !c.active || c.paused ==> TickChan(c, 0, now) == Out(c, [], 0)
  {}

  lemma CountIsIdleRun(r: Run, count: int, now: real)
    ensures TickRun(r, count, now).entity == TickRun(r, 0, now).entity
    ensures TickRun(r, count, now).events == TickRun(r, 0, now).events
    ensures !r.active ==> TickRun(r, 0, now) == Out(r, [], 0)
  {
    hide AdvanceRun;
    hide Progress;
    var begun := if r.pending then r.(pending := false, start := now) else r;
    CountIsIdleAdvance(begun, count, now);
    var a, b := AdvanceRun(begun, count, now), AdvanceRun(begun, 0, now);
    CountIsIdleProgress(a.entity, a.count, b.count, now);
  }

  lemma CountIsIdleAdvance(r: Run, count: int, now: real)
    ensures AdvanceRun(r, count, now).entity == AdvanceRun(r, 0, now).entity
    ensures AdvanceRun(r, count, now).events == AdvanceRun(r, 0, now).events
  {
    hide IsOver;
    hide RunElapsed;
  }

  lemma CountIsIdleProgress(r: Run, a: int, b: int, now: real)
    ensures Progress(r, a, now).entity == Progress(r, b, now).entity && Progress(r, a, now).events == Progress(r, b, now).events
  {
    hide IsOver;
    hide RunElapsed;
    hide Current;
    hide Reached;
    hide Max;
    hide RunPhaseEvents;
    hide LastIteration;
  }

  lemma RebasedStays(s: State, base: real)
    ensures IsActiveState(Rebased(s, base)) == IsActiveState(s)
  {
    var t := Rebased(s, base);
    assert forall i :: 0 <= i < |s.runs| ==> t.runs[i].active == s.runs[i].active && t.runs[i].paused == s.runs[i].paused;
    assert forall i :: 0 <= i < |s.scripts| ==> t.scripts[i].active == s.scripts[i].active && t.scripts[i].paused == s.scripts[i].paused;
    assert forall i :: 0 <= i < |s.chans| ==> t.chans[i].active == s.chans[i].active && t.chans[i].paused == s.chans[i].paused;
  }

  predicate IsFree(r: Run) { r.name == None && r.cancelledName == None && !r.active }

  /** A transition that is neither active, finished nor cancelled is out of reach, and a cancelled one
      can only be played. */
  predicate AcceptsChan(c: Chan, op: Op) {
    (c.active || c.finished || c.cancelled) && (c.cancelled ==> op == Play)
  }

  /** Likewise for a run: without a name, which only a cancelled one keeps, it can only be played. */
  predicate AcceptsRun(r: Run, op: Op) {
    IsHandle(r) && (r.name == None ==> op == Play)
  }

  lemma NothingListed(size: nat)
    ensures InPlace([], size)
  {}

  /** The first free place of a list; its length if there is none. */
  function FirstFree(rs: seq<Run>): (i: nat)
    ensures i <= |rs| && (i < |rs| ==> IsFree(rs[i])) && forall j :: 0 <= j < i ==> !IsFree(rs[j])
  {
    if rs == [] || IsFree(rs[0]) then 0 else 1 + FirstFree(rs[1..])
  }

  /** A script animation started in the first free place, or in a new one. */
  function StartScriptIn(s: State, count: int, now: real, t: Timing): Moved {
    var i := FirstFree(s.scripts);
    var made := if i < |s.scripts| then s else s.(scripts := s.scripts + [NewRun(true)]);
    MoveRun(made, Scripted, i, StartScript(made.scripts[i], count, now, t))
  }

  function StateOrNew(states: map<Node, State>, next: nat, n: Node): State {
    if n in states then states[n] else State(next, [], [], [])
  }

  // ----- what a frame retires -----

  predicate ChanRetires(cs: seq<Chan>, now: real) {
    exists i :: 0 <= i < |cs| && cs[i].active && !TickChan(cs[i], 0, now).entity.active
  }

  predicate RunRetires(rs: seq<Run>, now: real) {
    exists i :: 0 <= i < |rs| && rs[i].active && !TickRun(rs[i], 0, now).entity.active
  }

  /** Some transition or animation of the element comes to its end in this frame. */
  predicate Retires(s: State, now: real) {
    ChanRetires(s.chans, now) || RunRetires(s.runs, now) || RunRetires(s.scripts, now)
  }

  lemma ChanRetiresNext(cs: seq<Chan>, i: nat, now: real)
    requires i < |cs|
    ensures ChanRetires(cs[..i + 1], now) <==> ChanRetires(cs[..i], now) || (cs[i].active && !TickChan(cs[i], 0, now).entity.active)
  {
    hide TickChan;
    assert cs[..i + 1] == cs[..i] + [cs[i]];
    if ChanRetires(cs[..i], now) {
      var k :| 0 <= k < i && cs[..i][k].active && !TickChan(cs[..i][k], 0, now).entity.active;
      assert cs[..i + 1][k] == cs[..i][k];
    }
    if cs[i].active && !TickChan(cs[i], 0, now).entity.active { assert cs[..i + 1][i] == cs[i]; }
  }

  lemma RunRetiresNext(rs: seq<Run>, i: nat, now: real)
    requires i < |rs|
    ensures RunRetires(rs[..i + 1], now) <==> RunRetires(rs[..i], now) || (rs[i].active && !TickRun(rs[i], 0, now).entity.active)
  {
    hide TickRun;
    assert rs[..i + 1] == rs[..i] + [rs[i]];
    if RunRetires(rs[..i], now) {
      var k :| 0 <= k < i && rs[..i][k].active && !TickRun(rs[..i][k], 0, now).entity.active;
      assert rs[..i + 1][k] == rs[..i][k];
    }
    if rs[i].active && !TickRun(rs[i], 0, now).entity.active { assert rs[..i + 1][i] == rs[i]; }
  }

  /** What the first `k` entries of a part of `s` say in a frame. */
  function TickToldUpTo(s: State, part: Part, k: nat, who: Who, now: real): seq<Kind> {
    if who.part == part && who.index < k then TickTold(s, who, now) else []
  }

  /** The three parts of a state, told one after the other. */
  lemma AllTold(was: State, one: State, two: State, l0: seq<Event>, l1: seq<Event>, l2: seq<Event>, l3: seq<Event>, now: real)
    requires one == was.(chans := one.chans) && two == one.(runs := two.runs)
    requires forall who :: Of(l1, who) == Of(l0, who) + TickToldUpTo(was, Channels, |was.chans|, who, now)
    requires forall who :: Of(l2, who) == Of(l1, who) + TickToldUpTo(one, Styled, |one.runs|, who, now)
    requires forall who :: Of(l3, who) == Of(l2, who) + TickToldUpTo(two, Scripted, |two.scripts|, who, now)
    ensures forall who :: Of(l3, who) == Of(l0, who) + TickTold(was, who, now)
  {
    hide Of;
    hide TickChan;
    hide TickRun;
    forall who ensures Of(l3, who) == Of(l0, who) + TickTold(was, who, now) {
      assert Of(l1, who) == Of(l0, who) + TickToldUpTo(was, Channels, |was.chans|, who, now);
    }
  }

  lemma LogGrows(log: seq<Event>, who: Who, ks: seq<Kind>)
    ensures forall other :: Of(log + Tagged(who, ks), other) == Of(log, other) + if other == who then ks else []
  {
    forall other ensures Of(log + Tagged(who, ks), other) == Of(log, other) + if other == who then ks else [] {
      OfConcat(log, Tagged(who, ks), other);
      OfTagged(who, ks, other);
    }
  }

  lemma SameWhere(states: map<Node, State>, n: Node)
    ensures n in states ==> states[n := states[n]] == states
  {}

  /** A state replaced by another that counts as much and that the log agrees with. */
  lemma QuietMove(states: map<Node, State>, count: int, log: seq<Event>, next: nat, n: Node, s: State)
    requires Sound(states, count, log, next) && n in states && s.id == states[n].id && StateOk(s)
    requires StateCount(s) == StateCount(states[n]) && Agrees(log, s)
    ensures Sound(states[n := s], count, log, next)
  {
    hide Legal;
    hide Agrees;
    hide StateOk;
    hide StateCount;
    TotalUpdate(states, n, s);
  }

  lemma RunAdded(states: map<Node, State>, count: int, log: seq<Event>, next: nat, n: Node, part: Part)
    requires Sound(states, count, log, next) && n in states && part != Channels
    ensures Sound(states[n := WithRuns(states[n], part, RunsOf(states[n], part) + [NewRun(part == Scripted)])], count, log, next)
  {
    hide Sound;
    hide Agrees;
    hide StateOk;
    hide StateCount;
    StateIsSound(states, count, log, next, n);
    AddedState(log, states[n], part);
    QuietMove(states, count, log, next, n, WithRuns(states[n], part, RunsOf(states[n], part) + [NewRun(part == Scripted)]));
  }

  lemma AddedState(log: seq<Event>, s: State, part: Part)
    requires StateOk(s) && Agrees(log, s) && part != Channels
    ensures var t := WithRuns(s, part, RunsOf(s, part) + [NewRun(part == Scripted)]);
            StateOk(t) && Agrees(log, t) && StateCount(t) == StateCount(s)
  {
    hide Agrees;
    RunsGrow(RunsOf(s, part), NewRun(part == Scripted));
    AddedAgrees(log, s, part);
  }

  lemma AddedAgrees(log: seq<Event>, s: State, part: Part)
    requires Agrees(log, s) && part != Channels
    ensures Agrees(log, WithRuns(s, part, RunsOf(s, part) + [NewRun(part == Scripted)]))
  {
    hide Said;
  }

  lemma ChanAdded(states: map<Node, State>, count: int, log: seq<Event>, next: nat, n: Node)
    requires Sound(states, count, log, next) && n in states
    ensures Sound(states[n := states[n].(chans := states[n].chans + [NEW_CHAN])], count, log, next)
  {
    hide Said;
    var s := states[n];
    ChansGrow(s.chans, NEW_CHAN);
    QuietMove(states, count, log, next, n, s.(chans := s.chans + [NEW_CHAN]));
  }

  /** The last run of a list may go when it has no name. */
  lemma RunTrimmed(states: map<Node, State>, count: int, log: seq<Event>, next: nat, n: Node)
    requires Sound(states, count, log, next) && n in states && states[n].runs != [] && states[n].runs[|states[n].runs| - 1].name == None
    ensures Sound(states[n := states[n].(runs := states[n].runs[..|states[n].runs| - 1])], count, log, next)
  {
    hide Sound;
    hide Agrees;
    hide StateOk;
    hide StateCount;
    StateIsSound(states, count, log, next, n);
    TrimmedState(log, states[n]);
    QuietMove(states, count, log, next, n, states[n].(runs := states[n].runs[..|states[n].runs| - 1]));
  }

  /** A state without its last run, which has no name. */
  lemma TrimmedState(log: seq<Event>, s: State)
    requires StateOk(s) && Agrees(log, s) && s.runs != [] && s.runs[|s.runs| - 1].name == None
    ensures var t := s.(runs := s.runs[..|s.runs| - 1]);
            StateOk(t) && Agrees(log, t) && StateCount(t) == StateCount(s)
  {
    hide Said;
    var k := |s.runs| - 1;
    assert s.runs == s.runs[..k] + [s.runs[k]];
    RunsGrow(s.runs[..k], s.runs[k]);
  }

  /** Elements dropped from the states take their entries out of the count. */
  lemma StatePruned(states: map<Node, State>, count: int, log: seq<Event>, next: nat, n: Node)
    requires Sound(states, count, log, next) && n in states
    ensures Sound(states - {n}, count - StateCount(states[n]), log, next)
  {
    hide Agrees;
    hide Legal;
    hide StateOk;
    hide StateCount;
    TotalWithout(states, n);
  }

  lemma RebasedState(states: map<Node, State>, count: int, log: seq<Event>, next: nat, n: Node, base: real)
    requires Sound(states, count, log, next) && n in states
    ensures Sound(states[n := Rebased(states[n], base)], count, log, next)
  {
    hide Legal;
    hide Agrees;
    hide Rebased;
    hide StateCount;
    RebasedCounts(states[n], base);
    RebasedAgrees(log, states[n], base);
    QuietMove(states, count, log, next, n, Rebased(states[n], base));
  }

  lemma RebasedAgrees(log: seq<Event>, s: State, base: real)
    requires Agrees(log, s) && StateOk(s)
    ensures Agrees(log, Rebased(s, base)) && StateOk(Rebased(s, base)) && Rebased(s, base).id == s.id
  {
    hide Said;
  }

  /** All start times of an element set to `base`. */
  function Rebased(s: State, base: real): State {
    State(s.id,
          seq(|s.chans|, i requires 0 <= i < |s.chans| => s.chans[i].(start := base)),
          seq(|s.runs|, i requires 0 <= i < |s.runs| => s.runs[i].(start := base)),
          seq(|s.scripts|, i requires 0 <= i < |s.scripts| => s.scripts[i].(start := base)))
  }

  lemma RebasedCounts(s: State, base: real)
    ensures StateCount(Rebased(s, base)) == StateCount(s)
  {
    SameRuns(s.runs, Rebased(s, base).runs);
    SameRuns(s.scripts, Rebased(s, base).scripts);
    SameChans(s.chans, Rebased(s, base).chans);
  }

  lemma {:induction false} SameRuns(a: seq<Run>, b: seq<Run>)
    requires |a| == |b| && forall i :: 0 <= i < |a| ==> a[i].active == b[i].active
    ensures ActiveRuns(a) == ActiveRuns(b)
    decreases |a|
  {
    if a != [] { SameRuns(a[1..], b[1..]); }
  }

  lemma {:induction false} SameChans(a: seq<Chan>, b: seq<Chan>)
    requires |a| == |b| && forall i :: 0 <= i < |a| ==> a[i].active == b[i].active
    ensures ActiveChans(a) == ActiveChans(b)
    decreases |a|
  {
    if a != [] { SameChans(a[1..], b[1..]); }
  }
}
