/** Observing a style, as a function. */
module AnimMoves {
  import opened Options
  import opened AnimSteps
  import opened AnimRuns
  import opened AnimLog

  /** A state, the engine's count, and the events told on the way there. */
  datatype Moved = Moved(state: State, count: int, told: seq<Event>) {
    function After(before: seq<Event>): Moved { this.(told := before + told) }
  }

  lemma AfterAfter(m: Moved, a: seq<Event>, b: seq<Event>)
    ensures m.After(b).After(a) == m.After(a + b)
  {
    assert a + (b + m.told) == a + b + m.told;
  }

  function MoveChan(s: State, i: nat, r: Out<Chan>): Moved
    requires i < |s.chans|
  {
    Moved(s.(chans := s.chans[i := r.entity]), r.count, Tagged(Who(s.id, Channels, i), r.events))
  }

  function MoveRun(s: State, part: Part, i: nat, r: Out<Run>): Moved
    requires part != Channels && i < |RunsOf(s, part)|
  {
    Moved(WithRuns(s, part, RunsOf(s, part)[i := r.entity]), r.count, Tagged(Who(s.id, part, i), r.events))
  }

  // ----- transitions -----

  /** Each listed channel exists when its turn comes, or is the next to be made. */
  predicate InPlace(listed: seq<(nat, Observation)>, size: nat)
    decreases |listed|
  {
    listed == [] || (listed[0].0 <= size && InPlace(listed[1..], if listed[0].0 == size then size + 1 else size))
  }

  predicate IsListed(listed: seq<(nat, Observation)>, i: nat) {
    exists k :: 0 <= k < |listed| && listed[k].0 == i
  }

  /** The channel at place `i`, made if it is not there yet. */
  function WithChan(s: State, i: nat): State {
    if i < |s.chans| then s else s.(chans := s.chans + [NEW_CHAN])
  }

  /** One listed property. */
  function ObserveChanIn(s: State, count: int, entry: (nat, Observation), now: real): (m: Moved)
    requires entry.0 <= |s.chans|
    ensures |m.state.chans| == if entry.0 == |s.chans| then |s.chans| + 1 else |s.chans|
  {
    var t := WithChan(s, entry.0);
    MoveChan(t, entry.0, ObserveChan(t.chans[entry.0], count, now, entry.1))
  }

  /** The listed properties, one after the other. */
  function ObserveListed(s: State, count: int, listed: seq<(nat, Observation)>, now: real): (m: Moved)
    requires InPlace(listed, |s.chans|)
    decreases |listed|
  {
    if listed == [] then Moved(s, count, [])
    else
      var m := ObserveChanIn(s, count, listed[0], now);
      ObserveListed(m.state, m.count, listed[1..], now).After(m.told)
  }

  /** The channels from place `i` on that are not listed. */
  function DropRest(s: State, count: int, i: nat, listed: seq<(nat, Observation)>, now: real, hidden: bool): (m: Moved)
    requires i <= |s.chans|
    decreases |s.chans| - i
  {
    if i == |s.chans| then Moved(s, count, [])
    else if IsListed(listed, i) then DropRest(s, count, i + 1, listed, now, hidden)
    else
      var m := MoveChan(s, i, DropChan(s.chans[i], count, now, hidden));
      DropRest(m.state, m.count, i + 1, listed, now, hidden).After(m.told)
  }

  function ObserveAllChans(s: State, count: int, listed: seq<(nat, Observation)>, now: real, hidden: bool): Moved
    requires InPlace(listed, |s.chans|)
  {
    var m := ObserveListed(s, count, listed, now);
    DropRest(m.state, m.count, 0, listed, now, hidden).After(m.told)
  }

  /** What is not listed ends up inactive; runs are not touched. */
  lemma {:induction false} ListedLeavesRuns(s: State, count: int, listed: seq<(nat, Observation)>, now: real)
    requires InPlace(listed, |s.chans|)
    ensures var t := ObserveListed(s, count, listed, now).state;
            t.id == s.id && t.runs == s.runs && t.scripts == s.scripts && |t.chans| >= |s.chans|
    decreases |listed|
  {
    hide ObserveChan;
    if listed != [] {
      var m := ObserveChanIn(s, count, listed[0], now);
      ListedLeavesRuns(m.state, m.count, listed[1..], now);
    }
  }

  lemma {:induction false} UnlistedStop(s: State, count: int, i: nat, listed: seq<(nat, Observation)>, now: real, hidden: bool)
    requires i <= |s.chans|
    ensures var t := DropRest(s, count, i, listed, now, hidden).state;
            && t.id == s.id && t.runs == s.runs && t.scripts == s.scripts && |t.chans| == |s.chans|
            && (forall j :: 0 <= j < |t.chans| && (j < i || IsListed(listed, j)) ==> t.chans[j] == s.chans[j])
            && (forall j :: i <= j < |t.chans| && !IsListed(listed, j) ==> !t.chans[j].active)
    decreases |s.chans| - i
  {
    hide DropChan;
    hide IsListed;
    if i < |s.chans| {
      if IsListed(listed, i) {
        UnlistedStop(s, count, i + 1, listed, now, hidden);
      } else {
        var r := DropChan(s.chans[i], count, now, hidden);
        DroppedStops(s.chans[i], count, now, hidden);
        UnlistedStop(MoveChan(s, i, r).state, r.count, i + 1, listed, now, hidden);
      }
    }
  }

  lemma DroppedStops(c: Chan, count: int, now: real, hidden: bool)
    ensures !DropChan(c, count, now, hidden).entity.active
  {}

  // ----- animations -----

  /** A run script can still act on: named, or cancelled and kept. */
  predicate IsHandle(r: Run) { r.name.Some? || r.cancelledName.Some? }

  function WithRun(s: State, i: nat): State {
    if i < |s.runs| then s else s.(runs := s.runs + [NewRun(false)])
  }

  function ObserveRunIn(s: State, count: int, i: nat, e: Item, now: real): (m: Moved)
    requires i <= |s.runs|
    ensures |m.state.runs| == if i == |s.runs| then |s.runs| + 1 else |s.runs|
  {
    var t := WithRun(s, i);
    MoveRun(t, Styled, i, ObserveRun(t.runs[i], count, now, e))
  }

  /** The items from place `i` on, each against the run at its place. */
  function ObserveItems(s: State, count: int, i: nat, items: seq<Item>, now: real): (m: Moved)
    requires i <= |items| && i <= |s.runs|
    ensures |items| <= |m.state.runs|
    decreases |items| - i
  {
    if i == |items| then Moved(s, count, [])
    else
      var m := ObserveRunIn(s, count, i, items[i], now);
      ObserveItems(m.state, m.count, i + 1, items, now).After(m.told)
  }

  /** The runs past the list. */
  function DropRuns(s: State, count: int, i: nat, now: real): (m: Moved)
    requires i <= |s.runs|
    decreases |s.runs| - i
  {
    if i == |s.runs| then Moved(s, count, [])
    else
      var m := MoveRun(s, Styled, i, DropRun(s.runs[i], count, now));
      DropRuns(m.state, m.count, i + 1, now).After(m.told)
  }

  /** Without the runs at the end that nothing refers to. */
  function Trimmed(rs: seq<Run>): (t: seq<Run>)
    ensures t <= rs && (t != [] ==> IsHandle(t[|t| - 1]))
    ensures forall j :: |t| <= j < |rs| ==> !IsHandle(rs[j])
  {
    if rs != [] && !IsHandle(rs[|rs| - 1]) then Trimmed(rs[..|rs| - 1]) else rs
  }

  function ObserveAllRuns(s: State, count: int, items: seq<Item>, now: real): Moved {
    var a := ObserveItems(s, count, 0, items, now);
    var b := DropRuns(a.state, a.count, |items|, now);
    Moved(b.state.(runs := Trimmed(b.state.runs)), b.count, a.told + b.told)
  }

  /** A whole observation of one element. */
  function ObserveState(s: State, count: int, listed: seq<(nat, Observation)>, items: seq<Item>, now: real, hidden: bool): Moved
    requires InPlace(listed, |s.chans|)
  {
    var a := ObserveAllChans(s, count, if hidden then [] else listed, now, hidden);
    ObserveAllRuns(a.state, a.count, if hidden then [] else items, now).After(a.told)
  }

  lemma {:induction false} ItemsLeaveChans(s: State, count: int, i: nat, items: seq<Item>, now: real)
    requires i <= |items| && i <= |s.runs|
    ensures var t := ObserveItems(s, count, i, items, now).state;
            t.id == s.id && t.chans == s.chans && t.scripts == s.scripts
    decreases |items| - i
  {
    hide ObserveRun;
    if i < |items| {
      var m := ObserveRunIn(s, count, i, items[i], now);
      ItemsLeaveChans(m.state, m.count, i + 1, items, now);
    }
  }

  lemma {:induction false} RunsPastStop(s: State, count: int, i: nat, now: real)
    requires i <= |s.runs|
    ensures var t := DropRuns(s, count, i, now).state;
            && t.id == s.id && t.chans == s.chans && t.scripts == s.scripts && |t.runs| == |s.runs|
            && (forall j :: 0 <= j < i ==> t.runs[j] == s.runs[j])
            && (forall j :: i <= j < |t.runs| ==> !IsHandle(t.runs[j]))
    decreases |s.runs| - i
  {
    hide DropRun;
    if i < |s.runs| {
      var r := DropRun(s.runs[i], count, now);
      DroppedIsFree(s.runs[i], count, now);
      RunsPastStop(MoveRun(s, Styled, i, r).state, r.count, i + 1, now);
    }
  }

  lemma DroppedIsFree(r: Run, count: int, now: real)
    ensures !IsHandle(DropRun(r, count, now).entity)
  {}

  /** An observation leaves no unlisted transition active and no run past the list; what a hidden
      element had is gone. Script animations are not touched. */
  lemma ObservationSettles(s: State, count: int, listed: seq<(nat, Observation)>, items: seq<Item>, now: real, hidden: bool)
    requires InPlace(listed, |s.chans|)
    ensures var t := ObserveState(s, count, listed, items, now, hidden).state;
            && t.id == s.id && t.scripts == s.scripts
            && (forall i :: 0 <= i < |t.chans| && (hidden || !IsListed(listed, i)) ==> !t.chans[i].active)
            && |t.runs| <= (if hidden then 0 else |items|)
            && (t.runs != [] ==> IsHandle(t.runs[|t.runs| - 1]))
  {
    hide ObserveListed;
    hide DropRest;
    hide ObserveItems;
    hide DropRuns;
    var ls, its := if hidden then [] else listed, if hidden then [] else items;
    ListedLeavesRuns(s, count, ls, now);
    var a := ObserveListed(s, count, ls, now);
    UnlistedStop(a.state, a.count, 0, ls, now, hidden);
    var b := DropRest(a.state, a.count, 0, ls, now, hidden);
    ItemsLeaveChans(b.state, b.count, 0, its, now);
    var c := ObserveItems(b.state, b.count, 0, its, now);
    RunsPastStop(c.state, c.count, |its|, now);
  }

  // ----- frames -----

  /** What `who` says in a frame, if it belongs to `s`. */
  function TickTold(s: State, who: Who, now: real): seq<Kind> {
    if who.owner != s.id then []
    else if who.part == Channels then
      if who.index < |s.chans| then TickChan(s.chans[who.index], 0, now).events else []
    else
      var rs := RunsOf(s, who.part);
      if who.index < |rs| then TickRun(rs[who.index], 0, now).events else []
  }
}
