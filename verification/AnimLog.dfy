/** The engine's states and its event log: who is counted, and what the log says of whom. */
module AnimLog {
  import opened Options
  import opened AnimSteps
  import opened AnimRuns

  /** An element of the document. */
  datatype Node = Node(key: int)

  /** The channels and runs of one element. `id` tells apart the states an element has over time. */
  datatype State = State(id: nat, chans: seq<Chan>, runs: seq<Run>, scripts: seq<Run>)

  datatype Part = Channels | Styled | Scripted

  datatype Who = Who(owner: nat, part: Part, index: nat)

  datatype Event = Event(who: Who, kind: Kind)

  // ----- counting -----

  function ActiveChans(cs: seq<Chan>): nat {
    if cs == [] then 0 else Bit(cs[0].active) + ActiveChans(cs[1..])
  }

  function ActiveRuns(rs: seq<Run>): nat {
    if rs == [] then 0 else Bit(rs[0].active) + ActiveRuns(rs[1..])
  }

  function StateCount(s: State): nat {
    ActiveRuns(s.runs) + ActiveRuns(s.scripts) + ActiveChans(s.chans)
  }

  lemma {:induction false} ChansUpdate(cs: seq<Chan>, i: nat, c: Chan)
    requires i < |cs|
    ensures ActiveChans(cs[i := c]) == ActiveChans(cs) - Bit(cs[i].active) + Bit(c.active)
    ensures ActiveChans(cs) >= Bit(cs[i].active)
    decreases i
  {
    if i == 0 {
      assert cs[i := c][1..] == cs[1..];
    } else {
      assert cs[i := c][1..] == cs[1..][i - 1 := c];
      ChansUpdate(cs[1..], i - 1, c);
    }
  }

  lemma {:induction false} RunsUpdate(rs: seq<Run>, i: nat, r: Run)
    requires i < |rs|
    ensures ActiveRuns(rs[i := r]) == ActiveRuns(rs) - Bit(rs[i].active) + Bit(r.active)
    ensures ActiveRuns(rs) >= Bit(rs[i].active)
    decreases i
  {
    if i == 0 {
      assert rs[i := r][1..] == rs[1..];
    } else {
      assert rs[i := r][1..] == rs[1..][i - 1 := r];
      RunsUpdate(rs[1..], i - 1, r);
    }
  }

  lemma {:induction false} ChansGrow(cs: seq<Chan>, c: Chan)
    ensures ActiveChans(cs + [c]) == ActiveChans(cs) + Bit(c.active)
    decreases |cs|
  {
    if cs == [] {
      assert cs + [c] == [c] && [c][1..] == [];
    } else {
      assert (cs + [c])[0] == cs[0] && (cs + [c])[1..] == cs[1..] + [c];
      ChansGrow(cs[1..], c);
    }
  }

  lemma {:induction false} RunsGrow(rs: seq<Run>, r: Run)
    ensures ActiveRuns(rs + [r]) == ActiveRuns(rs) + Bit(r.active)
    decreases |rs|
  {
    if rs == [] {
      assert rs + [r] == [r] && [r][1..] == [];
    } else {
      assert (rs + [r])[0] == rs[0] && (rs + [r])[1..] == rs[1..] + [r];
      RunsGrow(rs[1..], r);
    }
  }

  ghost function Total(m: map<Node, State>): nat {
    if m.Keys == {} then 0
    else
      var n :| n in m.Keys;
      StateCount(m[n]) + Total(m - {n})
  }

  lemma {:induction false} TotalWithout(m: map<Node, State>, n: Node)
    requires n in m
    ensures Total(m) == StateCount(m[n]) + Total(m - {n})
    decreases m
  {
    var c :| c in m.Keys && Total(m) == StateCount(m[c]) + Total(m - {c});
    if c != n {
      TotalWithout(m - {c}, n);
      TotalWithout(m - {n}, c);
      assert m - {c} - {n} == m - {n} - {c};
    }
  }

  lemma TotalUpdate(m: map<Node, State>, n: Node, s: State)
    ensures Total(m[n := s]) == Total(m) + StateCount(s) - if n in m then StateCount(m[n]) else 0
  {
    TotalWithout(m[n := s], n);
    assert m[n := s] - {n} == m - {n};
    if n in m { TotalWithout(m, n); } else { assert m - {n} == m; }
  }

  // ----- the log -----

  function Of(log: seq<Event>, who: Who): seq<Kind> {
    if log == [] then []
    else (if log[0].who == who then [log[0].kind] else []) + Of(log[1..], who)
  }

  function Tagged(who: Who, ks: seq<Kind>): seq<Event> {
    seq(|ks|, i requires 0 <= i < |ks| => Event(who, ks[i]))
  }

  lemma {:induction false} OfConcat(a: seq<Event>, b: seq<Event>, who: Who)
    ensures Of(a + b, who) == Of(a, who) + Of(b, who)
    decreases |a|
  {
    if a == [] {
      assert a + b == b;
    } else {
      assert (a + b)[0] == a[0] && (a + b)[1..] == a[1..] + b;
      OfConcat(a[1..], b, who);
    }
  }

  lemma {:induction false} OfTagged(who: Who, ks: seq<Kind>, other: Who)
    ensures Of(Tagged(who, ks), other) == if other == who then ks else []
    decreases |ks|
  {
    if ks != [] {
      assert Tagged(who, ks)[1..] == Tagged(who, ks[1..]);
      OfTagged(who, ks[1..], other);
    }
  }

  /** What has been heard of `who` so far; nothing if an event was out of place. */
  function Said(log: seq<Event>, who: Who): Option<Span> {
    Follow(Closed, Of(log, who))
  }

  lemma SaidMore(log: seq<Event>, who: Who, ks: seq<Kind>, other: Who)
    requires Said(log, other).Some?
    ensures Said(log + Tagged(who, ks), other) == if other == who then Follow(Said(log, who).value, ks) else Said(log, other)
  {
    OfConcat(log, Tagged(who, ks), other);
    OfTagged(who, ks, other);
    FollowConcat(Closed, Of(log, other), if other == who then ks else []);
  }

  ghost predicate ChansAgree(log: seq<Event>, id: nat, cs: seq<Chan>) {
    forall i: nat ::
      var said := Said(log, Who(id, Channels, i));
      said.Some? && if i < |cs| then SpanFits(ChanSpan(cs[i]), said.value) else said.value.Closed?
  }

  ghost predicate RunsAgree(log: seq<Event>, id: nat, part: Part, rs: seq<Run>) {
    forall i: nat ::
      var said := Said(log, Who(id, part, i));
      said.Some? && if i < |rs| then RunFits(rs[i], said.value) else said.value.Closed?
  }

  /** The log says of every channel and run of `s` what its phase says. */
  ghost predicate Agrees(log: seq<Event>, s: State) {
    ChansAgree(log, s.id, s.chans) && RunsAgree(log, s.id, Styled, s.runs) && RunsAgree(log, s.id, Scripted, s.scripts)
  }

  ghost predicate StateOk(s: State) {
    && (forall i :: 0 <= i < |s.chans| ==> ChanOk(s.chans[i]))
    && (forall i :: 0 <= i < |s.runs| ==> RunOk(s.runs[i]) && !s.runs[i].script)
    && (forall i :: 0 <= i < |s.scripts| ==> RunOk(s.scripts[i]) && s.scripts[i].script)
  }

  /** No event is out of place, and nothing has been said of states yet to come. */
  ghost predicate Legal(log: seq<Event>, next: nat) {
    forall who: Who :: Said(log, who).Some? && (who.owner >= next ==> Said(log, who) == Some(Closed))
  }

  /** The count is exact, the states are consistent and told apart, and the log agrees with all. */
  ghost predicate Sound(states: map<Node, State>, count: int, log: seq<Event>, next: nat) {
    && count == Total(states) && Legal(log, next)
    && (forall n :: n in states ==> StateOk(states[n]) && states[n].id < next && Agrees(log, states[n]))
    && (forall m, n :: m in states && n in states && states[m].id == states[n].id ==> m == n)
  }

  lemma HasSaid(log: seq<Event>, s: State, part: Part, i: nat)
    requires Agrees(log, s)
    ensures Said(log, Who(s.id, part, i)).Some?
  {
    match part
    case Channels => assert Said(log, Who(s.id, Channels, i)).Some?;
    case Styled => assert Said(log, Who(s.id, Styled, i)).Some?;
    case Scripted => assert Said(log, Who(s.id, Scripted, i)).Some?;
  }

  lemma AgreesStill(log: seq<Event>, who: Who, ks: seq<Kind>, s: State)
    requires Agrees(log, s) && who.owner != s.id
    ensures Agrees(log + Tagged(who, ks), s)
  {
    forall part: Part, i: nat ensures Said(log + Tagged(who, ks), Who(s.id, part, i)) == Said(log, Who(s.id, part, i)) {
      HasSaid(log, s, part, i);
      SaidMore(log, who, ks, Who(s.id, part, i));
    }
  }

  lemma LegalStill(log: seq<Event>, next: nat, who: Who, ks: seq<Kind>)
    requires Legal(log, next) && who.owner < next && Follow(Said(log, who).value, ks).Some?
    ensures Legal(log + Tagged(who, ks), next)
  {
    forall other: Who ensures Said(log + Tagged(who, ks), other) ==
                              if other == who then Follow(Said(log, who).value, ks) else Said(log, other)
    {
      SaidMore(log, who, ks, other);
    }
  }

  /** One state changes, with events of one of its parts. */
  lemma StateMoves(states: map<Node, State>, count: int, log: seq<Event>, next: nat, n: Node, s: State, who: Who, ks: seq<Kind>, newCount: int)
    requires Sound(states, count, log, next) && n in states && s.id == states[n].id == who.owner && StateOk(s)
    requires newCount == count + StateCount(s) - StateCount(states[n])
    requires Follow(Said(log, who).value, ks).Some? && Agrees(log + Tagged(who, ks), s)
    ensures Sound(states[n := s], newCount, log + Tagged(who, ks), next)
  {
    hide Said;
    hide Follow;
    hide Agrees;
    hide StateOk;
    hide StateCount;
    hide Legal;
    hide Tagged;
    TotalUpdate(states, n, s);
    LegalStill(log, next, who, ks);
    forall m | m in states && m != n ensures Agrees(log + Tagged(who, ks), states[m]) {
      AgreesStill(log, who, ks, states[m]);
    }
  }

  /** One channel of a state changes, and the log tells. */
  lemma ChansAgreeMoved(log: seq<Event>, s: State, i: nat, count: int, r: Out<Chan>)
    requires Agrees(log, s) && i < |s.chans| && ChanLaw(s.chans[i], count, r)
    ensures Follow(Said(log, Who(s.id, Channels, i)).value, r.events).Some?
    ensures Agrees(log + Tagged(Who(s.id, Channels, i), r.events), s.(chans := s.chans[i := r.entity]))
  {
    hide Said;
    var who := Who(s.id, Channels, i);
    assert SpanFits(ChanSpan(s.chans[i]), Said(log, who).value);
    forall part: Part, j: nat ensures Said(log, Who(s.id, part, j)).Some?
      ensures Said(log + Tagged(who, r.events), Who(s.id, part, j)) ==
              if Who(s.id, part, j) == who then Follow(Said(log, who).value, r.events) else Said(log, Who(s.id, part, j))
    {
      HasSaid(log, s, part, j);
      SaidMore(log, who, r.events, Who(s.id, part, j));
    }
  }

  lemma StateIsSound(states: map<Node, State>, count: int, log: seq<Event>, next: nat, n: Node)
    requires Sound(states, count, log, next) && n in states
    ensures StateOk(states[n]) && Agrees(log, states[n])
  {}

  lemma ChanPut(s: State, i: nat, count: int, r: Out<Chan>)
    requires StateOk(s) && i < |s.chans| && ChanLaw(s.chans[i], count, r)
    ensures var t := s.(chans := s.chans[i := r.entity]);
            StateOk(t) && t.id == s.id && r.count == count + StateCount(t) - StateCount(s)
  {
    ChansUpdate(s.chans, i, r.entity);
  }

  lemma RunPut(s: State, part: Part, i: nat, count: int, r: Out<Run>)
    requires StateOk(s) && part != Channels && i < |RunsOf(s, part)| && RunLaw(RunsOf(s, part)[i], count, r)
    ensures var t := WithRuns(s, part, RunsOf(s, part)[i := r.entity]);
            StateOk(t) && t.id == s.id && r.count == count + StateCount(t) - StateCount(s)
  {
    RunsUpdate(RunsOf(s, part), i, r.entity);
  }

  lemma ChanMoves(states: map<Node, State>, count: int, log: seq<Event>, next: nat, n: Node, i: nat, r: Out<Chan>)
    requires Sound(states, count, log, next) && n in states && i < |states[n].chans|
    requires ChanLaw(states[n].chans[i], count, r)
    ensures var s := states[n];
            Sound(states[n := s.(chans := s.chans[i := r.entity])], r.count, log + Tagged(Who(s.id, Channels, i), r.events), next)
  {
    hide Sound;
    hide Said;
    hide Follow;
    hide Agrees;
    hide Legal;
    hide Tagged;
    hide StateOk;
    hide StateCount;
    hide ChanLaw;
    hide RunLaw;
    var s := states[n];
    StateIsSound(states, count, log, next, n);
    ChanPut(s, i, count, r);
    ChansAgreeMoved(log, s, i, count, r);
    StateMoves(states, count, log, next, n, s.(chans := s.chans[i := r.entity]), Who(s.id, Channels, i), r.events, r.count);
  }

  function RunsOf(s: State, part: Part): seq<Run>
    requires part != Channels
  {
    if part == Styled then s.runs else s.scripts
  }

  function WithRuns(s: State, part: Part, rs: seq<Run>): State
    requires part != Channels
  {
    if part == Styled then s.(runs := rs) else s.(scripts := rs)
  }

  lemma RunsAgreeMoved(log: seq<Event>, s: State, part: Part, i: nat, count: int, r: Out<Run>)
    requires Agrees(log, s) && part != Channels && i < |RunsOf(s, part)| && RunLaw(RunsOf(s, part)[i], count, r)
    ensures Follow(Said(log, Who(s.id, part, i)).value, r.events).Some?
    ensures Agrees(log + Tagged(Who(s.id, part, i), r.events), WithRuns(s, part, RunsOf(s, part)[i := r.entity]))
  {
    hide Said;
    var who := Who(s.id, part, i);
    assert RunFits(RunsOf(s, part)[i], Said(log, who).value);
    forall p: Part, j: nat ensures Said(log, Who(s.id, p, j)).Some?
      ensures Said(log + Tagged(who, r.events), Who(s.id, p, j)) ==
              if Who(s.id, p, j) == who then Follow(Said(log, who).value, r.events) else Said(log, Who(s.id, p, j))
    {
      HasSaid(log, s, p, j);
      SaidMore(log, who, r.events, Who(s.id, p, j));
    }
  }

  lemma RunMoves(states: map<Node, State>, count: int, log: seq<Event>, next: nat, n: Node, part: Part, i: nat, r: Out<Run>)
    requires Sound(states, count, log, next) && n in states && part != Channels && i < |RunsOf(states[n], part)|
    requires RunLaw(RunsOf(states[n], part)[i], count, r)
    ensures var s := states[n];
            Sound(states[n := WithRuns(s, part, RunsOf(s, part)[i := r.entity])], r.count, log + Tagged(Who(s.id, part, i), r.events), next)
  {
    hide Sound;
    hide Said;
    hide Follow;
    hide Agrees;
    hide Legal;
    hide Tagged;
    hide StateOk;
    hide StateCount;
    hide ChanLaw;
    hide RunLaw;
    var s := states[n];
    StateIsSound(states, count, log, next, n);
    RunPut(s, part, i, count, r);
    RunsAgreeMoved(log, s, part, i, count, r);
    StateMoves(states, count, log, next, n, WithRuns(s, part, RunsOf(s, part)[i := r.entity]), Who(s.id, part, i), r.events, r.count);
  }
}
