/** The event log of any reachable engine. */
module AnimDiscipline {
  import opened Options
  import opened AnimSteps
  import opened AnimRuns
  import opened AnimLog
  import opened AnimEngine

  predicate Closes(k: Kind) { k.End? || k.Cancel? }

  /** The last start before `i` that nothing has closed since; none if there is no such start. */
  function OpenStart(ks: seq<Kind>, i: nat): (s: Option<nat>)
    requires i <= |ks|
    ensures s.Some? ==> s.value < i && ks[s.value].Start? && forall k :: s.value < k < i ==> !Closes(ks[k])
    ensures s == None ==> forall j :: 0 <= j < i && ks[j].Start? ==> exists k :: j < k < i && Closes(ks[k])
  {
    if i == 0 then None
    else if ks[i - 1].Start? then Some(i - 1)
    else if Closes(ks[i - 1]) then None
    else OpenStart(ks, i - 1)
  }

  lemma {:induction false} FollowPrefix(ks: seq<Kind>, i: nat)
    requires i < |ks| && Follow(Closed, ks).Some?
    ensures Follow(Closed, ks[..i]).Some? && Hear(Follow(Closed, ks[..i]).value, ks[i]).Some?
    ensures Follow(Closed, ks[..i + 1]) == Hear(Follow(Closed, ks[..i]).value, ks[i])
  {
    assert ks == ks[..i] + ks[i..];
    FollowConcat(Closed, ks[..i], ks[i..]);
    assert ks[..i + 1] == ks[..i] + [ks[i]];
    FollowConcat(Closed, ks[..i], [ks[i]]);
    FollowShort(Follow(Closed, ks[..i]).value, ks[i], ks[i]);
  }

  /** A span is open exactly when a start is, and remembers the last iteration since. */
  lemma {:induction false} OpenMeansStarted(ks: seq<Kind>, i: nat)
    requires i <= |ks| && Follow(Closed, ks).Some?
    ensures Follow(Closed, ks[..i]).Some? && (Follow(Closed, ks[..i]).value.Open? <==> OpenStart(ks, i).Some?)
    ensures OpenStart(ks, i).Some? ==>
              forall k :: OpenStart(ks, i).value < k < i && ks[k].Iteration? ==> ks[k].index <= Follow(Closed, ks[..i]).value.last
    decreases i
  {
    if i == 0 {
      assert ks[..0] == [];
    } else {
      OpenMeansStarted(ks, i - 1);
      FollowPrefix(ks, i - 1);
    }
  }

  /** In an orderly log a start is never heard while one is open, an end closes an open start, and
      an iteration is announced inside an open animation, later than any announced in it before. */
  lemma OrderlyEvents(ks: seq<Kind>, i: nat)
    requires i < |ks| && Follow(Closed, ks).Some?
    ensures ks[i].Start? ==> OpenStart(ks, i) == None
    ensures ks[i].End? ==> OpenStart(ks, i).Some?
    ensures ks[i].Begin? ==> OpenStart(ks, i) == None
    ensures ks[i].Iteration? ==>
              var s := OpenStart(ks, i);
              s.Some? && forall k :: s.value < k < i && ks[k].Iteration? ==> ks[k].index < ks[i].index
  {
    OpenMeansStarted(ks, i);
    FollowPrefix(ks, i);
  }

  /** Nothing in the log of a valid engine is out of place, for elements present or gone. */
  lemma LogIsOrderly(e: Engine, who: Who)
    requires e.Valid()
    ensures Follow(Closed, Of(e.log, who)).Some?
  {
    assert Said(e.log, who).Some?;
  }

  /** A transition that is not active is not in its active phase; the log has its start open exactly
      in that phase. */
  lemma TransitionsAgree(e: Engine, n: Node, i: nat)
    requires e.Valid() && n in e.states && i < |e.states[n].chans|
    ensures var c, ks := e.states[n].chans[i], Of(e.log, Who(e.states[n].id, Channels, i));
            && (!c.active ==> c.phase != Active)
            && (c.phase == Active <==> OpenStart(ks, |ks|).Some?)
  {
    var s := e.states[n];
    var ks := Of(e.log, Who(s.id, Channels, i));
    assert Agrees(e.log, s) && SpanFits(ChanSpan(s.chans[i]), Said(e.log, Who(s.id, Channels, i)).value);
    OpenMeansStarted(ks, |ks|);
    assert ks[..|ks|] == ks;
  }

  /** The same for a style sheet's animation, whose iterations announced never exceed its own count. */
  lemma AnimationsAgree(e: Engine, n: Node, i: nat)
    requires e.Valid() && n in e.states && i < |e.states[n].runs|
    ensures var r, ks := e.states[n].runs[i], Of(e.log, Who(e.states[n].id, Styled, i));
            && (r.phase == Active <==> OpenStart(ks, |ks|).Some?)
            && (r.active ==> r.name.Some?)
            && (OpenStart(ks, |ks|).Some? ==>
                  forall k :: OpenStart(ks, |ks|).value < k < |ks| && ks[k].Iteration? ==> ks[k].index <= r.iters)
  {
    var s := e.states[n];
    var ks := Of(e.log, Who(s.id, Styled, i));
    assert Agrees(e.log, s) && RunFits(s.runs[i], Said(e.log, Who(s.id, Styled, i)).value);
    OpenMeansStarted(ks, |ks|);
    assert ks[..|ks|] == ks;
  }
}
