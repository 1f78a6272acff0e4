/** An observation, place by place. */
module AnimPlaces {
  import opened Options
  import opened AnimSteps
  import opened AnimRuns
  import opened AnimLog
  import opened AnimMoves

  function ChanAt(s: State, i: nat): Chan { if i < |s.chans| then s.chans[i] else NEW_CHAN }

  function RunAt(s: State, i: nat): Run { if i < |s.runs| then s.runs[i] else NewRun(false) }

  predicate Once(listed: seq<(nat, Observation)>, k: nat)
    requires k < |listed|
  {
    forall j :: 0 <= j < |listed| && j != k ==> listed[j].0 != listed[k].0
  }

  /** One turn of the list changes one channel and tells of it alone. */
  lemma OneChan(s: State, count: int, entry: (nat, Observation), now: real, i: nat)
    requires entry.0 <= |s.chans|
    ensures var m, out := ObserveChanIn(s, count, entry, now), ObserveChan(ChanAt(s, entry.0), count, now, entry.1);
            && m.state.id == s.id && ChanAt(m.state, i) == (if i == entry.0 then out.entity else ChanAt(s, i))
            && Of(m.told, Who(s.id, Channels, i)) == (if i == entry.0 then out.events else [])
  {
    hide ObserveChan;
    hide Of;
    OfTagged(Who(s.id, Channels, entry.0), ObserveChan(ChanAt(s, entry.0), count, now, entry.1).events, Who(s.id, Channels, i));
  }

  lemma {:induction false} UnlistedStays(s: State, count: int, listed: seq<(nat, Observation)>, now: real, i: nat)
    requires InPlace(listed, |s.chans|) && !IsListed(listed, i)
    ensures ChanAt(ObserveListed(s, count, listed, now).state, i) == ChanAt(s, i)
    ensures Of(ObserveListed(s, count, listed, now).told, Who(s.id, Channels, i)) == []
    decreases |listed|
  {
    hide ObserveChan;
    hide ObserveChanIn;
    hide Of;
    if listed == [] {
      NoneTold(Who(s.id, Channels, i));
    } else {
      var m := ObserveChanIn(s, count, listed[0], now);
      assert listed[0].0 != i;
      assert forall k :: 0 <= k < |listed| - 1 ==> listed[1..][k] == listed[k + 1];
      UnlistedStays(m.state, m.count, listed[1..], now, i);
      OneChan(s, count, listed[0], now, i);
      OfConcat(m.told, ObserveListed(m.state, m.count, listed[1..], now).told, Who(s.id, Channels, i));
    }
  }

  /** Each listed property is observed against the channel at its place, and nobody else hears of it there. */
  lemma {:induction false} PropertyMeetsItsChannel(s: State, count: int, listed: seq<(nat, Observation)>, now: real, k: nat)
    returns (n: int)
    requires InPlace(listed, |s.chans|) && k < |listed| && Once(listed, k)
    ensures var i := listed[k].0;
            var out, m := ObserveChan(ChanAt(s, i), n, now, listed[k].1), ObserveListed(s, count, listed, now);
            i < |m.state.chans| && m.state.chans[i] == out.entity && Of(m.told, Who(s.id, Channels, i)) == out.events
    decreases |listed|
  {
    hide ObserveChan;
    hide ObserveChanIn;
    hide Of;
    hide ChanAt;
    var i := listed[k].0;
    var m := ObserveChanIn(s, count, listed[0], now);
    var rest := listed[1..];
    var more := ObserveListed(m.state, m.count, rest, now);
    OneChan(s, count, listed[0], now, i);
    OfConcat(m.told, more.told, Who(s.id, Channels, i));
    ListedLeavesRuns(m.state, m.count, rest, now);
    assert forall j :: 0 <= j < |rest| ==> rest[j] == listed[j + 1];
    if k == 0 {
      n := count;
      UnlistedStays(m.state, m.count, rest, now, i);
      MadeByNow(s, m.state, listed[0].0);
      AtPlace(more.state, i);
    } else {
      assert Once(rest, k - 1);
      n := PropertyMeetsItsChannel(m.state, m.count, rest, now, k - 1);
    }
  }

  lemma OneDropped(s: State, i: nat, r: Out<Chan>, k: nat)
    requires i < |s.chans|
    ensures var m := MoveChan(s, i, r);
            && m.state.id == s.id && |m.state.chans| == |s.chans| && m.state.chans[i] == r.entity
            && (k < |s.chans| && k != i ==> m.state.chans[k] == s.chans[k])
            && Of(m.told, Who(s.id, Channels, k)) == (if k == i then r.events else [])
  {
    hide Of;
    OfTagged(Who(s.id, Channels, i), r.events, Who(s.id, Channels, k));
  }

  lemma DropRestUnfolds(s: State, count: int, i: nat, listed: seq<(nat, Observation)>, now: real, hidden: bool)
    requires i < |s.chans|
    ensures DropRest(s, count, i, listed, now, hidden) ==
            if IsListed(listed, i) then DropRest(s, count, i + 1, listed, now, hidden)
            else
              var m := MoveChan(s, i, DropChan(s.chans[i], count, now, hidden));
              DropRest(m.state, m.count, i + 1, listed, now, hidden).After(m.told)
  {
    hide DropChan;
    hide IsListed;
  }

  /** A channel that is not listed is dropped, with what dropping tells. */
  lemma {:induction false} UnlistedIsDropped(s: State, count: int, i: nat, listed: seq<(nat, Observation)>, now: real, hidden: bool, k: nat)
    returns (n: int)
    requires i <= k < |s.chans| && !IsListed(listed, k)
    ensures var out, m := DropChan(s.chans[k], n, now, hidden), DropRest(s, count, i, listed, now, hidden);
            |m.state.chans| == |s.chans| && m.state.chans[k] == out.entity && Of(m.told, Who(s.id, Channels, k)) == out.events
    decreases k - i
  {
    hide DropChan;
    hide IsListed;
    hide DropRest;
    hide MoveChan;
    hide Of;
    DropRestUnfolds(s, count, i, listed, now, hidden);
    if IsListed(listed, i) {
      n := UnlistedIsDropped(s, count, i + 1, listed, now, hidden, k);
    } else {
      var r := DropChan(s.chans[i], count, now, hidden);
      var m := MoveChan(s, i, r);
      OneDropped(s, i, r, k);
      var more := DropRest(m.state, m.count, i + 1, listed, now, hidden);
      OfConcat(m.told, more.told, Who(s.id, Channels, k));
      if i == k {
        n := count;
        UnlistedStop(m.state, m.count, i + 1, listed, now, hidden);
        NothingBefore(m.state, m.count, i + 1, listed, now, hidden, k);
      } else {
        n := UnlistedIsDropped(m.state, m.count, i + 1, listed, now, hidden, k);
      }
    }
  }

  lemma {:induction false} NothingBefore(s: State, count: int, i: nat, listed: seq<(nat, Observation)>, now: real, hidden: bool, k: nat)
    requires i <= |s.chans| && k < i
    ensures Of(DropRest(s, count, i, listed, now, hidden).told, Who(s.id, Channels, k)) == []
    decreases |s.chans| - i
  {
    hide DropChan;
    hide IsListed;
    if i < |s.chans| {
      if IsListed(listed, i) {
        NothingBefore(s, count, i + 1, listed, now, hidden, k);
      } else {
        var r := DropChan(s.chans[i], count, now, hidden);
        var m := MoveChan(s, i, r);
        NothingBefore(m.state, m.count, i + 1, listed, now, hidden, k);
        OfTagged(Who(s.id, Channels, i), r.events, Who(s.id, Channels, k));
        OfConcat(m.told, DropRest(m.state, m.count, i + 1, listed, now, hidden).told, Who(s.id, Channels, k));
      }
    }
  }

  lemma NoneTold(who: Who)
    ensures Of([], who) == []
  {}

  lemma MadeByNow(s: State, t: State, i: nat)
    requires i <= |s.chans| && |t.chans| == if i == |s.chans| then |s.chans| + 1 else |s.chans|
    ensures i < |t.chans|
  {}

  lemma AtPlace(s: State, i: nat)
    ensures i < |s.chans| ==> ChanAt(s, i) == s.chans[i]
  {}

  // ----- animations -----

  /** One turn of the list changes one run and tells of it alone. */
  lemma OneRun(s: State, count: int, i: nat, e: Item, now: real, k: nat)
    requires i <= |s.runs|
    ensures var m, out := ObserveRunIn(s, count, i, e, now), ObserveRun(RunAt(s, i), count, now, e);
            && m.state.id == s.id && RunAt(m.state, k) == (if k == i then out.entity else RunAt(s, k))
            && Of(m.told, Who(s.id, Styled, k)) == (if k == i then out.events else [])
  {
    hide ObserveRun;
    hide Of;
    OfTagged(Who(s.id, Styled, i), ObserveRun(RunAt(s, i), count, now, e).events, Who(s.id, Styled, k));
  }

  lemma RunAtPlace(s: State, i: nat)
    ensures i < |s.runs| ==> RunAt(s, i) == s.runs[i]
  {}

  lemma {:induction false} EarlierRunsStay(s: State, count: int, i: nat, items: seq<Item>, now: real, k: nat)
    requires i <= |items| && i <= |s.runs| && k < i
    ensures var m := ObserveItems(s, count, i, items, now);
            k < |m.state.runs| && m.state.runs[k] == s.runs[k] && Of(m.told, Who(s.id, Styled, k)) == []
    decreases |items| - i
  {
    hide ObserveRun;
    hide ObserveRunIn;
    hide Of;
    if i == |items| {
      NoneTold(Who(s.id, Styled, k));
    } else {
      var m := ObserveRunIn(s, count, i, items[i], now);
      OneRun(s, count, i, items[i], now, k);
      EarlierRunsStay(m.state, m.count, i + 1, items, now, k);
      OfConcat(m.told, ObserveItems(m.state, m.count, i + 1, items, now).told, Who(s.id, Styled, k));
    }
  }

  /** Each item is observed against the run at its place in the list. */
  lemma {:induction false} ItemMeetsItsRun(s: State, count: int, i: nat, items: seq<Item>, now: real, k: nat) returns (n: int)
    requires i <= k < |items| && i <= |s.runs|
    ensures var out, m := ObserveRun(RunAt(s, k), n, now, items[k]), ObserveItems(s, count, i, items, now);
            k < |m.state.runs| && m.state.runs[k] == out.entity && Of(m.told, Who(s.id, Styled, k)) == out.events
    decreases k - i
  {
    hide ObserveRun;
    hide ObserveRunIn;
    hide Of;
    hide RunAt;
    var m := ObserveRunIn(s, count, i, items[i], now);
    var more := ObserveItems(m.state, m.count, i + 1, items, now);
    OneRun(s, count, i, items[i], now, k);
    OfConcat(m.told, more.told, Who(s.id, Styled, k));
    RunAtPlace(m.state, k);
    if i == k {
      n := count;
      EarlierRunsStay(m.state, m.count, i + 1, items, now, k);
    } else {
      n := ItemMeetsItsRun(m.state, m.count, i + 1, items, now, k);
    }
  }

  lemma OnePast(s: State, i: nat, r: Out<Run>, k: nat)
    requires i < |s.runs|
    ensures var m := MoveRun(s, Styled, i, r);
            && m.state.id == s.id && |m.state.runs| == |s.runs| && m.state.runs[i] == r.entity
            && (k < |s.runs| && k != i ==> m.state.runs[k] == s.runs[k])
            && Of(m.told, Who(s.id, Styled, k)) == (if k == i then r.events else [])
  {
    hide Of;
    OfTagged(Who(s.id, Styled, i), r.events, Who(s.id, Styled, k));
  }

  lemma DropRunsUnfolds(s: State, count: int, i: nat, now: real)
    requires i < |s.runs|
    ensures DropRuns(s, count, i, now) ==
            var m := MoveRun(s, Styled, i, DropRun(s.runs[i], count, now)); DropRuns(m.state, m.count, i + 1, now).After(m.told)
  {
    hide DropRun;
  }

  lemma {:induction false} EarlierPastStay(s: State, count: int, i: nat, now: real, k: nat)
    requires i <= |s.runs| && k < i
    ensures Of(DropRuns(s, count, i, now).told, Who(s.id, Styled, k)) == []
    decreases |s.runs| - i
  {
    hide DropRun;
    hide MoveRun;
    hide Of;
    if i == |s.runs| {
      NoneTold(Who(s.id, Styled, k));
    } else {
      var r := DropRun(s.runs[i], count, now);
      var m := MoveRun(s, Styled, i, r);
      DropRunsUnfolds(s, count, i, now);
      OnePast(s, i, r, k);
      EarlierPastStay(m.state, m.count, i + 1, now, k);
      OfConcat(m.told, DropRuns(m.state, m.count, i + 1, now).told, Who(s.id, Styled, k));
    }
  }

  /** A run past the list is dropped, with what dropping tells. */
  lemma {:induction false} PastIsDropped(s: State, count: int, i: nat, now: real, k: nat) returns (n: int)
    requires i <= k < |s.runs|
    ensures var out, m := DropRun(s.runs[k], n, now), DropRuns(s, count, i, now);
            |m.state.runs| == |s.runs| && m.state.runs[k] == out.entity && Of(m.told, Who(s.id, Styled, k)) == out.events
    decreases k - i
  {
    hide DropRun;
    hide DropRuns;
    hide MoveRun;
    hide Of;
    var r := DropRun(s.runs[i], count, now);
    var m := MoveRun(s, Styled, i, r);
    DropRunsUnfolds(s, count, i, now);
    OnePast(s, i, r, k);
    var more := DropRuns(m.state, m.count, i + 1, now);
    OfConcat(m.told, more.told, Who(s.id, Styled, k));
    if i == k {
      n := count;
      RunsPastStop(m.state, m.count, i + 1, now);
      EarlierPastStay(m.state, m.count, i + 1, now, k);
    } else {
      n := PastIsDropped(m.state, m.count, i + 1, now, k);
    }
  }
}
