/** Canonical order keeps meaning. */
module CalcOrder {
  import opened CalcTree
  import opened CalcMeaning
  import opened CalcText
  import opened CalcPrint

  lemma RankedStep(ks: seq<Node>, rank: nat)
    requires ks != []
    ensures multiset(Ranked(ks, rank)) ==
            (if Rank(ks[0]) == rank then multiset{ks[0]} else multiset{}) + multiset(Ranked(ks[1..], rank))
  {}

  lemma {:induction false} RankedIsPartition(ks: seq<Node>)
    ensures multiset(ks) == multiset(Ranked(ks, 0)) + multiset(Ranked(ks, 1)) + multiset(Ranked(ks, 2)) + multiset(Ranked(ks, 3))
    decreases |ks|
  {
    hide Ranked;
    if ks == [] {
      NoneRanked();
    } else {
      RankedIsPartition(ks[1..]);
      assert ks == [ks[0]] + ks[1..];
      RankedStep(ks, 0);
      RankedStep(ks, 1);
      RankedStep(ks, 2);
      RankedStep(ks, 3);
    }
  }

  lemma NoneRanked()
    ensures forall rank: nat :: Ranked([], rank) == []
  {}

  lemma {:induction false} InsertPermutes(ks: seq<Node>, n: Node)
    requires AllNumeric(ks) && n.Numeric?
    ensures multiset(InsertByUnit(ks, n)) == multiset(ks) + multiset{n}
    decreases |ks|
  {
    if !(ks == [] || NoLater(ks[|ks| - 1].unit, n.unit)) {
      InsertPermutes(ks[..|ks| - 1], n);
      assert ks == ks[..|ks| - 1] + [ks[|ks| - 1]];
    }
  }

  lemma {:induction false} ByUnitPermutes(ks: seq<Node>)
    requires AllNumeric(ks)
    ensures multiset(ByUnit(ks)) == multiset(ks)
    decreases |ks|
  {
    if ks != [] {
      ByUnitPermutes(ks[..|ks| - 1]);
      InsertPermutes(ByUnit(ks[..|ks| - 1]), ks[|ks| - 1]);
      assert ks == ks[..|ks| - 1] + [ks[|ks| - 1]];
    }
  }

  lemma SortedPermutes(ks: seq<Node>)
    ensures multiset(Sorted(ks)) == multiset(ks)
  {
    RankedIsPartition(ks);
    assert forall i :: 0 <= i < |Ranked(ks, 2)| ==> Ranked(ks, 2)[i] in Ranked(ks, 2);
    ByUnitPermutes(Ranked(ks, 2));
  }

  // ----- the order itself -----

  lemma {:induction false} NoLaterIsTotal(a: string, b: string)
    ensures NoLater(a, b) || NoLater(b, a)
    decreases |a|
  {
    if a != "" && b != "" { NoLaterIsTotal(a[1..], b[1..]); }
  }

  lemma {:induction false} NoLaterIsTransitive(a: string, b: string, c: string)
    requires NoLater(a, b) && NoLater(b, c)
    ensures NoLater(a, c)
    decreases |a|
  {
    if a != "" && LowerChar(a[0]) == LowerChar(b[0]) == LowerChar(c[0]) { NoLaterIsTransitive(a[1..], b[1..], c[1..]); }
  }

  predicate InUnitOrder(ks: seq<Node>)
    requires AllNumeric(ks)
  {
    forall i, j :: 0 <= i < j < |ks| ==> NoLater(ks[i].unit, ks[j].unit)
  }

  lemma {:induction false} InsertKeepsOrder(ks: seq<Node>, n: Node)
    requires AllNumeric(ks) && n.Numeric? && InUnitOrder(ks)
    ensures InUnitOrder(InsertByUnit(ks, n))
    decreases |ks|
  {
    if ks != [] {
      var last, front := ks[|ks| - 1], ks[..|ks| - 1];
      if NoLater(last.unit, n.unit) {
        forall i | 0 <= i < |ks| ensures NoLater(ks[i].unit, n.unit) {
          if i < |ks| - 1 { NoLaterIsTransitive(ks[i].unit, last.unit, n.unit); }
        }
      } else {
        InsertKeepsOrder(front, n);
        NoLaterIsTotal(last.unit, n.unit);
        var r := InsertByUnit(front, n);
        forall i | 0 <= i < |r| ensures NoLater(r[i].unit, last.unit) {
          assert r[i] in r;
          if r[i] in front {
            var k :| 0 <= k < |front| && front[k] == r[i];
            assert ks[k] == front[k];
          }
        }
      }
    }
  }

  lemma {:induction false} ByUnitIsInOrder(ks: seq<Node>)
    requires AllNumeric(ks)
    ensures InUnitOrder(ByUnit(ks))
    decreases |ks|
  {
    if ks != [] {
      ByUnitIsInOrder(ks[..|ks| - 1]);
      InsertKeepsOrder(ByUnit(ks[..|ks| - 1]), ks[|ks| - 1]);
    }
  }

  /** A number, then a percentage, then dimensions by unit, then everything else. */
  lemma SortedIsInOrder(ks: seq<Node>, i: nat, j: nat)
    requires i < j < |Sorted(ks)|
    ensures var a, b := Sorted(ks)[i], Sorted(ks)[j];
            Rank(a) <= Rank(b) && (Rank(a) == 2 && Rank(b) == 2 ==> NoLater(a.unit, b.unit))
  {
    hide Ranked;
    hide ByUnit;
    hide NoLater;
    hide Rank;
    var r0, r1, r2, r3 := Ranked(ks, 0), Ranked(ks, 1), Ranked(ks, 2), Ranked(ks, 3);
    assert forall k :: 0 <= k < |r2| ==> r2[k] in r2;
    ByUnitIsInOrder(r2);
    var d := ByUnit(r2);
    RankAt(r0, r1, d, r3, i);
    RankAt(r0, r1, d, r3, j);
    var n := |r0| + |r1|;
    if n <= i && j < n + |d| {
      assert Sorted(ks)[i] == d[i - n] && Sorted(ks)[j] == d[j - n];
    }
  }

  lemma RankAt(r0: seq<Node>, r1: seq<Node>, d: seq<Node>, r3: seq<Node>, i: nat)
    requires forall n :: n in r0 ==> Rank(n) == 0
    requires forall n :: n in r1 ==> Rank(n) == 1
    requires forall n :: n in d ==> Rank(n) == 2
    requires forall n :: n in r3 ==> Rank(n) == 3
    requires i < |r0 + r1 + d + r3|
    ensures Rank((r0 + r1 + d + r3)[i]) ==
            if i < |r0| then 0 else if i < |r0| + |r1| then 1 else if i < |r0| + |r1| + |d| then 2 else 3
  {
    var s := r0 + r1 + d + r3;
    if i < |r0| { assert s[i] == r0[i]; }
    else if i < |r0| + |r1| { assert s[i] == r1[i - |r0|]; }
    else if i < |r0| + |r1| + |d| { assert s[i] == d[i - |r0| - |r1|]; }
    else { assert s[i] == r3[i - |r0| - |r1| - |d|]; }
  }

  // ----- order does not matter to sums and products -----

  lemma {:induction false} PermutationKeepsMeaning(a: seq<Node>, b: seq<Node>, w: World)
    requires multiset(a) == multiset(b)
    ensures Sums(a, w) == Sums(b, w) && Multiples(a, w) == Multiples(b, w)
    decreases |a|
  {
    hide Sums;
    hide Multiples;
    if a == [] {
      assert |b| == |multiset(b)| == 0;
    } else {
      var x := a[0];
      assert a == [x] + a[1..];
      assert x in multiset(b);
      var i :| 0 <= i < |b| && b[i] == x;
      var p, q := b[..i], b[i + 1..];
      assert b == p + ([x] + q);
      TakeOut(a, b, x, a[1..], p, q);
      PermutationKeepsMeaning(a[1..], p + q, w);
      SumsConcat([x], a[1..], w);
      SumsConcat(p, [x] + q, w);
      SumsConcat([x], q, w);
      SumsConcat(p, q, w);
      Rearranged(Sums([x], w), Sums(p, w), Sums(q, w));
      Rearranged(Multiples([x], w), Multiples(p, w), Multiples(q, w));
    }
  }

  lemma TakeOut<N>(a: seq<N>, b: seq<N>, x: N, r: seq<N>, p: seq<N>, q: seq<N>)
    requires multiset(a) == multiset(b) && a == [x] + r && b == p + ([x] + q)
    ensures multiset(r) == multiset(p + q)
  {
    assert multiset(a) == multiset{x} + multiset(r);
    assert multiset(b) == multiset(p) + (multiset{x} + multiset(q));
    forall y: N ensures multiset(r)[y] == multiset(p + q)[y] {
      assert multiset(a)[y] == multiset(b)[y];
    }
  }

  lemma Rearranged(x: Meaning, p: Meaning, q: Meaning)
    ensures Plus(x, Plus(p, q)) == Plus(p, Plus(x, q)) && Times(x, Times(p, q)) == Times(p, Times(x, q))
  {
    hide Prod;
    if x.Amount? && p.Amount? && q.Amount? { MoveOut(x.v, p.v, q.v); }
  }

  lemma SortedKeepsMeaning(ks: seq<Node>, w: World)
    ensures Sums(Sorted(ks), w) == Sums(ks, w) && Multiples(Sorted(ks), w) == Multiples(ks, w)
  {
    SortedPermutes(ks);
    PermutationKeepsMeaning(Sorted(ks), ks, w);
  }
}
