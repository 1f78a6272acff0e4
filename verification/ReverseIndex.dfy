/** From code point back to pointer. */
module ReverseIndex {
  import opened DecoderSpec

  datatype RevId = RevJis0208 | RevShiftJis | RevEucKr | RevGb18030 | RevBig5

  datatype Entry = Entry(codePoint: nat, pointer: nat)

  datatype Lookup = Absent | Found(pointer: nat)

  function Source(id: RevId, t: Tables): seq<nat> {
    match id
    case RevJis0208 => t.jis0208
    case RevShiftJis => t.jis0208
    case RevEucKr => t.eucKr
    case RevGb18030 => t.gb18030
    case RevBig5 => t.big5
  }

  predicate Excluded(id: RevId, pointer: nat) {
    match id
    case RevShiftJis => 8272 <= pointer <= 8835
    case RevBig5 => pointer < (0xA1 - 0x81) * 157
    case _ => false
  }

  predicate PrefersLast(id: RevId, cp: nat) {
    id == RevBig5 && cp in {0x2550, 0x255E, 0x2561, 0x256A, 0x5341, 0x5345}
  }

  /** Pointer `p` could encode `cp`. */
  predicate Candidate(id: RevId, table: seq<nat>, cp: nat, p: nat) {
    p < |table| && table[p] == cp && cp != 0 && !Excluded(id, p)
  }

  /** Pointer `p` is the one the standard picks: the first candidate, or the last one for
      six Big5 code points. */
  ghost predicate Chosen(id: RevId, table: seq<nat>, cp: nat, p: nat) {
    && Candidate(id, table, cp, p)
    && forall q: nat :: Candidate(id, table, cp, q) ==> if PrefersLast(id, cp) then q <= p else p <= q
  }

  /** Lookup by definition, used as the specification. */
  ghost function IndexPointer(id: RevId, t: Tables, cp: nat): (r: Lookup)
    ensures r.Found? ==> Chosen(id, Source(id, t), cp, r.pointer)
    ensures r.Absent? ==> forall p: nat :: !Candidate(id, Source(id, t), cp, p)
  {
    var table := Source(id, t);
    if p :| Candidate(id, table, cp, p) then
      ChoiceExists(id, table, cp, p);
      var q :| Chosen(id, table, cp, q);
      Found(q)
    else Absent
  }

  lemma {:induction false} ChoiceExists(id: RevId, table: seq<nat>, cp: nat, p: nat)
    requires Candidate(id, table, cp, p)
    ensures exists q :: Chosen(id, table, cp, q)
    decreases if PrefersLast(id, cp) then |table| - p else p
  {
    if !Chosen(id, table, cp, p) {
      var q: nat :| Candidate(id, table, cp, q) && !(if PrefersLast(id, cp) then q <= p else p <= q);
      ChoiceExists(id, table, cp, q);
    }
  }

  lemma ChosenIsUnique(id: RevId, table: seq<nat>, cp: nat, p: nat, q: nat)
    requires Chosen(id, table, cp, p) && Chosen(id, table, cp, q)
    ensures p == q
  {}

  // ----- collecting -----

  /** The unsorted entries of an index, in pointer order. */
  function Collect(id: RevId, table: seq<nat>, n: nat): (s: seq<Entry>)
    requires n <= |table|
    ensures |s| <= n
  {
    if n == 0 then []
    else
      var s := Collect(id, table, n - 1);
      if table[n - 1] == 0 || Excluded(id, n - 1) then s else s + [Entry(table[n - 1], n - 1)]
  }

  lemma {:induction false} CollectsCandidates(id: RevId, table: seq<nat>, n: nat, e: Entry)
    requires n <= |table|
    ensures e in Collect(id, table, n) <==> e.pointer < n && Candidate(id, table, e.codePoint, e.pointer)
  {
    if n > 0 {
      CollectsCandidates(id, table, n - 1, e);
    }
  }

  // ----- sorting -----

  /** By code point, then by pointer. */
  predicate Before(x: Entry, y: Entry) {
    x.codePoint < y.codePoint || (x.codePoint == y.codePoint && x.pointer <= y.pointer)
  }

  predicate Sorted(s: seq<Entry>) {
    forall i, j :: 0 <= i < j < |s| ==> Before(s[i], s[j])
  }

  function Insert(e: Entry, s: seq<Entry>): (r: seq<Entry>)
    ensures |r| == |s| + 1
    ensures multiset(r) == multiset(s) + multiset{e}
  {
    if s == [] then [e]
    else if Before(e, s[0]) then [e] + s
    else
      assert s == [s[0]] + s[1..];
      [s[0]] + Insert(e, s[1..])
  }

  lemma {:induction false} InsertSorts(e: Entry, s: seq<Entry>)
    requires Sorted(s)
    ensures Sorted(Insert(e, s))
  {
    if s != [] && !Before(e, s[0]) {
      InsertSorts(e, s[1..]);
      var r := Insert(e, s[1..]);
      assert s == [s[0]] + s[1..];
      forall k | 0 <= k < |r| ensures Before(s[0], r[k]) {
        assert r[k] in multiset(r);
        assert r[k] == e || r[k] in s[1..];
      }
    }
  }

  /** What qsort produces with this comparison, entries being distinct. */
  function Sort(s: seq<Entry>): (r: seq<Entry>)
    ensures |r| == |s| && Sorted(r)
    ensures multiset(r) == multiset(s)
  {
    if s == [] then []
    else
      assert s == [s[0]] + s[1..];
      InsertSorts(s[0], Sort(s[1..]));
      Insert(s[0], Sort(s[1..]))
  }

  method QSort(a: array<Entry>, n: nat)
    requires n <= a.Length
    modifies a
    ensures a[..n] == Sort(old(a[..n]))
    ensures forall k :: n <= k < a.Length ==> a[k] == old(a[k])
  {
    var sorted := Sort(a[..n]);
    forall k | 0 <= k < n { a[k] := sorted[k]; }
  }

  // ----- compaction -----

  /** The entries kept from a sorted prefix: one per code point. */
  function Dedupe(id: RevId, s: seq<Entry>): (d: seq<Entry>)
    ensures |d| <= |s|
  {
    if s == [] then []
    else
      var d := Dedupe(id, s[..|s| - 1]);
      var e := s[|s| - 1];
      if d == [] || d[|d| - 1].codePoint != e.codePoint then d + [e]
      else if PrefersLast(id, e.codePoint) then d[..|d| - 1] + [e]
      else d
  }

  predicate Strict(d: seq<Entry>) {
    forall i, j :: 0 <= i < j < |d| ==> d[i].codePoint < d[j].codePoint
  }

  lemma StrictSnoc(d: seq<Entry>, e: Entry)
    requires Strict(d) && d != []
    ensures d[|d| - 1].codePoint < e.codePoint ==> Strict(d + [e])
    ensures d[|d| - 1].codePoint == e.codePoint ==> Strict(d[..|d| - 1] + [e])
  {}

  lemma {:induction false} DedupeIncreases(id: RevId, s: seq<Entry>)
    requires Sorted(s)
    ensures var d := Dedupe(id, s);
            Strict(d) && (s != [] ==> d != [] && d[|d| - 1].codePoint == s[|s| - 1].codePoint)
  {
    if |s| > 1 {
      var front, e := s[..|s| - 1], s[|s| - 1];
      assert Sorted(front) && Before(front[|front| - 1], e);
      hide Sorted;
      hide Strict;
      hide PrefersLast;
      DedupeIncreases(id, front);
      StrictSnoc(Dedupe(id, front), e);
    }
  }

  lemma {:induction false} DedupeKeepsOnly(id: RevId, s: seq<Entry>, x: Entry)
    requires x in Dedupe(id, s)
    ensures x in s
  {
    var front, e := s[..|s| - 1], s[|s| - 1];
    if x != e {
      DedupeKeepsOnly(id, front, x);
    }
  }

  lemma {:induction false} DedupeCovers(id: RevId, s: seq<Entry>, e: Entry) returns (k: nat)
    requires Sorted(s) && e in s
    ensures k < |Dedupe(id, s)| && Dedupe(id, s)[k].codePoint == e.codePoint
    decreases |s|
  {
    var front, last := s[..|s| - 1], s[|s| - 1];
    assert s == front + [last];
    DedupeIncreases(id, s);
    FrontIsSorted(s);
    hide Sorted;
    hide Strict;
    hide PrefersLast;
    if e == last {
      k := |Dedupe(id, s)| - 1;
    } else {
      k := DedupeCovers(id, front, e);
    }
  }

  lemma FrontIsSorted(s: seq<Entry>)
    requires Sorted(s) && s != []
    ensures Sorted(s[..|s| - 1])
  {}

  lemma SortedBefore(s: seq<Entry>, e: Entry)
    requires Sorted(s) && e in s
    ensures Before(e, s[|s| - 1])
  {
    var i :| 0 <= i < |s| && s[i] == e;
  }

  /** The kept entry is the smallest (or largest) pointer of its code point. */
  lemma {:induction false} DedupeChooses(id: RevId, s: seq<Entry>, k: nat, e: Entry)
    requires Sorted(s) && k < |Dedupe(id, s)| && e in s && e.codePoint == Dedupe(id, s)[k].codePoint
    ensures var x := Dedupe(id, s)[k];
            if PrefersLast(id, x.codePoint) then e.pointer <= x.pointer else x.pointer <= e.pointer
  {
    var front, last := s[..|s| - 1], s[|s| - 1];
    assert s == front + [last];
    var d, x := Dedupe(id, front), Dedupe(id, s)[k];
    SortedBefore(s, e);
    DedupeIncreases(id, front);
    DedupeIncreases(id, s);
    if k + 1 < |Dedupe(id, s)| {
      assert x.codePoint < Dedupe(id, s)[|Dedupe(id, s)| - 1].codePoint;
      assert x == d[k];
      DedupeChooses(id, front, k, e);
    } else if e != last {
      SortedBefore(front, e);
      assert Before(front[|front| - 1], last) by { assert s[|front| - 1] == front[|front| - 1]; }
      if !PrefersLast(id, x.codePoint) {
        DedupeChooses(id, front, k, e);
      }
    } else if x != last {
      DedupeKeepsOnly(id, s, x);
      SortedBefore(s, x);
    }
  }

  // ----- the map -----

  ghost predicate IsMap(id: RevId, table: seq<nat>, entries: seq<Entry>) {
    && Strict(entries)
    && (forall k :: 0 <= k < |entries| ==> Chosen(id, table, entries[k].codePoint, entries[k].pointer))
    && (forall cp: nat, p: nat :: Candidate(id, table, cp, p) ==> Lists(entries, cp))
  }

  ghost predicate Lists(entries: seq<Entry>, cp: nat) {
    exists k :: 0 <= k < |entries| && entries[k].codePoint == cp
  }

  lemma SortedCandidates(id: RevId, table: seq<nat>, e: Entry)
    ensures e in Sort(Collect(id, table, |table|)) <==> Candidate(id, table, e.codePoint, e.pointer)
  {
    var all := Collect(id, table, |table|);
    CollectsCandidates(id, table, |table|, e);
    assert e in Sort(all) <==> e in multiset(Sort(all));
    assert e in all <==> e in multiset(all);
  }

  lemma DedupedIsMap(id: RevId, table: seq<nat>)
    ensures IsMap(id, table, Dedupe(id, Sort(Collect(id, table, |table|))))
  {
    hide Sort;
    hide Dedupe;
    hide Collect;
    hide Sorted;
    hide Candidate;
    var s := Sort(Collect(id, table, |table|));
    var d := Dedupe(id, s);
    DedupeIncreases(id, s);
    forall k | 0 <= k < |d| ensures Chosen(id, table, d[k].codePoint, d[k].pointer) {
      var x := d[k];
      DedupeKeepsOnly(id, s, x);
      SortedCandidates(id, table, x);
      forall q: nat | Candidate(id, table, x.codePoint, q)
        ensures if PrefersLast(id, x.codePoint) then q <= x.pointer else x.pointer <= q
      {
        SortedCandidates(id, table, Entry(x.codePoint, q));
        DedupeChooses(id, s, k, Entry(x.codePoint, q));
      }
    }
    forall cp: nat, p: nat | Candidate(id, table, cp, p) ensures Lists(d, cp) {
      SortedCandidates(id, table, Entry(cp, p));
      var k := DedupeCovers(id, s, Entry(cp, p));
    }
  }

  method CollectInto(id: RevId, table: seq<nat>, all: array<Entry>) returns (n: nat)
    requires all.Length == |table|
    modifies all
    ensures n <= all.Length && all[..n] == Collect(id, table, |table|)
  {
    n := 0;
    for p := 0 to |table|
      invariant n == |Collect(id, table, p)| && all[..n] == Collect(id, table, p)
    {
      var cp := table[p];
      if cp != 0 && !Excluded(id, p) {
        all[n] := Entry(cp, p);
        n := n + 1;
      }
    }
  }

  /** Keeps one entry per code point, in place. */
  method Compact(id: RevId, all: array<Entry>, n: nat) returns (kept: nat)
    requires n <= all.Length
    modifies all
    ensures kept <= n && all[..kept] == Dedupe(id, old(all[..n]))
  {
    hide Dedupe;
    ghost var s := all[..n];
    ghost var d := Dedupe(id, s[..0]);
    DedupeNone(id, s);
    kept := 0;
    for i := 0 to n
      invariant kept == |d| <= i && d == Dedupe(id, s[..i])
      invariant forall k :: 0 <= k < kept ==> all[k] == d[k]
      invariant forall k :: i <= k < n ==> all[k] == s[k]
    {
      DedupeSnoc(id, s, i);
      d := Dedupe(id, s[..i + 1]);
      var same := kept > 0 && all[kept - 1].codePoint == all[i].codePoint;
      if !same {
        all[kept] := all[i];
        kept := kept + 1;
      } else if PrefersLast(id, all[i].codePoint) {
        all[kept - 1] := all[i];
      }
    }
    assert s[..n] == s;
  }

  lemma DedupeNone(id: RevId, s: seq<Entry>)
    ensures Dedupe(id, s[..0]) == []
  {}

  lemma DedupeSnoc(id: RevId, s: seq<Entry>, i: nat)
    requires i < |s|
    ensures var d, e := Dedupe(id, s[..i]), s[i];
            Dedupe(id, s[..i + 1]) == if d == [] || d[|d| - 1].codePoint != e.codePoint then d + [e]
                                      else if PrefersLast(id, e.codePoint) then d[..|d| - 1] + [e]
                                      else d
  {
    assert s[..i + 1][..i] == s[..i] && s[..i + 1][i] == s[i];
  }

  /** Collect, sort, compact in place. */
  method RevMapBuild(id: RevId, t: Tables) returns (entries: seq<Entry>)
    ensures IsMap(id, Source(id, t), entries)
  {
    hide IsMap;
    hide Sort;
    hide Dedupe;
    hide Collect;
    var table := Source(id, t);
    var all := new Entry[|table|](_ => Entry(0, 0));
    var n := CollectInto(id, table, all);
    QSort(all, n);
    var kept := Compact(id, all, n);
    entries := all[..kept];
    DedupedIsMap(id, table);
  }

  /** Binary search of a map. */
  method Search(id: RevId, table: seq<nat>, entries: seq<Entry>, cp: nat) returns (found: bool, pointer: nat)
    requires IsMap(id, table, entries)
    ensures found <==> exists p: nat :: Candidate(id, table, cp, p)
    ensures found ==> Chosen(id, table, cp, pointer)
  {
    hide Candidate;
    var lo, hi := 0, |entries|;
    while lo < hi
      invariant 0 <= lo <= hi <= |entries|
      invariant forall k :: 0 <= k < lo ==> entries[k].codePoint < cp
      invariant forall k :: hi <= k < |entries| ==> entries[k].codePoint >= cp
    {
      var mid := lo + (hi - lo) / 2;
      if entries[mid].codePoint < cp { lo := mid + 1; } else { hi := mid; }
    }
    if lo >= |entries| || entries[lo].codePoint != cp {
      assert !Lists(entries, cp);
      return false, 0;
    }
    return true, entries[lo].pointer;
  }

  /** The reverse maps, each built on first use. */
  class ReverseMaps {
    const tables: Tables
    var ready: map<RevId, seq<Entry>>

    ghost predicate Valid() reads this {
      forall id :: id in ready ==> IsMap(id, Source(id, tables), ready[id])
    }

    constructor (tables: Tables)
      ensures Valid() && this.tables == tables
    {
      this.tables := tables;
      ready := map[];
    }

    /** Finds exactly the pointer the standard names, and fails exactly when there is none. */
    method RevPointer(id: RevId, cp: nat) returns (found: bool, pointer: nat)
      requires Valid()
      modifies this
      ensures Valid()
      ensures (if found then Found(pointer) else Absent) == IndexPointer(id, tables, cp)
    {
      if id !in ready {
        var entries := RevMapBuild(id, tables);
        ready := ready[id := entries];
      }
      found, pointer := Search(id, Source(id, tables), ready[id], cp);
      if found {
        ChosenIsUnique(id, Source(id, tables), cp, pointer, IndexPointer(id, tables, cp).pointer);
      }
    }
  }
}
