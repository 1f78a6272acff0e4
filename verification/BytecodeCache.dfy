/** The bytecode cache in memory: byte accounting and least-recently-used eviction. */
module BytecodeCache {
  import opened Options

  const MEM_CAP := 64 * 1024 * 1024
  const VALUE_CAP := 48 * 1024 * 1024
  const MAX_TIME := 0x7fff_ffff_ffff_ffff

  type Bytes = seq<int>
  type Key = string

  datatype Entry = Entry(bytes: Bytes, used: int)

  /** The table and its running byte count. */
  datatype Memory = Memory(entries: map<Key, Entry>, bytes: int)

  ghost function Total(m: map<Key, Entry>): nat {
    if m == map[] then 0
    else
      var k :| k in m;
      |m[k].bytes| + Total(m - {k})
  }

  lemma {:induction false} TotalWithout(m: map<Key, Entry>, k: Key)
    requires k in m
    ensures Total(m) == |m[k].bytes| + Total(m - {k})
    decreases m
  {
    var c :| c in m && Total(m) == |m[c].bytes| + Total(m - {c});
    if c != k {
      TotalWithout(m - {c}, k);
      TotalWithout(m - {k}, c);
      assert m - {c} - {k} == m - {k} - {c};
    }
  }

  lemma TotalWith(m: map<Key, Entry>, k: Key, e: Entry)
    requires k !in m
    ensures Total(m[k := e]) == Total(m) + |e.bytes|
  {
    TotalWithout(m[k := e], k);
    assert m[k := e] - {k} == m;
  }

  /** A new time of use does not change the count. */
  lemma TotalTouched(m: map<Key, Entry>, k: Key, now: int)
    requires k in m
    ensures Total(m[k := m[k].(used := now)]) == Total(m)
  {
    var touched := m[k := m[k].(used := now)];
    TotalWithout(m, k);
    TotalWithout(touched, k);
    assert touched - {k} == m - {k};
  }

  /** The count is exact and within the cap, and no value is over its own cap. */
  ghost predicate Sound(m: Memory) {
    && m.bytes == Total(m.entries) && m.bytes <= MEM_CAP
    && forall k :: k in m.entries ==> |m.entries[k].bytes| <= VALUE_CAP && m.entries[k].used < MAX_TIME
  }

  ghost predicate Part(m: map<Key, Entry>, all: map<Key, Entry>) {
    forall k :: k in m ==> k in all && m[k] == all[k]
  }

  /** The part of `m` kept while making room for `want` bytes: no kept entry was used before a
      removed one, and the newest removed entry would have been too much. */
  ghost predicate Trimmed(m: Memory, want: nat, kept: Memory) {
    && Part(kept.entries, m.entries) && kept.bytes == Total(kept.entries)
    && (forall gone, k :: gone in m.entries && gone !in kept.entries && k in kept.entries ==>
          m.entries[gone].used <= kept.entries[k].used)
    && (kept == m || exists last :: NewestRemoved(m, want, kept, last))
  }

  ghost predicate NewestRemoved(m: Memory, want: nat, kept: Memory, last: Key) {
    && last in m.entries && last !in kept.entries && kept.bytes + |m.entries[last].bytes| + want > MEM_CAP
    && forall k :: k in m.entries && k !in kept.entries ==> m.entries[k].used <= m.entries[last].used
  }

  /** Trimmed just until the wanted bytes fit. */
  ghost predicate Evicted(m: Memory, want: nat, kept: Memory) {
    Trimmed(m, want, kept) && kept.bytes + want <= MEM_CAP
  }

  lemma TrimStep(m: Memory, want: nat, kept: Memory, oldest: Key)
    requires Trimmed(m, want, kept) && kept.bytes + want > MEM_CAP
    requires oldest in kept.entries && forall k :: k in kept.entries ==> kept.entries[oldest].used <= kept.entries[k].used
    ensures Trimmed(m, want, Memory(kept.entries - {oldest}, kept.bytes - |kept.entries[oldest].bytes|))
  {
    TotalWithout(kept.entries, oldest);
    var less := Memory(kept.entries - {oldest}, kept.bytes - |kept.entries[oldest].bytes|);
    assert NewestRemoved(m, want, less, oldest);
  }

  /** A value under a key the table does not have, after making room for it. */
  ghost predicate Inserted(m: Memory, key: Key, bytes: Bytes, now: int, after: Memory) {
    exists kept :: Evicted(m, |bytes|, kept) && after == Memory(kept.entries[key := Entry(bytes, now)], kept.bytes + |bytes|)
  }

  lemma InsertedIsSound(m: Memory, key: Key, bytes: Bytes, now: int, after: Memory)
    requires Sound(m) && key !in m.entries && |bytes| <= VALUE_CAP && now < MAX_TIME && Inserted(m, key, bytes, now, after)
    ensures Sound(after) && after.entries[key] == Entry(bytes, now)
    ensures forall k :: k in after.entries && k != key ==> k in m.entries && after.entries[k] == m.entries[k]
  {
    var kept :| Evicted(m, |bytes|, kept) && after == Memory(kept.entries[key := Entry(bytes, now)], kept.bytes + |bytes|);
    TotalWith(kept.entries, key, Entry(bytes, now));
  }

  function Touched(m: Memory, key: Key, now: int): Memory
    requires key in m.entries
  {
    m.(entries := m.entries[key := m.entries[key].(used := now)])
  }

  /** The table after the locked end of a get that found `bytes` on disk. */
  ghost predicate Promoted(open: bool, m: Memory, key: Key, bytes: Bytes, now: int, after: Memory) {
    if open && |bytes| <= VALUE_CAP && key !in m.entries then Inserted(m, key, bytes, now, after) else after == m
  }

  /** The table after the locked part of a put. */
  ghost predicate Put(open: bool, m: Memory, key: Key, bytes: Bytes, now: int, after: Memory) {
    if !open then after == m
    else if key in m.entries then after == Touched(m, key, now)
    else Inserted(m, key, bytes, now, after)
  }

  lemma TouchedIsSound(m: Memory, key: Key, now: int)
    requires Sound(m) && key in m.entries && now < MAX_TIME
    ensures Sound(Touched(m, key, now))
  {
    TotalTouched(m.entries, key, now);
  }

  class Cache {
    /** Whether the table exists: between start-up and shutdown. */
    var open: bool
    var entries: map<Key, Entry>
    var memBytes: int
    var pending: set<Key>

    ghost function Contents(): Memory
      reads this
    {
      Memory(entries, memBytes)
    }

    ghost predicate Valid()
      reads this
    {
      Sound(Contents()) && (!open ==> entries == map[])
    }

    constructor ()
      ensures Valid() && !open && entries == map[] && pending == {}
    {
      open, entries, memBytes, pending := false, map[], 0, {};
    }

    method Init()
      requires Valid()
      modifies `open
      ensures Valid() && open
    {
      open := true;
    }

    method Shutdown()
      modifies this
      ensures Valid() && !open && pending == {} && entries == map[] && memBytes == 0
    {
      pending, entries, open, memBytes := {}, map[], false, 0;
    }

    /** The entry used longest ago, if there is any. */
    method Oldest() returns (oldest: Option<Key>)
      requires Valid()
      ensures oldest == None <==> entries == map[]
      ensures oldest.Some? ==> oldest.value in entries && forall k :: k in entries ==> entries[oldest.value].used <= entries[k].used
    {
      var oldestUse := MAX_TIME;
      oldest := None;
      var left := entries.Keys;
      while left != {}
        invariant left <= entries.Keys
        invariant if oldest == None then oldestUse == MAX_TIME && left == entries.Keys
                  else oldest.value in entries && oldestUse == entries[oldest.value].used
        invariant forall k :: k in entries && k !in left ==> oldestUse <= entries[k].used
        decreases left
      {
        var k :| k in left;
        if entries[k].used < oldestUse {
          oldest, oldestUse := Some(k), entries[k].used;
        }
        left := left - {k};
      }
    }

    method EvictUntilFits(want: nat)
      requires Valid() && want <= VALUE_CAP
      modifies `entries, `memBytes
      ensures Valid() && Evicted(old(Contents()), want, Contents())
    {
      while memBytes + want > MEM_CAP
        invariant Valid() && Trimmed(old(Contents()), want, Contents())
        decreases entries
      {
        var oldest := Oldest();
        if oldest == None { break; }
        TrimStep(old(Contents()), want, Contents(), oldest.value);
        memBytes := memBytes - |entries[oldest.value].bytes|;
        entries := entries - {oldest.value};
      }
    }

    /** The locked lookup of a get: a hit counts as a use. */
    method Lookup(key: Key, now: int) returns (hit: Option<Bytes>)
      requires Valid() && now < MAX_TIME
      modifies `entries
      ensures Valid()
      ensures hit == if open && key in old(entries) then Some(old(entries)[key].bytes) else None
      ensures Contents() == if hit.Some? then Touched(old(Contents()), key, now) else old(Contents())
    {
      if !open || key !in entries { return None; }
      hit := Some(entries[key].bytes);
      TouchedIsSound(Contents(), key, now);
      entries := entries[key := entries[key].(used := now)];
    }

    method Insert(key: Key, bytes: Bytes, now: int)
      requires Valid() && open && key !in entries && |bytes| <= VALUE_CAP && now < MAX_TIME
      modifies `entries, `memBytes
      ensures Valid() && Inserted(old(Contents()), key, bytes, now, Contents())
    {
      EvictUntilFits(|bytes|);
      ghost var kept := Contents();
      entries := entries[key := Entry(bytes, now)];
      memBytes := memBytes + |bytes|;
      InsertedIsSound(old(Contents()), key, bytes, now, Contents());
    }

    /** The locked end of a get that read the disk: the value is kept in memory too. */
    method Promote(key: Key, bytes: Bytes, now: int)
      requires Valid() && now < MAX_TIME
      modifies `entries, `memBytes
      ensures Valid() && Promoted(open, old(Contents()), key, bytes, now, Contents())
    {
      if open && |bytes| <= VALUE_CAP {
        if key !in entries {
          Insert(key, bytes, now);
        }
      }
    }

    /** The locked part of a put; whether the value is then to be written to disk. */
    method Store(key: Key, bytes: Bytes, now: int) returns (stored: bool)
      requires Valid() && |bytes| <= VALUE_CAP && now < MAX_TIME
      modifies `entries, `memBytes
      ensures Valid() && stored == (open && key !in old(entries))
      ensures Put(open, old(Contents()), key, bytes, now, Contents())
    {
      if !open { return false; }
      if key in entries {
        TouchedIsSound(Contents(), key, now);
        entries := entries[key := entries[key].(used := now)];
        return false;
      }
      Insert(key, bytes, now);
      stored := true;
    }

    /** Whether a background compilation of `key` would be of no use. */
    method Skips(key: Key) returns (skip: bool)
      ensures skip == (!open || key in entries || key in pending)
    {
      skip := !open || key in entries || key in pending;
    }

    method Mark(key: Key)
      modifies `pending
      ensures pending == old(pending) + {key}
    {
      pending := pending + {key};
    }

    method Finish(key: Key)
      modifies `pending
      ensures pending == old(pending) - {key}
    {
      pending := pending - {key};
    }
  }
}
