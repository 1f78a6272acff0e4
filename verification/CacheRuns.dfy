/** The bytecode cache under any interleaving. */
module CacheRuns {
  import opened Options
  import opened BytecodeCache

  const PRECOMPILE_MIN := 64 * 1024

  /** What bytecode is cached for. */
  datatype Script = Script(partition: string, name: string, source: string)

  /** The text that is hashed: both names with their terminators, then the source. */
  function Preimage(s: Script): string {
    s.partition + "\0" + s.name + "\0" + s.source
  }

  /** C strings end at the first NUL; the source carries its own length. */
  predicate IsCString(s: string) { '\0' !in s }

  predicate WellFormed(s: Script) { IsCString(s.partition) && IsCString(s.name) }

  lemma Head(a: string, x: string)
    requires IsCString(a)
    ensures a == "" <==> (a + "\0" + x)[0] == '\0'
    ensures a != "" ==> (a + "\0" + x)[0] == a[0]
  {
    assert a == "" || a[0] in a;
  }

  lemma {:induction false} FirstNul(a: string, b: string, x: string, y: string)
    requires IsCString(a) && IsCString(b) && a + "\0" + x == b + "\0" + y
    ensures a == b && x == y
    decreases |a|
  {
    var s, t := a + "\0" + x, b + "\0" + y;
    Head(a, x);
    Head(b, y);
    if a == "" {
      assert x == s[1..] && y == t[1..];
    } else {
      assert s[1..] == a[1..] + "\0" + x && t[1..] == b[1..] + "\0" + y;
      forall c | c in a[1..] ensures c in a {}
      forall c | c in b[1..] ensures c in b {}
      FirstNul(a[1..], b[1..], x, y);
      assert a == [a[0]] + a[1..] && b == [b[0]] + b[1..];
    }
  }

  /** Different scripts are hashed from different texts. */
  lemma PreimageIsInjective(a: Script, b: Script)
    requires WellFormed(a) && WellFormed(b) && Preimage(a) == Preimage(b)
    ensures a == b
  {
    assert Preimage(a) == a.partition + "\0" + (a.name + "\0" + a.source);
    assert Preimage(b) == b.partition + "\0" + (b.name + "\0" + b.source);
    FirstNul(a.partition, b.partition, a.name + "\0" + a.source, b.name + "\0" + b.source);
    FirstNul(a.name, b.name, a.source, b.source);
  }

  // ----- threads -----

  /** Where a thread stands between two locked sections. `job` marks the work of a background job. */
  datatype Task =
    | Looking(script: Script)
    | Reading(script: Script)
    | Keeping(script: Script, bytes: Bytes)
    | Returned(script: Script, result: Option<Bytes>)
    | Storing(script: Script, bytes: Bytes, job: bool)
    | Writing(script: Script, bytes: Bytes, job: bool)
    | Checking(script: Script)
    | Testing(script: Script)
    | Marking(script: Script)
    | Compiling(script: Script)
    | Finishing(script: Script)
    | Ended(script: Script)

  /** A background job between its mark and its finish. */
  predicate IsLive(t: Task) {
    t.Compiling? || t.Finishing? || (t.Storing? && t.job) || (t.Writing? && t.job)
  }

  datatype State = State(
    open: bool, memory: Memory, pending: set<Key>, disk: map<Key, Bytes>,
    tasks: map<nat, Task>, puts: set<(Script, Bytes)>)

  type Hash = string -> Key

  function KeyOf(h: Hash, s: Script): Key { h(Preimage(s)) }

  function AfterPut(s: Script, job: bool): Task {
    if job then Finishing(s) else Ended(s)
  }

  // ----- steps -----

  /** A get, a put or a request to precompile arrives. */
  ghost predicate Arrives(h: Hash, a: State, id: nat, b: State) {
    && id !in a.tasks && id in b.tasks && WellFormed(b.tasks[id].script) && b.tasks[id].script.source != ""
    && b == a.(tasks := a.tasks[id := b.tasks[id]], puts := b.puts)
    && match b.tasks[id]
       case Looking(_) => b.puts == a.puts
       case Storing(script, bytes, job) => !job && 0 < |bytes| <= VALUE_CAP && b.puts == a.puts + {(script, bytes)}
       case Checking(script) => |script.source| >= PRECOMPILE_MIN && b.puts == a.puts
       case _ => false
  }

  ghost predicate Moves(a: State, id: nat, b: State, next: Task, memory: Memory) {
    b == a.(tasks := a.tasks[id := next], memory := memory)
  }

  /** The next section of a get. A get that finds its script pending may also give up waiting. */
  ghost predicate GetStep(h: Hash, a: State, id: nat, now: int, b: State)
    requires id in a.tasks
  {
    match a.tasks[id]
    case Looking(s) =>
      var key := KeyOf(h, s);
      if !a.open then Moves(a, id, b, Returned(s, None), a.memory)
      else if key in a.memory.entries then
        Moves(a, id, b, Returned(s, Some(a.memory.entries[key].bytes)), Touched(a.memory, key, now))
      else Moves(a, id, b, Reading(s), a.memory)
    case Reading(s) =>
      var key := KeyOf(h, s);
      if key in a.disk && 0 < |a.disk[key]| <= VALUE_CAP then Moves(a, id, b, Keeping(s, a.disk[key]), a.memory)
      else Moves(a, id, b, Returned(s, None), a.memory)
    case Keeping(s, bytes) =>
      && Promoted(a.open, a.memory, KeyOf(h, s), bytes, now, b.memory)
      && Moves(a, id, b, Returned(s, Some(bytes)), b.memory)
    case _ => false
  }

  /** The next section of a put; the write to disk may fail. */
  ghost predicate PutStep(h: Hash, a: State, id: nat, now: int, b: State)
    requires id in a.tasks
  {
    match a.tasks[id]
    case Storing(s, bytes, job) =>
      var key := KeyOf(h, s);
      && Put(a.open, a.memory, key, bytes, now, b.memory)
      && Moves(a, id, b, if a.open && key !in a.memory.entries then Writing(s, bytes, job) else AfterPut(s, job), b.memory)
    case Writing(s, bytes, job) =>
      var done := a.(tasks := a.tasks[id := AfterPut(s, job)]);
      b == done || b == done.(disk := a.disk[KeyOf(h, s) := bytes])
    case _ => false
  }

  /** The next section of a request to precompile, or of the job it starts. */
  ghost predicate JobStep(h: Hash, a: State, id: nat, b: State)
    requires id in a.tasks
  {
    match a.tasks[id]
    case Checking(s) =>
      var key := KeyOf(h, s);
      Moves(a, id, b, if !a.open || key in a.memory.entries || key in a.pending then Ended(s) else Testing(s), a.memory)
    case Testing(s) => Moves(a, id, b, if KeyOf(h, s) in a.disk then Ended(s) else Marking(s), a.memory)
    case Marking(s) => b == a.(tasks := a.tasks[id := Compiling(s)], pending := a.pending + {KeyOf(h, s)})
    case Compiling(s) =>
      || Moves(a, id, b, Finishing(s), a.memory)
      || (&& id in b.tasks && b.tasks[id].Storing? && b.tasks[id].job && b.tasks[id].script == s
          && 0 < |b.tasks[id].bytes| <= VALUE_CAP
          && b == a.(tasks := a.tasks[id := b.tasks[id]], puts := a.puts + {(s, b.tasks[id].bytes)}))
    case Finishing(s) => b == a.(tasks := a.tasks[id := Ended(s)], pending := a.pending - {KeyOf(h, s)})
    case _ => false
  }

  /** Start-up, shutdown once no job is running (queued ones are dropped), and disk pruning. */
  ghost predicate HostStep(a: State, b: State) {
    || b == a.(open := true)
    || (&& (forall id :: id in a.tasks && IsLive(a.tasks[id]) ==> a.tasks[id].Compiling?)
        && b == a.(open := false, memory := Memory(map[], 0), pending := {},
                   tasks := map id | id in a.tasks && !IsLive(a.tasks[id]) :: a.tasks[id]))
    || (b == a.(disk := b.disk) && b.disk.Keys <= a.disk.Keys && forall k :: k in b.disk ==> b.disk[k] == a.disk[k])
  }

  ghost predicate Step(h: Hash, a: State, b: State) {
    || HostStep(a, b)
    || (exists id: nat :: Arrives(h, a, id, b))
    || (exists id: nat :: id in a.tasks && JobStep(h, a, id, b))
    || (exists id: nat, now: int :: id in a.tasks && now < MAX_TIME && (GetStep(h, a, id, now, b) || PutStep(h, a, id, now, b)))
  }

  // ----- what every reachable state keeps -----

  /** These bytes were put for a script with this key. */
  ghost predicate IsKnown(h: Hash, s: State, key: Key, bytes: Bytes) {
    exists script :: (script, bytes) in s.puts && WellFormed(script) && KeyOf(h, script) == key
  }

  ghost predicate TaskKeeps(h: Hash, s: State, t: Task) {
    && WellFormed(t.script)
    && (t.Keeping? ==> |t.bytes| <= VALUE_CAP && IsKnown(h, s, KeyOf(h, t.script), t.bytes))
    && (t.Returned? && t.result.Some? ==> IsKnown(h, s, KeyOf(h, t.script), t.result.value))
    && (t.Storing? || t.Writing? ==> 0 < |t.bytes| <= VALUE_CAP && (t.script, t.bytes) in s.puts)
  }

  ghost predicate HasJob(h: Hash, s: State, key: Key) {
    exists id :: id in s.tasks && IsLive(s.tasks[id]) && KeyOf(h, s.tasks[id].script) == key
  }

  ghost predicate Inv(h: Hash, s: State) {
    && Sound(s.memory) && (!s.open ==> s.memory.entries == map[])
    && (forall k :: k in s.memory.entries ==> IsKnown(h, s, k, s.memory.entries[k].bytes))
    && (forall k :: k in s.disk ==> IsKnown(h, s, k, s.disk[k]))
    && (forall id :: id in s.tasks ==> TaskKeeps(h, s, s.tasks[id]))
    && (forall k :: k in s.pending ==> HasJob(h, s, k))
  }

  /** Before start-up: an empty table, no threads, and a disk filled by earlier puts. */
  ghost predicate IsInitial(h: Hash, s: State) {
    && !s.open && s.memory == Memory(map[], 0) && s.pending == {} && s.tasks == map[]
    && forall k :: k in s.disk ==> IsKnown(h, s, k, s.disk[k])
  }

  lemma MorePuts(h: Hash, a: State, b: State, key: Key, bytes: Bytes)
    requires a.puts <= b.puts && IsKnown(h, a, key, bytes)
    ensures IsKnown(h, b, key, bytes)
  {
    var script :| (script, bytes) in a.puts && WellFormed(script) && KeyOf(h, script) == key;
    assert (script, bytes) in b.puts;
  }

  /** One thread's move keeps the invariant if what it changes is as it should be. */
  lemma MoveKeeps(h: Hash, a: State, b: State, id: nat, next: Task)
    requires Inv(h, a) && b.tasks == a.tasks[id := next] && a.puts <= b.puts
    requires TaskKeeps(h, b, next)
    requires Sound(b.memory) && (!b.open ==> b.memory.entries == map[])
    requires forall k :: k in b.memory.entries ==>
               (k in a.memory.entries && a.memory.entries[k].bytes == b.memory.entries[k].bytes) || IsKnown(h, b, k, b.memory.entries[k].bytes)
    requires forall k :: k in b.disk ==> (k in a.disk && a.disk[k] == b.disk[k]) || IsKnown(h, b, k, b.disk[k])
    requires forall k :: k in b.pending ==>
               || (IsLive(next) && KeyOf(h, next.script) == k)
               || (k in a.pending && !(id in a.tasks && IsLive(a.tasks[id]) && KeyOf(h, a.tasks[id].script) == k))
    ensures Inv(h, b)
  {
    forall k | k in b.memory.entries ensures IsKnown(h, b, k, b.memory.entries[k].bytes) {
      if k in a.memory.entries && a.memory.entries[k].bytes == b.memory.entries[k].bytes { MorePuts(h, a, b, k, a.memory.entries[k].bytes); }
    }
    forall k | k in b.disk ensures IsKnown(h, b, k, b.disk[k]) {
      if k in a.disk && a.disk[k] == b.disk[k] { MorePuts(h, a, b, k, b.disk[k]); }
    }
    forall t | t in b.tasks ensures TaskKeeps(h, b, b.tasks[t]) {
      if t != id { TaskStillKeeps(h, a, b, a.tasks[t]); }
    }
    forall k | k in b.pending ensures HasJob(h, b, k) {
      if IsLive(next) && KeyOf(h, next.script) == k {
        assert b.tasks[id] == next;
      } else {
        var j :| j in a.tasks && IsLive(a.tasks[j]) && KeyOf(h, a.tasks[j].script) == k;
        assert b.tasks[j] == a.tasks[j];
      }
    }
  }

  lemma TaskStillKeeps(h: Hash, a: State, b: State, t: Task)
    requires a.puts <= b.puts && TaskKeeps(h, a, t)
    ensures TaskKeeps(h, b, t)
  {
    if t.Keeping? { MorePuts(h, a, b, KeyOf(h, t.script), t.bytes); }
    if t.Returned? && t.result.Some? { MorePuts(h, a, b, KeyOf(h, t.script), t.result.value); }
  }

  lemma ArrivalKeeps(h: Hash, a: State, id: nat, b: State)
    requires Inv(h, a) && Arrives(h, a, id, b)
    ensures Inv(h, b)
  {
    MoveKeeps(h, a, b, id, b.tasks[id]);
  }

  lemma GetKeeps(h: Hash, a: State, id: nat, now: int, b: State)
    requires Inv(h, a) && id in a.tasks && now < MAX_TIME && GetStep(h, a, id, now, b)
    ensures Inv(h, b)
  {
    var t, key := a.tasks[id], KeyOf(h, a.tasks[id].script);
    assert TaskKeeps(h, a, t);
    if t.Looking? {
      if a.open && key in a.memory.entries {
        TouchedIsSound(a.memory, key, now);
        MorePuts(h, a, b, key, a.memory.entries[key].bytes);
      }
    } else if t.Reading? {
      if key in a.disk { MorePuts(h, a, b, key, a.disk[key]); }
    } else {
      MorePuts(h, a, b, key, t.bytes);
      if a.open && key !in a.memory.entries { InsertedIsSound(a.memory, key, t.bytes, now, b.memory); }
    }
    MoveKeeps(h, a, b, id, b.tasks[id]);
  }

  lemma PutKeeps(h: Hash, a: State, id: nat, now: int, b: State)
    requires Inv(h, a) && id in a.tasks && now < MAX_TIME && PutStep(h, a, id, now, b)
    ensures Inv(h, b)
  {
    var t, key := a.tasks[id], KeyOf(h, a.tasks[id].script);
    assert TaskKeeps(h, a, t) && IsKnown(h, b, key, t.bytes);
    if t.Storing? && a.open {
      if key in a.memory.entries { TouchedIsSound(a.memory, key, now); } else { InsertedIsSound(a.memory, key, t.bytes, now, b.memory); }
    }
    MoveKeeps(h, a, b, id, b.tasks[id]);
  }

  lemma JobKeeps(h: Hash, a: State, id: nat, b: State)
    requires Inv(h, a) && id in a.tasks && JobStep(h, a, id, b)
    ensures Inv(h, b)
  {
    assert TaskKeeps(h, a, a.tasks[id]);
    MoveKeeps(h, a, b, id, b.tasks[id]);
  }

  lemma HostKeeps(h: Hash, a: State, b: State)
    requires Inv(h, a) && HostStep(a, b)
    ensures Inv(h, b)
  {
    forall k | k in b.memory.entries ensures IsKnown(h, b, k, b.memory.entries[k].bytes) { MorePuts(h, a, b, k, a.memory.entries[k].bytes); }
    forall k | k in b.disk ensures IsKnown(h, b, k, b.disk[k]) { MorePuts(h, a, b, k, a.disk[k]); }
    forall t | t in b.tasks ensures TaskKeeps(h, b, b.tasks[t]) { TaskStillKeeps(h, a, b, a.tasks[t]); }
    forall k | k in b.pending ensures HasJob(h, b, k) {
      var j :| j in a.tasks && IsLive(a.tasks[j]) && KeyOf(h, a.tasks[j].script) == k;
      assert b.tasks[j] == a.tasks[j];
    }
  }

  lemma StepKeeps(h: Hash, a: State, b: State)
    requires Inv(h, a) && Step(h, a, b)
    ensures Inv(h, b)
  {
    hide Inv;
    if HostStep(a, b) {
      HostKeeps(h, a, b);
    } else if id: nat :| Arrives(h, a, id, b) {
      ArrivalKeeps(h, a, id, b);
    } else if id: nat :| id in a.tasks && JobStep(h, a, id, b) {
      JobKeeps(h, a, id, b);
    } else {
      var id: nat, now: int :| id in a.tasks && now < MAX_TIME && (GetStep(h, a, id, now, b) || PutStep(h, a, id, now, b));
      if GetStep(h, a, id, now, b) { GetKeeps(h, a, id, now, b); } else { PutKeeps(h, a, id, now, b); }
    }
  }

  ghost predicate IsRun(h: Hash, run: seq<State>) {
    run != [] && IsInitial(h, run[0]) && forall i :: 0 <= i < |run| - 1 ==> Step(h, run[i], run[i + 1])
  }

  lemma {:induction false} RunKeeps(h: Hash, run: seq<State>, i: nat)
    requires IsRun(h, run) && i < |run|
    ensures Inv(h, run[i])
    decreases i
  {
    if i == 0 {
      assert Total(map[]) == 0;
    } else {
      RunKeeps(h, run, i - 1);
      assert Step(h, run[i - 1], run[i - 1 + 1]);
      StepKeeps(h, run[i - 1], run[i]);
    }
  }

  ghost predicate IsCollisionFree(h: Hash) {
    forall x: string, y: string :: h(x) == h(y) ==> x == y
  }

  /** In every reachable state memory is within its cap and exactly accounted for, every pending
      script has a job still to finish, and a get has only ever returned bytes put for the very
      same partition, name and source. */
  lemma CacheIsHonest(h: Hash, run: seq<State>, i: nat)
    requires IsRun(h, run) && i < |run| && IsCollisionFree(h)
    ensures var s := run[i];
            && s.memory.bytes == Total(s.memory.entries) <= MEM_CAP
            && (forall k :: k in s.pending ==> HasJob(h, s, k))
            && forall id :: id in s.tasks && s.tasks[id].Returned? && s.tasks[id].result.Some? ==>
                 (s.tasks[id].script, s.tasks[id].result.value) in s.puts
  {
    var s := run[i];
    RunKeeps(h, run, i);
    forall id | id in s.tasks && s.tasks[id].Returned? && s.tasks[id].result.Some?
      ensures (s.tasks[id].script, s.tasks[id].result.value) in s.puts
    {
      var t := s.tasks[id];
      assert TaskKeeps(h, s, t);
      var script :| (script, t.result.value) in s.puts && WellFormed(script) && KeyOf(h, script) == KeyOf(h, t.script);
      PreimageIsInjective(script, t.script);
    }
  }
}
