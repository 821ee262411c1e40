/**
 The mutable objects behind the cache: the directory on disk, and `CacheState` with its LRU, byte count,
 generation counters and queue of failed deletions. Every method is one critical section of the source.
 */
module CacheStates {
  import opened Basics
  import opened FileNames
  import opened CacheMemory
  import Lru

  const QUEUE_LIMIT: nat := 1024
  const RETRIES_PER_TICK: nat := 64
  const BASE_DELAY_MS: nat := 100
  const MAX_DELAY_MS: nat := 30_000
  const BACKOFF_CUTOFF: nat := 8

  /** A metadata record, as stored in JSON beside its content file. */
  datatype Record = Record(version: nat, key: Key, path: FileName, size: nat, digest: Digest, info: Info, cachedAt: nat)

  /** What a path of the cache directory holds; `Special` is a symbolic link or a directory. */
  datatype FileData = Plain(content: Bytes) | Json(record: Record) | Special

  /** The cache directory. A removal may fail, and then changes nothing; `failures` counts the ones that did. */
  class Disk {
    var files: map<FileName, FileData>
    ghost var failures: nat

    method TryRemove(name: FileName) returns (ok: bool)
      modifies this
      ensures files == if ok then old(files) - {name} else old(files)
      ensures failures == if ok then old(failures) else old(failures) + 1
    {
      ok := *;
      if ok {
        files := files - {name};
      } else {
        failures := failures + 1;
      }
    }
  }

  datatype FailedDeletion = FailedDeletion(path: FileName, attempts: nat, nextRetry: nat)

  predicate Ready(d: FailedDeletion, now: nat) {
    d.nextRetry <= now
  }

  /** `1u64 << exponent`. */
  function Shifted(exponent: nat): nat {
    if exponent == 0 then 1 else 2 * Shifted(exponent - 1)
  }

  /** The delay after a number of failed attempts. */
  function Delay(attempts: nat): nat {
    var exponent := if attempts < BACKOFF_CUTOFF then attempts else BACKOFF_CUTOFF;
    var delay := BASE_DELAY_MS * Shifted(exponent);
    if delay < MAX_DELAY_MS then delay else MAX_DELAY_MS
  }

  function Backoff(d: FailedDeletion, now: nat): FailedDeletion {
    var attempts := if d.attempts + 1 < TWO_32 then d.attempts + 1 else TWO_32 - 1;
    FailedDeletion(d.path, attempts, now + Delay(attempts))
  }

  /** `push_failed_deletion`: a full queue drops its oldest element. */
  function Pushed<T>(q: seq<T>, d: T): seq<T> {
    (if |q| >= QUEUE_LIMIT then q[1..] else q) + [d]
  }

  function PushedAll<T>(q: seq<T>, ds: seq<T>): seq<T>
    decreases |ds|
  {
    if ds == [] then q else PushedAll(Pushed(q, ds[0]), ds[1..])
  }

  lemma {:induction false} ShiftedGrows(a: nat, b: nat)
    requires a <= b
    ensures Shifted(a) <= Shifted(b)
  {
    if a < b {
      ShiftedGrows(a, b - 1);
    }
  }

  /** One entry's delays double and never decrease. They stop at 25.6 seconds, so the 30 second cap is never the reason. */
  lemma DelaysGrowAndStop(a: nat, b: nat)
    requires a <= b
    ensures Delay(0) == 100 && (a < BACKOFF_CUTOFF ==> Delay(a + 1) == 2 * Delay(a))
    ensures BASE_DELAY_MS <= Delay(a) <= Delay(b) <= 25_600 < MAX_DELAY_MS
    ensures Delay(b) == 25_600 <==> b >= BACKOFF_CUTOFF
  {
    var x := if a < BACKOFF_CUTOFF then a else BACKOFF_CUTOFF;
    var y := if b < BACKOFF_CUTOFF then b else BACKOFF_CUTOFF;
    assert Shifted(8) == 256 by {
      assert Shifted(2) == 4;
      assert Shifted(4) == 4 * Shifted(2);
      assert Shifted(6) == 4 * Shifted(4);
      assert Shifted(8) == 4 * Shifted(6);
    }
    assert Shifted(7) == 128;
    assert Shifted(0) == 1;
    ShiftedGrows(0, x);
    ShiftedGrows(x, y);
    ShiftedGrows(y, 8);
    if y < 8 {
      ShiftedGrows(y, 7);
    }
  }

  lemma {:induction false} PushedAllBounded<T(!new)>(q: seq<T>, ds: seq<T>)
    requires |q| <= QUEUE_LIMIT
    ensures |PushedAll(q, ds)| <= QUEUE_LIMIT
    ensures forall d | d in PushedAll(q, ds) :: d in q || d in ds
    decreases |ds|
  {
    if ds != [] {
      PushedAllBounded(Pushed(q, ds[0]), ds[1..]);
    }
  }

  /** Pushing several keeps the last of them all, as many as the queue takes. */
  lemma {:induction false} PushedAllKeepsLast<T>(q: seq<T>, ds: seq<T>)
    requires |q| <= QUEUE_LIMIT
    ensures var all := q + ds; PushedAll(q, ds) == all[if |all| <= QUEUE_LIMIT then 0 else |all| - QUEUE_LIMIT..]
    decreases |ds|
  {
    if ds == [] {
      assert q + ds == q;
    } else {
      var q' := Pushed(q, ds[0]);
      PushedAllKeepsLast(q', ds[1..]);
      assert q + ds == (q + [ds[0]]) + ds[1..];
      if |q| >= QUEUE_LIMIT {
        assert q' + ds[1..] == (q + ds)[1..];
      }
    }
  }

  /** A push loses an element only when the queue is full, and then the oldest. */
  lemma PushLosesOldestOnly<T>(q: seq<T>, d: T)
    requires |q| <= QUEUE_LIMIT
    ensures |Pushed(q, d)| <= QUEUE_LIMIT && Pushed(q, d)[|Pushed(q, d)| - 1] == d
    ensures Pushed(q, d) == q + [d] || (|q| == QUEUE_LIMIT && [q[0]] + Pushed(q, d) == q + [d])
  {
    if |q| == QUEUE_LIMIT {
      assert [q[0]] + (q[1..] + [d]) == q + [d];
    }
  }

  lemma {:induction false} PushedAllAppend<T>(q: seq<T>, ds: seq<T>, d: T)
    ensures PushedAll(q, ds + [d]) == Pushed(PushedAll(q, ds), d)
    decreases |ds|
  {
    if ds == [] {
      assert [] + [d] == [d];
      assert PushedAll(Pushed(q, d), []) == Pushed(q, d);
      assert [d][1..] == [];
    } else {
      assert (ds + [d])[1..] == ds[1..] + [d];
      PushedAllAppend(Pushed(q, ds[0]), ds[1..], d);
    }
  }

  class CacheState {
    const limits: Limits
    var entries: Entries
    var currentBytes: nat
    var generations: map<Key, nat>
    var failedDeletions: seq<FailedDeletion>

    ghost predicate Valid()
      reads this
    {
      && 1 <= limits.capacity
      && Lru.Distinct(entries) && |entries| <= limits.capacity
      && (forall k | k in generations :: generations[k] < TWO_64)
      && |failedDeletions| <= QUEUE_LIMIT
    }

    ghost function Value(): Memory
      reads this
    {
      Memory(entries, currentBytes, generations)
    }

    constructor (limits: Limits, recovered: Entries, bytes: nat)
      requires 1 <= limits.capacity && Lru.Distinct(recovered) && |recovered| <= limits.capacity
      ensures Valid() && this.limits == limits
      ensures Value() == Memory(recovered, bytes, map[]) && failedDeletions == []
    {
      this.limits := limits;
      entries, currentBytes, generations, failedDeletions := recovered, bytes, map[], [];
    }

    /** `pop_lru`, with the byte count. */
    method PopLru() returns (gone: Entry)
      requires entries != []
      modifies this`entries, this`currentBytes
      ensures |old(entries)| == |entries| + 1 && entries == old(entries)[..|entries|]
      ensures gone == old(entries)[|entries|].1
      ensures currentBytes == SatSub(old(currentBytes), gone.size)
    {
      gone := entries[|entries| - 1].1;
      entries := entries[..|entries| - 1];
      currentBytes := SatSub(currentBytes, gone.size);
    }

    /** `pop`, with the byte count. */
    method Pop(key: Key) returns (popped: Option<Entry>)
      requires Valid()
      modifies this`entries, this`currentBytes
      ensures Valid() && popped == Lru.Find(old(entries), key)
      ensures entries == Lru.Without(old(entries), key)
      ensures currentBytes == PopBytes(old(Value()), key)
    {
      Lru.WithoutDistinct(entries, key);
      popped := Lru.Find(entries, key);
      entries := Lru.Without(entries, key);
      if popped.Some? {
        currentBytes := SatSub(currentBytes, popped.value.size);
      }
    }

    method EvictForEntry() returns (evicted: seq<FileName>)
      requires Valid()
      modifies this`entries, this`currentBytes
      ensures Valid() && |entries| < limits.capacity
      ensures (entries, currentBytes, evicted) == MakeRoom(old(entries), old(currentBytes), limits.capacity)
      ensures entries <= old(entries)
    {
      evicted := [];
      if |entries| >= limits.capacity {
        var gone := PopLru();
        evicted := [gone.path];
        Lru.PrefixDistinct(old(entries), |entries|);
      }
    }

    /** Pops from the end, and no further than the byte count demands: see `EvictOverMeans`. */
    method EvictForBytes() returns (evicted: seq<FileName>)
      requires Valid()
      modifies this`entries, this`currentBytes
      ensures Valid()
      ensures (entries, currentBytes, evicted) == EvictOver(old(entries), old(currentBytes), limits.maxBytes)
    {
      evicted := [];
      ghost var all := EvictOver(entries, currentBytes, limits.maxBytes);
      while currentBytes > limits.maxBytes && entries != []
        invariant Valid()
        invariant var r := EvictOver(entries, currentBytes, limits.maxBytes);
          && r.0 == all.0 && r.1 == all.1 && evicted + r.2 == all.2
        decreases |entries|
      {
        ghost var l, so := entries, evicted;
        var gone := PopLru();
        evicted := evicted + [gone.path];
        Lru.PrefixDistinct(l, |entries|);
        ghost var r := EvictOver(entries, currentBytes, limits.maxBytes);
        assert so + ([gone.path] + r.2) == evicted + r.2;
      }
      assert evicted + [] == evicted;
    }

    /** The state-locked block of `publish`. */
    method InsertPublished(key: Key, entry: Entry, guard: Guard)
      returns (superseded: seq<FileName>, evicted: seq<FileName>)
      requires Valid()
      modifies this`entries, this`currentBytes, this`generations
      ensures Valid()
      ensures (Value(), superseded, evicted) == Insert(old(Value()), limits, key, entry, guard)
    {
      superseded := [];
      if guard.Unconditional? {
        generations := Bump(generations, key);
      }
      var popped := Pop(key);
      if popped.Some? && popped.value.path != entry.path {
        superseded := [popped.value.path];
      }
      ghost var w := entries;
      evicted := EvictForEntry();
      assert Lru.Find(entries, key).None? by {
        forall i | 0 <= i < |entries| ensures entries[i].0 != key {
          assert w[i] in w;
        }
      }
      Lru.ConsDistinct(entries, key, entry);
      entries := Lru.Put(entries, limits.capacity, key, entry);
      currentBytes := SatAdd(currentBytes, entry.size);
      var more := EvictForBytes();
      evicted := evicted + more;
    }

    /** The state-locked block of `remove`, `remove_if_generation` and `remove_if_matches`. */
    method RemoveWhen(key: Key, condition: Condition) returns (removed: seq<FileName>)
      requires Valid()
      modifies this`entries, this`currentBytes, this`generations
      ensures Valid()
      ensures (Value(), removed) ==
        if Holds(old(Value()), key, condition) then Remove(old(Value()), key) else (old(Value()), [])
      ensures
        var generation := if key in old(generations) then old(generations)[key] else 0;
        var met :=
          && (condition.AtGeneration? ==> generation == condition.expected)
          && (condition.Matching? ==>
                exists p :: p in old(entries) && p.0 == key && p.1.path == condition.entry.path && p.1.digest == condition.entry.digest);
        if met then
          && generations == old(generations)[key := (generation + 1) % TWO_64]
          && (forall p :: p in entries <==> p in old(entries) && p.0 != key)
          && (forall p | p in old(entries) && p.0 == key :: removed == [p.1.path])
          && ((forall p | p in old(entries) :: p.0 != key) ==> entries == old(entries) && removed == [])
        else Value() == old(Value()) && removed == []
    {
      ConditionMeans(Value(), key, condition);
      Lru.WithoutDistinct(entries, key);
      hide PopBytes;
      if Lru.Find(entries, key).Some? {
        assert (key, Lru.Find(entries, key).value) in entries;
      }
      forall p | p in entries && p.0 == key ensures Lru.Find(entries, key) == Some(p.1) {
        assert p == (key, p.1);
        Lru.FindIn(entries, key, p.1);
      }
      removed := [];
      var now := Lru.Find(entries, key);
      var matches :=
        match condition
        case Always => true
        case AtGeneration(g) => Generation(generations, key) == g
        case Matching(e) => now.Some? && now.value.path == e.path && now.value.digest == e.digest;
      if !matches {
        return;
      }
      generations := Bump(generations, key);
      var popped := Pop(key);
      if popped.Some? {
        removed := [popped.value.path];
      }
    }

    /** The state-locked block of `get`. */
    method Get(key: Key) returns (r: Option<Entry>)
      requires Valid()
      modifies this`entries
      ensures Valid()
      ensures entries == Lru.Promote(old(entries), key) && r == Lru.Find(old(entries), key)
      ensures r == Lru.Find(entries, key)
      ensures r.Some? ==> entries != [] && entries[0] == (key, r.value)
      ensures r.Some? ==> exists i | 0 <= i < |old(entries)| ::
        old(entries)[i] == (key, r.value) && entries == [old(entries)[i]] + old(entries)[..i] + old(entries)[i + 1..]
      ensures r.None? ==> entries == old(entries) && forall i | 0 <= i < |entries| :: entries[i].0 != key
    {
      Lru.PromoteKeeps(entries, key);
      if Lru.Find(entries, key).Some? {
        ghost var i :| 0 <= i < |entries| && entries[i] == (key, Lru.Find(entries, key).value);
        Lru.PromoteMoves(entries, key, i);
      }
      r := Lru.Find(entries, key);
      entries := Lru.Promote(entries, key);
    }

    method PushFailedDeletion(d: FailedDeletion)
      requires Valid()
      modifies this`failedDeletions
      ensures Valid() && failedDeletions == Pushed(old(failedDeletions), d)
      ensures failedDeletions == old(failedDeletions)[if |old(failedDeletions)| < QUEUE_LIMIT then 0 else 1..] + [d]
    {
      if |failedDeletions| >= QUEUE_LIMIT {
        failedDeletions := failedDeletions[1..];
      }
      failedDeletions := failedDeletions + [d];
    }

    /** `enqueue_failed_deletion`: a first failure is due again after the base delay. */
    method EnqueueFailedDeletion(path: FileName, now: nat)
      requires Valid()
      modifies this`failedDeletions
      ensures Valid()
      ensures failedDeletions ==
        old(failedDeletions)[if |old(failedDeletions)| < QUEUE_LIMIT then 0 else 1..] + [FailedDeletion(path, 0, now + 100)]
    {
      PushFailedDeletion(FailedDeletion(path, 0, now + BASE_DELAY_MS));
    }

    /** The due deletions are a first-in-first-out prefix of ready ones, at most 64, and as long as that allows. */
    method DrainDue(now: nat) returns (due: seq<FailedDeletion>)
      requires Valid()
      modifies this`failedDeletions
      ensures Valid()
      ensures old(failedDeletions) == due + failedDeletions
      ensures |due| <= RETRIES_PER_TICK && forall d | d in due :: d.nextRetry <= now
      ensures failedDeletions == [] || |due| == RETRIES_PER_TICK || failedDeletions[0].nextRetry > now
    {
      due := [];
      while failedDeletions != []
        invariant old(failedDeletions) == due + failedDeletions
        invariant |due| <= RETRIES_PER_TICK && forall d | d in due :: Ready(d, now)
        decreases |failedDeletions|
      {
        var front := failedDeletions[0];
        if !Ready(front, now) || |due| >= RETRIES_PER_TICK {
          break;
        }
        failedDeletions := failedDeletions[1..];
        due := due + [front];
      }
    }

    /**
     `retry_failed_deletions`: every due deletion is tried once; those that fail return to the back of the queue, in
     their order (`indices`), one attempt older and due after the delay of that attempt; nothing but due paths leaves
     the disk.
     */
    method RetryFailedDeletions(disk: Disk, now: nat)
      returns (due: seq<FailedDeletion>, pending: seq<FailedDeletion>, ghost indices: seq<nat>)
      requires Valid()
      modifies this`failedDeletions, disk
      ensures Valid()
      ensures due <= old(failedDeletions) && |due| <= RETRIES_PER_TICK && forall d | d in due :: d.nextRetry <= now
      ensures |due| == RETRIES_PER_TICK || |due| == |old(failedDeletions)| || old(failedDeletions)[|due|].nextRetry > now
      ensures var all := old(failedDeletions)[|due|..] + pending;
        failedDeletions == all[if |all| <= QUEUE_LIMIT then 0 else |all| - QUEUE_LIMIT..]
      ensures |pending| == |indices| == disk.failures - old(disk.failures)
      ensures forall i | 0 <= i < |indices| :: indices[i] < |due| && Aged(due[indices[i]], pending[i], now)
      ensures forall i, j | 0 <= i < j < |indices| :: indices[i] < indices[j]
      ensures forall n | 0 <= n < |due| && n !in indices :: due[n].path !in disk.files
      ensures forall f :: f in disk.files ==> f in old(disk.files) && disk.files[f] == old(disk.files)[f]
      ensures forall f | f in old(disk.files) && f !in disk.files :: exists d :: d in due && d.path == f
    {
      due := DrainDue(now);
      ghost var rest := failedDeletions;
      assert rest == old(failedDeletions)[|due|..];
      pending, indices := TryDeletions(disk, due, now);
      hide Aged;
      PushedAllBounded(rest, pending);
      for i := 0 to |pending|
        invariant Valid() && failedDeletions == PushedAll(rest, pending[..i])
        modifies this`failedDeletions
      {
        assert pending[..i + 1] == pending[..i] + [pending[i]];
        PushedAllAppend(rest, pending[..i], pending[i]);
        PushFailedDeletion(pending[i]);
      }
      assert pending[..|pending|] == pending;
      PushedAllKeepsLast(rest, pending);
    }
  }

  /** The same path, one attempt older, and due after the delay of that attempt. */
  predicate Aged(d: FailedDeletion, after: FailedDeletion, now: nat) {
    && after.path == d.path
    && after.attempts == (if d.attempts + 1 < TWO_32 then d.attempts + 1 else TWO_32 - 1)
    && after.nextRetry == now + Delay(after.attempts)
  }

  /** One attempt each; `indices` says which of them failed. */
  method TryDeletions(disk: Disk, due: seq<FailedDeletion>, now: nat)
    returns (pending: seq<FailedDeletion>, ghost indices: seq<nat>)
    modifies disk
    ensures |pending| == |indices| == disk.failures - old(disk.failures)
    ensures forall i | 0 <= i < |indices| :: indices[i] < |due| && Aged(due[indices[i]], pending[i], now)
    ensures forall i, j | 0 <= i < j < |indices| :: indices[i] < indices[j]
    ensures forall n | 0 <= n < |due| && n !in indices :: due[n].path !in disk.files
    ensures forall f :: f in disk.files ==> f in old(disk.files) && disk.files[f] == old(disk.files)[f]
    ensures forall f | f in old(disk.files) && f !in disk.files :: exists d :: d in due && d.path == f
  {
    pending, indices := [], [];
    for i := 0 to |due|
      invariant |pending| == |indices| == disk.failures - old(disk.failures)
      invariant forall k | 0 <= k < |indices| :: indices[k] < i && Aged(due[indices[k]], pending[k], now)
      invariant forall j, k | 0 <= j < k < |indices| :: indices[j] < indices[k]
      invariant forall n | 0 <= n < i && n !in indices :: due[n].path !in disk.files
      invariant forall f :: f in disk.files ==> f in old(disk.files) && disk.files[f] == old(disk.files)[f]
      invariant forall f | f in old(disk.files) && f !in disk.files :: exists d :: d in due && d.path == f
    {
      assert due[i] in due;
      var ok := disk.TryRemove(due[i].path);
      if !ok {
        pending, indices := pending + [Backoff(due[i], now)], indices + [i];
      }
    }
  }

  /** The three conditions of a removal, on the pairs and the counters. */
  lemma ConditionMeans(m: Memory, key: Key, c: Condition)
    requires Lru.Distinct(m.entries)
    ensures Holds(m, key, c) <==>
      && (c.AtGeneration? ==> (if key in m.generations then m.generations[key] else 0) == c.expected)
      && (c.Matching? ==> exists p :: p in m.entries && p.0 == key && p.1.path == c.entry.path && p.1.digest == c.entry.digest)
  {
    if c.Matching? {
      forall p | p in m.entries && p.0 == key ensures Lru.Find(m.entries, key) == Some(p.1) {
        assert p == (key, p.1);
        Lru.FindIn(m.entries, key, p.1);
      }
      if Lru.Find(m.entries, key).Some? {
        assert (key, Lru.Find(m.entries, key).value) in m.entries;
      }
    }
  }
}
