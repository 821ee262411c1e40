/**
 The tables of per-key locks: a lock is made on first use, shared by reference count, and pruned from a table that
 has grown large when nobody else refers to it.
 */
module LockTables {
  import opened Basics

  type Key = string
  type Lock = nat
  type Handle = nat

  /**
   `strong` are the reference counts: one for the table, and one for every handle. The capacity above which a
   table is pruned is 4096 for the cache and staging locks, 1024 for the manifest locks.
   */
  datatype Table = Table(capacity: nat, locks: map<Key, Lock>, strong: map<Lock, nat>, next: Lock)

  function Count(strong: map<Lock, nat>, l: Lock): nat {
    if l in strong then strong[l] else 0
  }

  /** The locks under these keys that only the table refers to. */
  function Unused(t: Table, keys: set<Key>): set<Lock> {
    set k | k in keys && k in t.locks && Count(t.strong, t.locks[k]) <= 1 :: t.locks[k]
  }

  /** A pass over these keys of the table, which drops the table's reference to such locks. */
  function Swept(t: Table, keys: set<Key>): Table {
    var kept := map k | k in t.locks && !(k in keys && Count(t.strong, t.locks[k]) <= 1) :: t.locks[k];
    t.(locks := kept, strong := t.strong - Unused(t, keys))
  }

  /** `retain(|_, lock| strong_count(lock) > 1)` */
  function Retained(t: Table): Table {
    Swept(t, t.locks.Keys)
  }

  function Pruned(t: Table): Table {
    if |t.locks| > t.capacity then Retained(t) else t
  }

  /** `entry(key).or_insert_with(..).clone()` */
  function Referred(t: Table, key: Key): (Table, Lock) {
    if key in t.locks then (t.(strong := t.strong[t.locks[key] := Count(t.strong, t.locks[key]) + 1]), t.locks[key])
    else (Table(t.capacity, t.locks[key := t.next], t.strong[t.next := 2], t.next + 1), t.next)
  }

  function LookedUp(t: Table, key: Key): (Table, Lock) {
    Referred(Pruned(t), key)
  }

  /** A lookup leaves this lock: the table is within its capacity, or the lock is in use. */
  predicate Stays(t: Table, k: Key)
    requires k in t.locks
  {
    |t.locks| <= t.capacity || Count(t.strong, t.locks[k]) > 1
  }

  /** No two keys share a lock. */
  ghost predicate SingleUse(locks: map<Key, Lock>) {
    forall j, k | j in locks && k in locks && j != k :: locks[j] != locks[k]
  }

  /** One key of the pass: the count is read, and the table's reference dropped if it is the only one. */
  function SweptKey(t: Table, key: Key): Table {
    if key in t.locks && Count(t.strong, t.locks[key]) <= 1 then
      t.(locks := t.locks - {key}, strong := t.strong - {t.locks[key]})
    else t
  }

  lemma SweepNothing(t: Table)
    ensures Swept(t, {}) == t
  {
    assert Unused(t, {}) == {};
    assert Swept(t, {}).locks == t.locks;
  }

  lemma SweepOne(t: Table, keys: set<Key>, key: Key)
    requires SingleUse(t.locks) && keys <= t.locks.Keys && key in t.locks && key !in keys
    ensures var s := Swept(t, keys);
      && key in s.locks && s.locks[key] == t.locks[key] && Count(s.strong, t.locks[key]) == Count(t.strong, t.locks[key])
      && Swept(t, keys + {key}) == SweptKey(s, key)
  {
    var s := Swept(t, keys);
    assert t.locks[key] !in Unused(t, keys);
    if Count(t.strong, t.locks[key]) <= 1 {
      assert Unused(t, keys + {key}) == Unused(t, keys) + {t.locks[key]};
      assert Swept(t, keys + {key}).locks == s.locks - {key};
      assert Swept(t, keys + {key}).strong == s.strong - {t.locks[key]};
    } else {
      assert Unused(t, keys + {key}) == Unused(t, keys);
      assert Swept(t, keys + {key}).locks == s.locks;
    }
  }

  /** What a lookup leaves, on the maps themselves: the locks that stay, and that of the key, one reference more. */
  lemma LookedUpMeans(t: Table, key: Key)
    ensures var (z, lock) := LookedUp(t, key);
      && key in z.locks && z.locks[key] == lock
      && (if key in t.locks && Stays(t, key) then lock == t.locks[key] && Count(z.strong, lock) == Count(t.strong, lock) + 1
          else lock == t.next && Count(z.strong, lock) == 2)
      && (forall k | k != key :: k in z.locks <==> k in t.locks && Stays(t, k))
      && (forall k | k != key && k in z.locks :: z.locks[k] == t.locks[k])
  {
    StaysCounted(t, key);
  }

  lemma StaysCounted(t: Table, key: Key)
    ensures key in t.locks && Stays(t, key) ==> Count(Pruned(t).strong, t.locks[key]) == Count(t.strong, t.locks[key])
  {
    if |t.locks| > t.capacity {
      assert forall k | k in t.locks && t.locks[k] in Unused(t, t.locks.Keys) :: Count(t.strong, t.locks[k]) <= 1;
    }
  }

  /** The table as an object, as the source mutates it under its own lock. */
  class LockTable {
    const capacity: nat
    var locks: map<Key, Lock>
    var strong: map<Lock, nat>
    var next: Lock

    ghost function Value(): Table
      reads this
    {
      Table(capacity, locks, strong, next)
    }

    constructor (capacity: nat)
      ensures Value() == Table(capacity, map[], map[], 0)
    {
      this.capacity := capacity;
      locks, strong, next := map[], map[], 0;
    }

    method Retain()
      requires SingleUse(locks)
      modifies this`locks, this`strong
      ensures Value() == Retained(old(Value()))
    {
      ghost var before := Value();
      var todo := locks.Keys;
      SweepNothing(before);
      hide Swept;
      hide Count;
      assert before.locks.Keys - todo == {};
      while todo != {}
        invariant todo <= before.locks.Keys
        invariant Value() == Swept(before, before.locks.Keys - todo)
        decreases |todo|
      {
        var key :| key in todo;
        ghost var swept := before.locks.Keys - todo;
        assert before.locks.Keys - (todo - {key}) == swept + {key};
        SweepOne(before, swept, key);
        var lock := locks[key];
        if Count(strong, lock) <= 1 {
          locks := locks - {key};
          strong := strong - {lock};
        }
        todo := todo - {key};
        assert Value() == Swept(before, swept + {key});
      }
      assert before.locks.Keys - {} == before.locks.Keys;
    }

    method Lookup(key: Key) returns (lock: Lock)
      requires SingleUse(locks)
      modifies this
      ensures (Value(), lock) == LookedUp(old(Value()), key)
      ensures key in locks && locks[key] == lock
      ensures key in old(locks) && Stays(old(Value()), key) ==>
        lock == old(locks)[key] && Count(strong, lock) == Count(old(strong), lock) + 1
      ensures !(key in old(locks) && Stays(old(Value()), key)) ==>
        lock == old(next) && Count(strong, lock) == 2
      ensures forall k | k != key :: k in locks <==> k in old(locks) && Stays(old(Value()), k)
      ensures forall k | k != key && k in locks :: locks[k] == old(locks)[k]
    {
      ghost var before := Value();
      if |locks| > capacity {
        Retain();
      }
      ghost var pruned := Value();
      if key !in locks {
        locks, strong, next := locks[key := next], strong[next := 1], next + 1;
      }
      lock := locks[key];
      strong := strong[lock := Count(strong, lock) + 1];
      assert key !in pruned.locks ==> strong == pruned.strong[pruned.next := 2];
      assert (Value(), lock) == LookedUp(before, key);
      hide LookedUp;
      LookedUpMeans(before, key);
    }
  }

  // ---- Lookups, clones, drops and critical sections, interleaved ----

  datatype Reference = Reference(key: Key, lock: Lock)

  /**
   A lookup under way, which holds the lock of the table itself. `todo` are the keys whose counts it has still to read;
   `kept` is history: those it found in use.
   */
  datatype Pass = Pass(handle: Handle, key: Key, pruning: bool, todo: set<Key>, kept: set<Key>)

  /** `owners` says which handle holds which lock. */
  datatype State = State(table: Table, handles: map<Handle, Reference>, owners: map<Lock, Handle>, pass: Option<Pass>)

  /** A lookup takes one step to begin, one for every count it reads, in any order, and one to end. */
  datatype Action =
    | Begin(h: Handle, key: Key)
    | Sweep(key: Key)
    | End
    | Clone(h: Handle, from: Handle)
    | Drop(h: Handle)
    | Acquire(h: Handle)
    | Release(h: Handle)

  predicate Free(s: State, h: Handle) {
    h !in s.handles && (s.pass.Some? ==> s.pass.value.handle != h)
  }

  /** Clones and drops do not take the lock of the table. A guard borrows its handle, so a handle is dropped after its guard. */
  predicate Enabled(s: State, a: Action) {
    match a
    case Begin(h, _) => s.pass.None? && h !in s.handles
    case Sweep(key) => s.pass.Some? && key in s.pass.value.todo
    case End => s.pass.Some? && s.pass.value.todo == {}
    case Clone(h, from) => Free(s, h) && from in s.handles
    case Drop(h) => h in s.handles && !Holding(s, h)
    case Acquire(h) => h in s.handles && s.handles[h].lock !in s.owners
    case Release(h) => Holding(s, h)
  }

  /** The handle is inside the critical section of its lock. */
  predicate Holding(s: State, h: Handle) {
    h in s.handles && s.handles[h].lock in s.owners && s.owners[s.handles[h].lock] == h
  }

  function Step(s: State, a: Action): State
    requires Enabled(s, a)
  {
    match a
    case Begin(h, key) =>
      var pruning := |s.table.locks| > s.table.capacity;
      s.(pass := Some(Pass(h, key, pruning, if pruning then s.table.locks.Keys else {}, {})))
    case Sweep(key) =>
      var p, t := s.pass.value, SweptKey(s.table, key);
      s.(table := t, pass := Some(p.(todo := p.todo - {key}, kept := if key in t.locks then p.kept + {key} else p.kept)))
    case End =>
      var p := s.pass.value;
      var (t, l) := Referred(s.table, p.key);
      s.(table := t, handles := s.handles[p.handle := Reference(p.key, l)], pass := None)
    case Clone(h, from) =>
      var r := s.handles[from];
      s.(table := s.table.(strong := s.table.strong[r.lock := Count(s.table.strong, r.lock) + 1]), handles := s.handles[h := r])
    case Drop(h) =>
      var l := s.handles[h].lock;
      s.(table := s.table.(strong := s.table.strong[l := SatSub(Count(s.table.strong, l), 1)]), handles := s.handles - {h})
    case Acquire(h) => s.(owners := s.owners[s.handles[h].lock := h])
    case Release(h) => s.(owners := s.owners - {s.handles[h].lock})
  }

  function HandlesOf(s: State, l: Lock): set<Handle> {
    set h | h in s.handles && s.handles[h].lock == l
  }

  ghost predicate Distinct(t: Table) {
    && SingleUse(t.locks)
    && (forall k | k in t.locks :: t.locks[k] < t.next)
  }

  /** The count of a lock in the table is one more than the handles of it. */
  ghost predicate Counted(s: State) {
    forall k | k in s.table.locks :: Count(s.table.strong, s.table.locks[k]) == 1 + |HandlesOf(s, s.table.locks[k])|
  }

  /** Every handle of a key is of the one lock the table has for it. */
  ghost predicate Current(s: State) {
    forall h | h in s.handles :: s.handles[h].key in s.table.locks && s.table.locks[s.handles[h].key] == s.handles[h].lock
  }

  /** A pass that prunes has dropped what it read and did not find in use. */
  ghost predicate PassOk(s: State) {
    s.pass.Some? ==>
      && s.pass.value.handle !in s.handles
      && (s.pass.value.pruning ==> s.table.locks.Keys <= s.pass.value.todo + s.pass.value.kept)
  }

  ghost predicate Inv(s: State) {
    && Distinct(s.table) && Counted(s) && Current(s) && PassOk(s)
    && (forall l | l in s.owners :: s.owners[l] in s.handles && s.handles[s.owners[l]].lock == l)
  }

  ghost predicate HasHandle(s: State, k: Key) {
    exists h :: h in s.handles && s.handles[h].key == k
  }

  /** One reading of a count drops the lock exactly when nobody has a handle of it at that moment. */
  lemma SweepDropsIff(s: State, key: Key)
    requires Inv(s) && key in s.table.locks
    ensures key in SweptKey(s.table, key).locks <==> HasHandle(s, key)
  {
    var l := s.table.locks[key];
    if HasHandle(s, key) {
      var h :| h in s.handles && s.handles[h].key == key;
      assert h in HandlesOf(s, l);
    } else {
      forall h | h in s.handles ensures s.handles[h].lock != l {
        assert s.handles[h].key != key;
      }
      assert HandlesOf(s, l) == {};
    }
  }

  /** So a pass keeps, of the keys it reads, precisely those that somebody has a handle of when it reads them. */
  lemma SweepKeepsIff(s: State, key: Key)
    requires Inv(s) && Enabled(s, Sweep(key)) && key in s.table.locks
    ensures var p, p' := s.pass.value, Step(s, Sweep(key)).pass;
      p'.Some? && p'.value == p.(todo := p.todo - {key}, kept := p.kept + if HasHandle(s, key) then {key} else {})
  {
    SweepDropsIff(s, key);
    hide Inv;
    hide SweptKey;
  }

  /** A table without one of its locks, of which nobody has a handle. */
  lemma SweptCounted(s: State, z: State, key: Key)
    requires Distinct(s.table) && Counted(s) && z.table == SweptKey(s.table, key) && z.handles == s.handles
    ensures Distinct(z.table) && Counted(z)
  {
    forall k | k in z.table.locks ensures Count(z.table.strong, z.table.locks[k]) == 1 + |HandlesOf(z, z.table.locks[k])| {
      assert HandlesOf(z, z.table.locks[k]) == HandlesOf(s, s.table.locks[k]);
    }
  }

  lemma SweptCurrent(s: State, z: State, key: Key)
    requires Inv(s) && z.table == SweptKey(s.table, key) && z.handles == s.handles
    ensures Current(z)
  {
    forall h | h in s.handles ensures s.handles[h].key in z.table.locks && z.table.locks[s.handles[h].key] == s.handles[h].lock {
      if s.handles[h].key == key {
        UsedHasHandle(s, h);
        SweepDropsIff(s, key);
      }
    }
  }

  /** So a pass, whatever clones and drops come between its readings, drops no lock that anybody has a handle of. */
  lemma PruneKeeps(s: State, key: Key)
    requires Inv(s) && Enabled(s, Sweep(key))
    ensures Inv(Step(s, Sweep(key)))
  {
    var z := Step(s, Sweep(key));
    SweptCounted(s, z, key);
    SweptCurrent(s, z, key);
    hide Distinct;
    hide Counted;
    hide Current;
    hide Count;
  }

  lemma UsedHasHandle(s: State, h: Handle)
    requires h in s.handles
    ensures HasHandle(s, s.handles[h].key)
  {
  }

  /** What the handles of the locks become when `h` takes or gives up a reference to `l`. */
  lemma HandlesAfter(s: State, z: State, h: Handle, l: Lock)
    requires h !in s.handles && h in z.handles && z.handles - {h} == s.handles && z.handles[h].lock == l
    ensures |HandlesOf(z, l)| == |HandlesOf(s, l)| + 1
    ensures forall m | m != l :: HandlesOf(z, m) == HandlesOf(s, m)
  {
    assert forall g | g in z.handles && g != h :: g in s.handles && z.handles[g] == s.handles[g] by {
      assert forall g | g in z.handles && g != h :: g in z.handles - {h};
    }
    assert forall g | g in s.handles :: g in z.handles && z.handles[g] == s.handles[g] by {
      assert forall g | g in s.handles :: g in z.handles - {h};
    }
    assert HandlesOf(z, l) == HandlesOf(s, l) + {h};
  }

  lemma ReferDistinct(t: Table, key: Key)
    requires Distinct(t)
    ensures Distinct(Referred(t, key).0) && key in Referred(t, key).0.locks && Referred(t, key).0.locks[key] == Referred(t, key).1
    ensures forall k | k in t.locks :: k in Referred(t, key).0.locks && Referred(t, key).0.locks[k] == t.locks[k]
    ensures forall k | k in Referred(t, key).0.locks && k != key :: k in t.locks && t.locks[k] != Referred(t, key).1
    ensures forall m | m != Referred(t, key).1 :: Count(Referred(t, key).0.strong, m) == Count(t.strong, m)
    ensures key in t.locks ==> Count(Referred(t, key).0.strong, Referred(t, key).1) == Count(t.strong, t.locks[key]) + 1
    ensures key !in t.locks ==> Referred(t, key).1 == t.next && Count(Referred(t, key).0.strong, t.next) == 2
  {
  }

  lemma NewLockIsUnused(s: State)
    requires Distinct(s.table) && Current(s)
    ensures HandlesOf(s, s.table.next) == {}
  {
    assert forall g | g in s.handles :: s.handles[g].lock < s.table.next;
  }

  lemma ReferCounted(s: State, z: State, h: Handle, key: Key)
    requires Distinct(s.table) && Counted(s) && Current(s) && h !in s.handles
    requires z.table == Referred(s.table, key).0 && z.handles == s.handles[h := Reference(key, Referred(s.table, key).1)]
    ensures Counted(z)
  {
    hide Referred;
    hide HandlesOf;
    hide Distinct;
    hide Current;
    hide Count;
    ReferDistinct(s.table, key);
    NewLockIsUnused(s);
    var l := Referred(s.table, key).1;
    assert z.handles - {h} == s.handles;
    HandlesAfter(s, z, h, l);
    forall k | k in z.table.locks ensures Count(z.table.strong, z.table.locks[k]) == 1 + |HandlesOf(z, z.table.locks[k])| {
      assert k != key ==> k in s.table.locks && z.table.locks[k] == s.table.locks[k] != l;
    }
  }

  lemma ReferKeeps(s: State, h: Handle, key: Key, pass: Option<Pass>)
    requires Inv(s) && h !in s.handles
    ensures var (t, l) := Referred(s.table, key);
      var z := s.(table := t, handles := s.handles[h := Reference(key, l)], pass := pass);
      PassOk(z) ==> Inv(z)
  {
    hide Referred;
    hide Counted;
    hide Distinct;
    hide PassOk;
    ReferDistinct(s.table, key);
    var (t, l) := Referred(s.table, key);
    ReferCounted(s, s.(table := t, handles := s.handles[h := Reference(key, l)], pass := pass), h, key);
  }

  lemma CloneKeeps(s: State, h: Handle, from: Handle)
    requires Inv(s) && Enabled(s, Clone(h, from))
    ensures Inv(Step(s, Clone(h, from)))
  {
    ReferKeeps(s, h, s.handles[from].key, s.pass);
    hide Counted;
    hide Distinct;
  }

  lemma DropCounted(s: State, h: Handle)
    requires Inv(s) && Enabled(s, Drop(h))
    ensures Counted(Step(s, Drop(h)))
  {
    var z := Step(s, Drop(h));
    HandlesAfter(z, s, h, s.handles[h].lock);
    hide HandlesOf;
    hide PassOk;
    forall k | k in z.table.locks ensures Count(z.table.strong, z.table.locks[k]) == 1 + |HandlesOf(z, z.table.locks[k])| {
      assert k in s.table.locks;
    }
  }

  /** The other handles and the owners are as before. */
  lemma DropKeepsOthers(s: State, z: State, h: Handle)
    requires Inv(s) && h in s.handles && !Holding(s, h)
    requires z.table.locks == s.table.locks && z.table.next == s.table.next && z.handles == s.handles - {h}
    requires z.owners == s.owners && z.pass == s.pass
    ensures Distinct(z.table) && Current(z) && PassOk(z)
    ensures forall l | l in z.owners :: z.owners[l] in z.handles && z.handles[z.owners[l]].lock == l
  {
    hide Counted;
    hide SingleUse;
    assert forall g | g in z.handles :: g in s.handles && z.handles[g] == s.handles[g];
  }

  lemma DropKeeps(s: State, h: Handle)
    requires Inv(s) && Enabled(s, Drop(h))
    ensures Inv(Step(s, Drop(h)))
  {
    DropCounted(s, h);
    DropKeepsOthers(s, Step(s, Drop(h)), h);
    hide Counted;
    hide Distinct;
    hide Current;
    hide PassOk;
  }

  lemma SameHandlesCounted(s: State, z: State)
    requires Counted(s) && z.table == s.table && z.handles == s.handles
    ensures Counted(z)
  {
    forall k | k in z.table.locks ensures Count(z.table.strong, z.table.locks[k]) == 1 + |HandlesOf(z, z.table.locks[k])| {
      assert HandlesOf(z, z.table.locks[k]) == HandlesOf(s, z.table.locks[k]);
    }
  }

  lemma OwnerKeeps(s: State, a: Action)
    requires Inv(s) && Enabled(s, a) && (a.Acquire? || a.Release? || a.Begin?)
    ensures Inv(Step(s, a))
  {
    hide Counted;
    hide Count;
    hide SingleUse;
    hide SweptKey;
    hide Referred;
    var z := Step(s, a);
    assert z.table == s.table && z.handles == s.handles;
    SameHandlesCounted(s, z);
  }

  lemma StepKeepsInv(s: State, a: Action)
    requires Inv(s) && Enabled(s, a)
    ensures Inv(Step(s, a))
  {
    match a
    case Sweep(key) =>
      hide Inv;
      PruneKeeps(s, key);
    case End =>
      var p := s.pass.value;
      assert p.handle !in s.handles;
      hide Inv;
      ReferKeeps(s, p.handle, p.key, None);
    case Clone(h, from) =>
      hide Inv;
      CloneKeeps(s, h, from);
    case Drop(h) =>
      hide Inv;
      DropKeeps(s, h);
    case _ =>
      hide Inv;
      OwnerKeeps(s, a);
  }

  predicate Possible(s: State, run: seq<Action>)
    decreases |run|
  {
    run == [] || (Enabled(s, run[0]) && Possible(Step(s, run[0]), run[1..]))
  }

  function Run(s: State, run: seq<Action>): State
    requires Possible(s, run)
    decreases |run|
  {
    if run == [] then s else Run(Step(s, run[0]), run[1..])
  }

  function Empty(capacity: nat): State {
    State(Table(capacity, map[], map[], 0), map[], map[], None)
  }

  lemma {:induction false} RunKeepsInv(s: State, run: seq<Action>)
    requires Inv(s) && Possible(s, run)
    ensures Inv(Run(s, run))
    decreases |run|
  {
    hide Inv;
    hide Step;
    hide Enabled;
    if run != [] {
      StepKeepsInv(s, run[0]);
      RunKeepsInv(Step(s, run[0]), run[1..]);
    }
  }

  /**
   In every interleaving, whatever was pruned meanwhile: all handles of a key are of the one lock in the table, and
   so no two of them are inside its critical section. Handles of different keys never block each other.
   */
  lemma OneAtATime(capacity: nat, run: seq<Action>, g: Handle, h: Handle)
    requires Possible(Empty(capacity), run)
    ensures var z := Run(Empty(capacity), run);
      g in z.handles && h in z.handles ==>
        && z.handles[g].key in z.table.locks && z.table.locks[z.handles[g].key] == z.handles[g].lock
        && (z.handles[g].key == z.handles[h].key <==> z.handles[g].lock == z.handles[h].lock)
        && (z.handles[g].key == z.handles[h].key && Holding(z, g) && Holding(z, h) ==> g == h)
  {
    RunKeepsInv(Empty(capacity), run);
  }

  /** A handle gets into its critical section precisely when no handle of its key is inside: other keys never hold it up. */
  lemma EntersIff(capacity: nat, run: seq<Action>, h: Handle)
    requires Possible(Empty(capacity), run)
    ensures var z := Run(Empty(capacity), run);
      Enabled(z, Acquire(h)) <==>
        h in z.handles && !exists g :: g in z.handles && z.handles[g].key == z.handles[h].key && Holding(z, g)
  {
    RunKeepsInv(Empty(capacity), run);
    var z := Run(Empty(capacity), run);
    hide Run;
    hide Possible;
    EntersWhenFree(z, h);
  }

  lemma EntersWhenFree(z: State, h: Handle)
    requires Inv(z)
    ensures Enabled(z, Acquire(h)) <==>
      h in z.handles && !exists g :: g in z.handles && z.handles[g].key == z.handles[h].key && Holding(z, g)
  {
    hide Counted;
    hide PassOk;
    if h in z.handles && z.handles[h].lock in z.owners {
      var g := z.owners[z.handles[h].lock];
      assert z.handles[g].lock == z.handles[h].lock && Holding(z, g);
      assert z.handles[g].key == z.handles[h].key;
    }
  }

  /** Entering, leaving, cloning and dropping do as they say: only a release lets the others of its key in. */
  lemma HandlesAct(s: State, h: Handle, g: Handle)
    requires Inv(s) && h in s.handles
    ensures Enabled(s, Acquire(h)) ==> Holding(Step(s, Acquire(h)), h)
    ensures Holding(s, h) && g in s.handles && s.handles[g].key == s.handles[h].key ==> Enabled(Step(s, Release(h)), Acquire(g))
    ensures Free(s, g) ==> Enabled(s, Clone(g, h)) && var z := Step(s, Clone(g, h)); g in z.handles && z.handles[g] == s.handles[h]
    ensures !Holding(s, h) ==> Enabled(s, Drop(h)) && h !in Step(s, Drop(h)).handles
  {
    hide Counted;
    hide PassOk;
  }

  /**
   A lookup that prunes leaves the locks it found in use when it read their counts, and the one looked up; one that
   does not adds at most one lock to a table within its capacity, whatever comes between its steps.
   */
  lemma TableStaysSmall(s: State)
    requires Inv(s) && Enabled(s, End)
    ensures var z, p := Step(s, End), s.pass.value;
      && (p.pruning ==> z.table.locks.Keys <= p.kept + {p.key})
      && |z.table.locks| <= |s.table.locks| + 1
  {
    var z, p := Step(s, End), s.pass.value;
    if p.key !in s.table.locks {
      assert z.table.locks.Keys == s.table.locks.Keys + {p.key};
      assert |z.table.locks.Keys| == |s.table.locks.Keys| + 1;
    }
    assert |z.table.locks| == |z.table.locks.Keys| && |s.table.locks| == |s.table.locks.Keys|;
  }

  /** The readings of a pass, in some order. */
  function Sweeps(keys: seq<Key>): seq<Action> {
    seq(|keys|, i requires 0 <= i < |keys| => Sweep(keys[i]))
  }

  /** With nothing between its steps, a lookup does what the method does. */
  lemma {:induction false} SweepsAre(s: State, t: Table, done: set<Key>, keys: seq<Key>)
    requires s.pass.Some? && s.pass.value.todo == set k | k in keys
    requires forall i, j | 0 <= i < j < |keys| :: keys[i] != keys[j]
    requires SingleUse(t.locks) && s.table == Swept(t, done) && done !! s.pass.value.todo && done + s.pass.value.todo <= t.locks.Keys
    ensures Possible(s, Sweeps(keys))
    ensures var z := Run(s, Sweeps(keys));
      && z.table == Swept(t, done + s.pass.value.todo) && z.handles == s.handles && z.owners == s.owners
      && z.pass.Some? && z.pass.value.(todo := {}, kept := {}) == s.pass.value.(todo := {}, kept := {}) && z.pass.value.todo == {}
    decreases |keys|
  {
    if keys == [] {
      assert done + s.pass.value.todo == done;
    } else {
      var k, rest := keys[0], keys[1..];
      assert k in keys && Sweeps(keys)[0] == Sweep(k) && Sweeps(keys)[1..] == Sweeps(rest);
      SweepOne(t, done, k);
      var s1 := Step(s, Sweep(k));
      assert s1.pass.value.todo == set k | k in rest by {
        assert forall x :: x in keys <==> x == k || x in rest;
      }
      assert done + {k} + s1.pass.value.todo == done + s.pass.value.todo;
      hide Swept;
      SweepsAre(s1, t, done + {k}, rest);
    }
  }

  lemma PrunedIsSwept(t: Table)
    ensures Pruned(t) == Swept(t, if |t.locks| > t.capacity then t.locks.Keys else {})
  {
    SweepNothing(t);
    hide Swept;
  }

  lemma EndsAs(s: State, z: State, h: Handle, key: Key)
    requires s.pass.None? && z.table == Pruned(s.table) && z.handles == s.handles && z.owners == s.owners
    requires z.pass.Some? && z.pass.value.todo == {} && z.pass.value.handle == h && z.pass.value.key == key
    ensures Enabled(z, End)
    ensures var (t, l) := LookedUp(s.table, key); Step(z, End) == s.(table := t, handles := s.handles[h := Reference(key, l)])
  {
    hide Pruned;
    hide Referred;
  }

  /** The lookup of the machine, undisturbed, is the specification of the method. */
  lemma LookupAlone(s: State, h: Handle, key: Key, keys: seq<Key>)
    requires Inv(s) && Enabled(s, Begin(h, key))
    requires forall i, j | 0 <= i < j < |keys| :: keys[i] != keys[j]
    requires (set k | k in keys) == if |s.table.locks| > s.table.capacity then s.table.locks.Keys else {}
    ensures var s1 := Step(s, Begin(h, key));
      && Possible(s1, Sweeps(keys)) && Enabled(Run(s1, Sweeps(keys)), End)
      && var (t, l) := LookedUp(s.table, key);
      Step(Run(s1, Sweeps(keys)), End) == s.(table := t, handles := s.handles[h := Reference(key, l)])
  {
    assert SingleUse(s.table.locks);
    hide Inv;
    hide SingleUse;
    hide Possible;
    hide Run;
    hide Swept;
    var s1 := Step(s, Begin(h, key));
    var todo := if |s.table.locks| > s.table.capacity then s.table.locks.Keys else {};
    assert s1.table == s.table && s1.pass == Some(Pass(h, key, |s.table.locks| > s.table.capacity, todo, {})) && {} + todo == todo;
    hide Step;
    hide Enabled;
    hide LookedUp;
    SweepNothing(s.table);
    SweepsAre(s1, s.table, {}, keys);
    PrunedIsSwept(s.table);
    hide Pruned;
    EndsAs(s, Run(s1, Sweeps(keys)), h, key);
  }
}
