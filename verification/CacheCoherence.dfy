/** Every step keeps the invariant on memory and S3, and what follows: coherence, and atomic check-then-act. */
module CacheCoherence {
  import opened Basics
  import opened FileNames
  import opened CacheMemory
  import opened CacheStates
  import opened CacheProtocol
  import Lru

  lemma QuietKeepsTask(s: State, s': State, t: Task, u: Task)
    requires TaskOk(s, u) && u != t && PcOf(s', u) == PcOf(s, u)
    requires s'.lim == s.lim && s'.s3 == s.s3 && s'.stale == s.stale && s'.mem == s.mem && s'.bumps == s.bumps
    requires s'.nextId >= s.nextId
    requires forall k | k in s.busy && s.busy[k] != t :: k in s'.busy && s'.busy[k] == s.busy[k]
    ensures TaskOk(s', u)
  {
  }

  /** A step that touches neither memory nor S3 keeps the invariant if its own task's part does. */
  lemma QuietKeepsMemory(s: State, s': State, t: Task)
    requires InvMemory(s)
    requires s'.lim == s.lim && s'.s3 == s.s3 && s'.stale == s.stale && s'.mem == s.mem && s'.bumps == s.bumps
    requires s'.nextId >= s.nextId
    requires forall k | k in s.busy && s.busy[k] != t :: k in s'.busy && s'.busy[k] == s.busy[k]
    requires forall u: Task | u != t :: PcOf(s', u) == PcOf(s, u)
    requires s'.lock == s.lock || (s.lock in {None, Some(t)} && s'.lock in {None, Some(t)})
    requires HoldsLock(PcOf(s', t)) <==> s'.lock == Some(t)
    requires TaskOk(s', t)
    ensures InvMemory(s')
  {
    hide TaskOk;
    hide HoldsLock;
    hide Orderly;
    forall u: Task ensures TaskOk(s', u) && (HoldsLock(PcOf(s', u)) <==> s'.lock == Some(u)) {
      assert TaskOk(s, u) && (HoldsLock(PcOf(s, u)) <==> s.lock == Some(u));
      if u != t {
        QuietKeepsTask(s, s', t, u);
      }
    }
    forall k ensures Generation(s'.mem.generations, k) == BumpsOf(s', k) % TWO_64 {
    }
  }

  lemma MutateKeepsTask(s: State, s': State, t: Task, key: Key, u: Task)
    requires key !in s.busy && TaskOk(s, u) && u != t && PcOf(s', u) == PcOf(s, u)
    requires s'.lim == s.lim && s'.mem == s.mem && s'.bumps == s.bumps && s'.nextId == s.nextId
    requires s'.s3 - {key} == s.s3 - {key} && s'.stale == s.stale + {key} && s'.busy == s.busy[key := t]
    ensures TaskOk(s', u)
  {
    assert forall k | k != key :: k in s'.s3 <==> k in s'.s3 - {key};
    assert forall k | k != key :: k in s.s3 <==> k in s.s3 - {key};
    assert forall k | k != key && k in s.s3 :: k in s'.s3 && s'.s3[k] == (s'.s3 - {key})[k] == s.s3[k];
  }

  lemma MutateKeepsMemory(s: State, t: Task, key: Key, after: Option<Bytes>)
    requires InvMemory(s) && Enabled(s, Mutate(t, key, after))
    ensures InvMemory(Step(s, Mutate(t, key, after)))
  {
    var s' := Step(s, Mutate(t, key, after));
    assert s'.s3 - {key} == s.s3 - {key};
    forall u: Task ensures TaskOk(s', u) && (HoldsLock(PcOf(s', u)) <==> s'.lock == Some(u)) {
      assert TaskOk(s, u) && (HoldsLock(PcOf(s, u)) <==> s.lock == Some(u));
      if u != t {
        MutateKeepsTask(s, s', t, key, u);
      }
    }
    assert forall k :: BumpsOf(s', k) == BumpsOf(s, k);
    forall p | p in s'.mem.entries
      ensures BumpsOf(s', p.0) < TWO_64 && p.0 !in s'.stale ==>
        p.0 in s'.s3 && p.1.digest == Sha256(s'.s3[p.0]) && p.1.size == |s'.s3[p.0]|
    {
    }
  }

  /** A bump leaves every read captured before it behind. */
  lemma BumpKeepsTask(s: State, s': State, key: Key, t: Task)
    requires forall k :: Generation(s.mem.generations, k) == BumpsOf(s, k) % TWO_64
    requires TaskOk(s, t) && PcOf(s', t) == PcOf(s, t) && !HoldsLock(PcOf(s, t))
    requires s'.lim == s.lim && s'.s3 == s.s3 && s'.busy == s.busy && s'.nextId == s.nextId
    requires s'.stale == s.stale - {key} && s'.bumps == s.bumps[key := BumpsOf(s, key) + 1]
    ensures TaskOk(s', t)
  {
  }

  lemma BumpCounts(s: State, s': State, key: Key)
    requires forall k :: Generation(s.mem.generations, k) == BumpsOf(s, k) % TWO_64
    requires s'.bumps == s.bumps[key := BumpsOf(s, key) + 1] && s'.mem.generations == Bump(s.mem.generations, key)
    ensures forall k :: Generation(s'.mem.generations, k) == BumpsOf(s', k) % TWO_64
  {
    forall k ensures Generation(s'.mem.generations, k) == BumpsOf(s', k) % TWO_64 {
      assert Generation(s.mem.generations, k) == BumpsOf(s, k) % TWO_64;
    }
  }

  lemma TakeOutKeepsMemory(s: State, t: Task)
    requires InvMemory(s) && Enabled(s, TakeOut(t))
    ensures InvMemory(Step(s, TakeOut(t)))
  {
    if Holds(s.mem, PcOf(s, t).key, PcOf(s, t).condition) {
      TakingOutKeepsMemory(s, t);
    } else {
      assert TaskOk(s, t) && (HoldsLock(PcOf(s, t)) <==> s.lock == Some(t));
      QuietKeepsMemory(s, Step(s, TakeOut(t)), t);
    }
  }

  lemma TakingOutMoves(s: State, t: Task)
    requires Enabled(s, TakeOut(t)) && Holds(s.mem, PcOf(s, t).key, PcOf(s, t).condition)
    ensures var s', key := Step(s, TakeOut(t)), PcOf(s, t).key;
      && s.lock.None? && s'.lock == Some(t) && PcOf(s', t).Deleting?
      && (forall u: Task | u != t :: PcOf(s', u) == PcOf(s, u))
      && s'.s3 == s.s3 && s'.busy == s.busy && s'.lim == s.lim && s'.nextId == s.nextId
      && s'.mem == Remove(s.mem, key).0 && s'.mem.generations == Bump(s.mem.generations, key)
      && s'.mem.entries == Lru.Without(s.mem.entries, key)
      && s'.bumps == s.bumps[key := BumpsOf(s, key) + 1] && s'.stale == s.stale - {key}
  {
    hide Holds;
    hide DoomAll;
    hide Bump;
    hide PopBytes;
  }

  lemma TakingOutKeepsTasks(s: State, t: Task)
    requires InvMemory(s) && Enabled(s, TakeOut(t)) && Holds(s.mem, PcOf(s, t).key, PcOf(s, t).condition)
    ensures forall u: Task :: TaskOk(Step(s, TakeOut(t)), u)
    ensures var s' := Step(s, TakeOut(t)); forall u: Task :: HoldsLock(PcOf(s', u)) <==> s'.lock == Some(u)
  {
    TakingOutMoves(s, t);
    hide Step;
    hide Enabled;
    hide Holds;
    hide Remove;
    var s' := Step(s, TakeOut(t));
    forall u: Task ensures TaskOk(s', u) && (HoldsLock(PcOf(s', u)) <==> s'.lock == Some(u)) {
      assert TaskOk(s, u) && (HoldsLock(PcOf(s, u)) <==> s.lock == Some(u));
      if u != t {
        BumpKeepsTask(s, s', PcOf(s, t).key, u);
      }
    }
  }

  lemma TakingOutKeepsMemory(s: State, t: Task)
    requires InvMemory(s) && Enabled(s, TakeOut(t)) && Holds(s.mem, PcOf(s, t).key, PcOf(s, t).condition)
    ensures InvMemory(Step(s, TakeOut(t)))
  {
    TakingOutMoves(s, t);
    TakingOutKeepsTasks(s, t);
    hide Step;
    hide Enabled;
    hide Holds;
    hide TaskOk;
    var s' := Step(s, TakeOut(t));
    var key := PcOf(s, t).key;
    RemoveKeepsOrderly(s.mem, s.lim, key);
    hide Remove;
    BumpCounts(s, s', key);
    forall p | p in s'.mem.entries
      ensures BumpsOf(s', p.0) < TWO_64 && p.0 !in s'.stale ==>
        p.0 in s'.s3 && p.1.digest == Sha256(s'.s3[p.0]) && p.1.size == |s'.s3[p.0]|
    {
      assert p in s.mem.entries && p.0 != key;
    }
  }

  /** What an insertion keeps is the new entry and some of the old ones under other keys. */
  lemma InsertKeepsOnly(m: Memory, lim: Limits, key: Key, e: Entry, guard: Guard)
    ensures forall p | p in Insert(m, lim, key, e, guard).0.entries :: p == (key, e) || (p in m.entries && p.0 != key)
  {
    InsertSplits(m, lim, key, e, guard);
    var all := [(key, e)] + Lru.Without(m.entries, key);
    var kept := Insert(m, lim, key, e, guard).0.entries;
    forall p | p in kept ensures p == (key, e) || (p in m.entries && p.0 != key) {
      var i :| 0 <= i < |kept| && kept[i] == p;
      assert kept[i] == all[i];
      if i > 0 {
        assert p == Lru.Without(m.entries, key)[i - 1];
      }
    }
  }

  lemma InsertKept(s: State, key: Key, e: Entry, guard: Guard)
    requires InvMemory(s) && e.size <= s.lim.maxBytes
    ensures Orderly(Insert(s.mem, s.lim, key, e, guard).0, s.lim)
    ensures Lru.Find(Insert(s.mem, s.lim, key, e, guard).0.entries, key) == Some(e)
  {
    InsertKeepsOrderly(s.mem, s.lim, key, e, guard);
    Lru.DistinctFind(Insert(s.mem, s.lim, key, e, guard).0.entries, 0);
  }

  lemma InsertMoves(s: State, t: Task)
    requires Enabled(s, InsertEntry(t))
    ensures var s' := Step(s, InsertEntry(t));
      && PcOf(s, t).Publishing? && HoldsLock(PcOf(s, t)) && PcOf(s', t).Deleting? && s'.lock == s.lock
      && (forall u: Task | u != t :: PcOf(s', u) == PcOf(s, u))
      && s'.s3 == s.s3 && s'.busy == s.busy && s'.lim == s.lim && s'.nextId == s.nextId
      && s'.mem == Insert(s.mem, s.lim, PcOf(s, t).record.key, EntryOf(PcOf(s, t).record), PcOf(s, t).guard).0
      && (if PcOf(s, t).guard.Unconditional? then
            && s'.mem.generations == Bump(s.mem.generations, PcOf(s, t).record.key)
            && s'.bumps == Bumped(s, PcOf(s, t).record.key).bumps && s'.stale == s.stale - {PcOf(s, t).record.key}
          else s'.mem.generations == s.mem.generations && s'.bumps == s.bumps && s'.stale == s.stale)
  {
    hide MakeRoom;
    hide EvictOver;
    hide PopBytes;
    hide DoomAll;
    hide Bump;
  }

  /** Inserting under a generation guard bumps nothing. */
  lemma GuardedInsertKeepsTask(s: State, s': State, u: Task)
    requires TaskOk(s, u) && PcOf(s', u) == PcOf(s, u)
    requires s'.lim == s.lim && s'.s3 == s.s3 && s'.busy == s.busy && s'.nextId == s.nextId
    requires s'.mem.generations == s.mem.generations && s'.bumps == s.bumps && s'.stale == s.stale
    ensures TaskOk(s', u)
  {
  }

  lemma InsertKeepsTasks(s: State, t: Task)
    requires InvMemory(s) && Enabled(s, InsertEntry(t))
    ensures forall u: Task :: TaskOk(Step(s, InsertEntry(t)), u)
    ensures var s' := Step(s, InsertEntry(t)); forall u: Task :: HoldsLock(PcOf(s', u)) <==> s'.lock == Some(u)
  {
    var s' := Step(s, InsertEntry(t));
    InsertMoves(s, t);
    hide Step;
    hide Enabled;
    hide TaskOk;
    hide Orderly;
    hide Coherent;
    hide Insert;
    assert HoldsLock(PcOf(s, t)) <==> s.lock == Some(t);
    forall u: Task ensures TaskOk(s', u) && (HoldsLock(PcOf(s', u)) <==> s'.lock == Some(u)) {
      assert TaskOk(s, u) && (HoldsLock(PcOf(s, u)) <==> s.lock == Some(u));
      if u == t {
        DeleterIsOk(s', t);
      } else if PcOf(s, t).guard.Unconditional? {
        BumpKeepsTask(s, s', PcOf(s, t).record.key, u);
      } else {
        GuardedInsertKeepsTask(s, s', u);
      }
    }
  }

  lemma DeleterIsOk(s: State, t: Task)
    requires PcOf(s, t).Deleting?
    ensures TaskOk(s, t)
  {
  }

  /** At its insertion, content is the present object unless a mutation is under way. */
  lemma PublishedIsCurrent(s: State, t: Task)
    requires InvMemory(s) && Enabled(s, InsertEntry(t))
    ensures var Publishing(_, r, data, guard) := PcOf(s, t);
      (guard.Unconditional? || (BumpsOf(s, r.key) < TWO_64 && r.key !in s.stale)) ==>
        r.key in s.s3 && r.digest == Sha256(s.s3[r.key]) && r.size == |s.s3[r.key]|
  {
    assert TaskOk(s, t);
    assert Generation(s.mem.generations, PcOf(s, t).record.key) == BumpsOf(s, PcOf(s, t).record.key) % TWO_64;
  }

  lemma InsertKeepsCoherent(s: State, t: Task)
    requires InvMemory(s) && Enabled(s, InsertEntry(t))
    ensures Coherent(Step(s, InsertEntry(t)))
  {
    var s' := Step(s, InsertEntry(t));
    assert TaskOk(s, t);
    var Publishing(_, r, data, guard) := PcOf(s, t);
    InsertKeepsOnly(s.mem, s.lim, r.key, EntryOf(r), guard);
    var kept := Insert(s.mem, s.lim, r.key, EntryOf(r), guard).0.entries;
    assert s'.mem.entries == kept;
    assert Generation(s.mem.generations, r.key) == BumpsOf(s, r.key) % TWO_64;
    forall p | p in kept
      ensures BumpsOf(s', p.0) < TWO_64 && p.0 !in s'.stale ==>
        p.0 in s'.s3 && p.1.digest == Sha256(s'.s3[p.0]) && p.1.size == |s'.s3[p.0]|
    {
      if p == (r.key, EntryOf(r)) {
        PublishedIsCurrent(s, t);
      } else {
        assert p in s.mem.entries && p.0 != r.key;
      }
    }
  }

  lemma InsertCounts(s: State, t: Task)
    requires InvMemory(s) && Enabled(s, InsertEntry(t))
    ensures var s' := Step(s, InsertEntry(t)); forall k :: Generation(s'.mem.generations, k) == BumpsOf(s', k) % TWO_64
  {
    InsertMoves(s, t);
    hide Step;
    hide Insert;
    assert forall k :: Generation(s.mem.generations, k) == BumpsOf(s, k) % TWO_64;
    hide InvMemory;
    hide Bump;
    hide Generation;
    var s' := Step(s, InsertEntry(t));
    if PcOf(s, t).guard.Unconditional? {
      BumpCounts(s, s', PcOf(s, t).record.key);
    } else {
      assert forall k :: BumpsOf(s', k) == BumpsOf(s, k);
    }
  }

  lemma InsertKeepsMemory(s: State, t: Task)
    requires InvMemory(s) && Enabled(s, InsertEntry(t))
    ensures InvMemory(Step(s, InsertEntry(t)))
  {
    InsertMoves(s, t);
    hide Step;
    assert TaskOk(s, t);
    var Publishing(_, r, data, guard) := PcOf(s, t);
    InsertKept(s, r.key, EntryOf(r), guard);
    hide Insert;
    hide Orderly;
    hide TaskOk;
    InsertKeepsTasks(s, t);
    InsertKeepsCoherent(s, t);
    InsertCounts(s, t);
    hide Coherent;
    hide Generation;
  }

  lemma TouchStep(s: State, key: Key)
    ensures var s' := Step(s, Touch(key)); s' == s.(mem := s.mem.(entries := Lru.Promote(s.mem.entries, key)))
  {
  }

  /** Only the recency order has changed. */
  lemma SamePairsKeepTasks(s: State, s': State)
    requires InvMemory(s) && s' == s.(mem := s.mem.(entries := s'.mem.entries))
    ensures forall u: Task :: TaskOk(s', u) && (HoldsLock(PcOf(s', u)) <==> s'.lock == Some(u))
    ensures forall k :: Generation(s'.mem.generations, k) == BumpsOf(s', k) % TWO_64
  {
    forall u: Task ensures TaskOk(s', u) && (HoldsLock(PcOf(s', u)) <==> s'.lock == Some(u)) {
      assert TaskOk(s, u) && (HoldsLock(PcOf(s, u)) <==> s.lock == Some(u));
    }
    forall k ensures Generation(s'.mem.generations, k) == BumpsOf(s', k) % TWO_64 {
      assert Generation(s.mem.generations, k) == BumpsOf(s, k) % TWO_64;
    }
  }

  lemma SamePairsCoherent(s: State, s': State)
    requires Coherent(s) && s' == s.(mem := s.mem.(entries := s'.mem.entries)) && forall p | p in s'.mem.entries :: p in s.mem.entries
    ensures Coherent(s')
  {
  }

  lemma TouchKeepsMemory(s: State, key: Key)
    requires InvMemory(s)
    ensures InvMemory(Step(s, Touch(key)))
  {
    var s' := Step(s, Touch(key));
    TouchStep(s, key);
    hide Step;
    hide Coherent;
    hide TaskOk;
    assert Lru.Distinct(s.mem.entries);
    Lru.PromoteKeeps(s.mem.entries, key);
    PromoteKeepsOrderly(s.mem, s.lim, key);
    SamePairsKeepTasks(s, s');
    SamePairsCoherent(s, s');
    hide Orderly;
  }

  // The steps that touch neither memory nor S3.

  /** Of memory and S3 the step changes at most whose turn it is. */
  ghost predicate SameMemory(s: State, s': State, t: Task) {
    && s'.lim == s.lim && s'.s3 == s.s3 && s'.stale == s.stale && s'.mem == s.mem && s'.bumps == s.bumps && s'.nextId == s.nextId
    && (forall k | k in s.busy && s.busy[k] != t :: k in s'.busy && s'.busy[k] == s.busy[k])
    && (forall u: Task | u != t :: PcOf(s', u) == PcOf(s, u))
  }

  lemma SameMemoryKeeps(s: State, s': State, t: Task)
    requires InvMemory(s) && SameMemory(s, s', t) && TaskOk(s', t)
    requires s'.lock == s.lock || (s.lock in {None, Some(t)} && s'.lock in {None, Some(t)})
    requires HoldsLock(PcOf(s', t)) <==> s'.lock == Some(t)
    ensures InvMemory(s')
  {
    hide InvMemory;
    hide TaskOk;
    hide HoldsLock;
    QuietKeepsMemory(s, s', t);
  }

  lemma ReaderMoves(s: State, a: Action)
    requires Enabled(s, a) && (a.Capture? || a.Fetch? || a.Drop?)
    ensures var s', pc' := Step(s, a), PcOf(Step(s, a), a.t);
      && SameMemory(s, s', a.t) && !HoldsLock(PcOf(s, a.t)) && !HoldsLock(pc')
      && s'.lock == (if a.Fetch? && pc'.Idle? && s.lock == Some(a.t) then None else s.lock)
      && (pc'.Idle? || pc'.Removing? || (a.Capture? && pc' == Captured(a.key, Generation(s.mem.generations, a.key)))
          || (PcOf(s, a.t).Captured? && PcOf(s, a.t).key in s.s3
              && pc' == Fetched(PcOf(s, a.t).key, PcOf(s, a.t).generation, s.s3[PcOf(s, a.t).key])))
  {
    hide Generation;
  }

  lemma ReaderKeepsMemory(s: State, a: Action)
    requires InvMemory(s) && Enabled(s, a) && (a.Capture? || a.Fetch? || a.Drop?)
    ensures InvMemory(Step(s, a))
  {
    ReaderMoves(s, a);
    hide Step;
    hide Enabled;
    assert TaskOk(s, a.t) && (HoldsLock(PcOf(s, a.t)) <==> s.lock == Some(a.t));
    assert a.Capture? ==> Generation(s.mem.generations, a.key) == BumpsOf(s, a.key) % TWO_64;
    hide InvMemory;
    SameMemoryKeeps(s, Step(s, a), a.t);
  }

  /** A call of the cache starts a publication under a fresh name, or a removal, and nothing else changes. */
  lemma CallerStep(s: State, a: Action)
    requires Enabled(s, a) && (a.ReaderPublish? || a.MutatorPublish? || a.MutatorRemove?)
    ensures var s', pc, pc' := Step(s, a), PcOf(s, a.t), PcOf(Step(s, a), a.t);
      && (pc.Fetched? || pc.Mutated?)
      && (pc'.Removing? ||
          (pc'.Publishing? && pc'.stage.Started? && |pc'.data| <= s.lim.maxBytes && s'.nextId == s.nextId + 1
           && pc'.record.version == 1 && pc'.record.size == |pc'.data| && pc'.record.digest == Sha256(pc'.data)
           && pc'.record.path == Content(pc.key, s.nextId) && pc'.record.key == pc.key
           && (if pc.Fetched? then pc'.data == pc.data && pc'.guard == IfGeneration(pc.generation)
               else pc.after == Some(pc'.data) && pc'.guard == Unconditional)))
      && (forall u: Task | u != a.t :: PcOf(s', u) == PcOf(s, u)) && s.nextId <= s'.nextId
      && s'.lim == s.lim && s'.s3 == s.s3 && s'.stale == s.stale && s'.mem == s.mem && s'.bumps == s.bumps && s'.busy == s.busy
      && s'.lock == s.lock && s'.disk == s.disk && s'.failed == s.failed && s'.ragged == s.ragged
  {
  }

  lemma CallerKeepsMemory(s: State, a: Action)
    requires InvMemory(s) && Enabled(s, a) && (a.ReaderPublish? || a.MutatorPublish? || a.MutatorRemove?)
    ensures InvMemory(Step(s, a))
  {
    CallerStep(s, a);
    hide Step;
    hide Enabled;
    assert TaskOk(s, a.t) && (HoldsLock(PcOf(s, a.t)) <==> s.lock == Some(a.t));
    hide InvMemory;
    QuietKeepsMemory(s, Step(s, a), a.t);
  }

  /** A publication goes one stage further, and its pc is otherwise the same. */
  ghost predicate NextStage(s: State, s': State, t: Task) {
    && SameMemory(s, s', t) && s'.busy == s.busy && PcOf(s, t).Publishing?
    && PcOf(s', t).Publishing? && PcOf(s', t) == PcOf(s, t).(stage := PcOf(s', t).stage)
    && (PastCheck(PcOf(s', t).stage) <==> PastCheck(PcOf(s, t).stage))
  }

  lemma WriterMoves(s: State, a: Action)
    requires Enabled(s, a) && (a.WriteContent? || a.WriteRecord?)
    ensures NextStage(s, Step(s, a), a.t) && Step(s, a).lock == s.lock
    ensures !HoldsLock(PcOf(s, a.t)) && !HoldsLock(PcOf(Step(s, a), a.t))
  {
  }

  lemma AcquireMoves(s: State, t: Task)
    requires Enabled(s, Acquire(t))
    ensures NextStage(s, Step(s, Acquire(t)), t) && s.lock == None && Step(s, Acquire(t)).lock == Some(t)
    ensures HoldsLock(PcOf(Step(s, Acquire(t)), t))
  {
  }

  lemma RenamerMoves(s: State, a: Action)
    requires Enabled(s, a) && (a.RenameContent? || a.RenameRecord?)
    ensures NextStage(s, Step(s, a), a.t) && Step(s, a).lock == s.lock
    ensures HoldsLock(PcOf(s, a.t)) && HoldsLock(PcOf(Step(s, a), a.t))
  {
  }

  lemma NextStageKeeps(s: State, s': State, t: Task)
    requires InvMemory(s) && NextStage(s, s', t)
    requires s'.lock == s.lock || (s.lock == None && s'.lock == Some(t))
    requires HoldsLock(PcOf(s', t)) <==> s'.lock == Some(t)
    ensures InvMemory(s')
  {
    assert TaskOk(s, t);
    hide InvMemory;
    hide HoldsLock;
    SameMemoryKeeps(s, s', t);
  }

  lemma PublisherKeepsMemory(s: State, a: Action)
    requires InvMemory(s) && Enabled(s, a)
    requires a.WriteContent? || a.WriteRecord? || a.Acquire? || a.RenameContent? || a.RenameRecord?
    ensures InvMemory(Step(s, a))
  {
    assert HoldsLock(PcOf(s, a.t)) <==> s.lock == Some(a.t);
    hide Step;
    hide Enabled;
    hide InvMemory;
    hide HoldsLock;
    hide NextStage;
    if a.Acquire? {
      AcquireMoves(s, a.t);
    } else if a.WriteContent? || a.WriteRecord? {
      WriterMoves(s, a);
    } else {
      RenamerMoves(s, a);
    }
    NextStageKeeps(s, Step(s, a), a.t);
  }

  lemma CheckMoves(s: State, t: Task, c: bool, r: bool)
    requires Enabled(s, Check(t, c, r))
    ensures var s' := Step(s, Check(t, c, r));
      && SameMemory(s, s', t) && PcOf(s, t).Publishing? && PcOf(s, t).stage.Locked?
      && (if PcOf(s, t).guard.IfGeneration? && Generation(s.mem.generations, PcOf(s, t).record.key) != PcOf(s, t).guard.expected then
            PcOf(s', t) == Idle && s'.lock == if s.lock == Some(t) then None else s.lock
          else PcOf(s', t) == PcOf(s, t).(stage := Checked) && s'.lock == s.lock && s'.busy == s.busy)
  {
    hide Generation;
  }

  lemma CheckKeepsMemory(s: State, a: Action)
    requires InvMemory(s) && Enabled(s, a) && a.Check?
    ensures InvMemory(Step(s, a))
  {
    CheckMoves(s, a.t, a.contentRemoved, a.recordRemoved);
    hide Step;
    hide Enabled;
    hide Generation;
    assert TaskOk(s, a.t) && (HoldsLock(PcOf(s, a.t)) <==> s.lock == Some(a.t));
    hide InvMemory;
    SameMemoryKeeps(s, Step(s, a), a.t);
  }

  /** The task ends, or goes on deleting or retrying. */
  ghost predicate WindsDown(s: State, s': State, t: Task) {
    && SameMemory(s, s', t)
    && (if PcOf(s', t).Idle? then s'.lock == if s.lock == Some(t) then None else s.lock
        else (PcOf(s', t).Deleting? || PcOf(s', t).Retrying?) && s'.lock == s.lock && HoldsLock(PcOf(s', t)) == HoldsLock(PcOf(s, t)))
  }

  lemma EndingMoves(s: State, a: Action)
    requires Enabled(s, a) && (a.Abandon? || a.Release?)
    ensures WindsDown(s, Step(s, a), a.t)
  {
  }

  lemma DeleteContentMoves(s: State, t: Task, ok: bool)
    requires Enabled(s, DeleteContent(t, ok))
    ensures WindsDown(s, Step(s, DeleteContent(t, ok)), t)
  {
    hide Pushed;
  }

  lemma DeleteRecordMoves(s: State, t: Task, ok: bool)
    requires Enabled(s, DeleteRecord(t, ok))
    ensures WindsDown(s, Step(s, DeleteRecord(t, ok)), t)
  {
    hide KeyOf;
  }

  lemma RetryOneMoves(s: State, t: Task, ok: bool)
    requires Enabled(s, RetryOne(t, ok))
    ensures WindsDown(s, Step(s, RetryOne(t, ok)), t)
  {
  }

  lemma QueueMoves(s: State, a: Action)
    requires Enabled(s, a) && (a.StartRetry? || a.FinishRetry?)
    ensures WindsDown(s, Step(s, a), a.t)
  {
    hide PushedAll;
  }

  lemma WindsDownKeeps(s: State, s': State, t: Task)
    requires InvMemory(s) && WindsDown(s, s', t)
    ensures InvMemory(s')
  {
    assert HoldsLock(PcOf(s, t)) <==> s.lock == Some(t);
    hide InvMemory;
    SameMemoryKeeps(s, s', t);
  }

  lemma EndingKeepsMemory(s: State, a: Action)
    requires InvMemory(s) && Enabled(s, a)
    requires a.Abandon? || a.Release? || a.DeleteContent? || a.DeleteRecord? || a.StartRetry? || a.RetryOne? || a.FinishRetry?
    ensures InvMemory(Step(s, a))
  {
    hide *;
    match a {
      case DeleteContent(t, ok) => DeleteContentMoves(s, t, ok);
      case DeleteRecord(t, ok) => DeleteRecordMoves(s, t, ok);
      case RetryOne(t, ok) => RetryOneMoves(s, t, ok);
      case Abandon(_, _) => EndingMoves(s, a);
      case Release(_) => EndingMoves(s, a);
      case _ => QueueMoves(s, a);
    }
    WindsDownKeeps(s, Step(s, a), a.t);
  }

  lemma StepKeepsMemory(s: State, a: Action)
    requires InvMemory(s) && Enabled(s, a)
    ensures InvMemory(Step(s, a))
  {
    hide *;
    if a.Mutate? {
      MutateKeepsMemory(s, a.t, a.key, a.after);
    } else if a.InsertEntry? {
      InsertKeepsMemory(s, a.t);
    } else if a.Touch? {
      TouchKeepsMemory(s, a.key);
    } else if a.TakeOut? {
      TakeOutKeepsMemory(s, a.t);
    } else if a.Capture? || a.Fetch? || a.Drop? {
      ReaderKeepsMemory(s, a);
    } else if a.ReaderPublish? || a.MutatorPublish? || a.MutatorRemove? {
      CallerKeepsMemory(s, a);
    } else if a.WriteContent? || a.WriteRecord? || a.Acquire? || a.RenameContent? || a.RenameRecord? {
      PublisherKeepsMemory(s, a);
    } else if a.Check? {
      CheckKeepsMemory(s, a);
    } else {
      EndingKeepsMemory(s, a);
    }
  }

  // ---- Over whole runs ----

  /** The state after a run, or nothing if some action of it was not possible. */
  function Run(s: State, actions: seq<Action>): Option<State>
    decreases |actions|
  {
    if actions == [] then Some(s)
    else if Enabled(s, actions[0]) then Run(Step(s, actions[0]), actions[1..])
    else None
  }

  /** A freshly started cache with whatever it recovered, over any S3 state it agrees with. */
  ghost predicate Initial(s: State) {
    && AnyLimits(s.lim)
    && Orderly(s.mem, s.lim) && s.mem.generations == map[] && s.bumps == map[]
    && s.lock == None && s.pcs == map[] && s.busy == map[]
    && Coherent(s)
  }

  lemma {:induction false} RunKeepsMemory(s: State, actions: seq<Action>)
    requires InvMemory(s) && Run(s, actions).Some?
    ensures InvMemory(Run(s, actions).value)
    decreases |actions|
  {
    if actions != [] {
      StepKeepsMemory(s, actions[0]);
      RunKeepsMemory(Step(s, actions[0]), actions[1..]);
    }
  }

  lemma InitialHoldsMemory(s: State)
    requires Initial(s)
    ensures InvMemory(s)
  {
    forall t: Task ensures PcOf(s, t) == Idle {
    }
  }

  /**
   Coherence over whole runs. However reads, mutations and removals interleave, a key no S3 change has left
   behind has its present object in the cache or nothing; and the byte count is exact and within its limit whenever
   the sum of two objects fits 64 bits, and never above the true sum under any limits.
   (A generation counter is a 64-bit one: the claim is about keys bumped fewer than 2^64 times.)
   */
  lemma CacheIsCoherent(s: State, actions: seq<Action>, k: Key)
    requires Initial(s) && Run(s, actions).Some?
    ensures var z := Run(s, actions).value;
      && (ValidLimits(z.lim) ==> z.mem.currentBytes == SizeOf(z.mem.entries) <= z.lim.maxBytes)
      && z.mem.currentBytes <= SizeOf(z.mem.entries) && |z.mem.entries| <= z.lim.capacity
      && (BumpsOf(z, k) < TWO_64 && k !in z.stale && Lru.Find(z.mem.entries, k).Some? ==>
            k in z.s3 && Lru.Find(z.mem.entries, k).value.digest == Sha256(z.s3[k]))
  {
    InitialHoldsMemory(s);
    RunKeepsMemory(s, actions);
    var z := Run(s, actions).value;
    if Lru.Find(z.mem.entries, k).Some? {
      assert (k, Lru.Find(z.mem.entries, k).value) in z.mem.entries;
    }
  }

  /** The task still owes the cache its call for a change of the key. */
  predicate OwesCall(pc: Pc, k: Key) {
    match pc
    case Mutated(key, _) => key == k
    case Publishing(_, r, _, guard) => r.key == k && guard.Unconditional?
    case Removing(key, condition) => key == k && condition.Always?
    case _ => false
  }

  /** If the key changed since its last bump, a mutation of it is between its S3 change and its cache call. */
  ghost predicate StaleIsOwed(s: State, k: Key) {
    k in s.stale ==> k in s.busy && OwesCall(PcOf(s, s.busy[k]), k)
  }

  /** A mutation that changed the key in S3 returns an error before its cache call. */
  predicate GivesUp(s: State, a: Action, k: Key) {
    a.Abandon? && k in s.stale && k in s.busy && s.busy[k] == a.t
  }

  /** Only task `t` moved: the others owe what they owed. */
  lemma OwedFrame(s: State, z: State, t: Task, k: Key)
    requires StaleIsOwed(s, k) && (k in z.stale ==> k in s.stale)
    requires forall u | u != t :: PcOf(z, u) == PcOf(s, u)
    requires k in s.busy && s.busy[k] != t ==> k in z.busy && z.busy[k] == s.busy[k]
    requires k in z.stale && k in s.busy && s.busy[k] == t && OwesCall(PcOf(s, t), k) ==>
      k in z.busy && z.busy[k] == t && OwesCall(PcOf(z, t), k)
    ensures StaleIsOwed(z, k)
  {
    hide OwesCall;
  }

  lemma BystanderKeepsOwed(s: State, a: Action, k: Key)
    requires StaleIsOwed(s, k) && Enabled(s, a) && (a.Capture? || a.Fetch? || a.Drop? || a.StartRetry? || a.RetryOne? || a.FinishRetry?)
    ensures StaleIsOwed(Step(s, a), k)
  {
    hide PushedAll;
    hide Generation;
    OwedFrame(s, Step(s, a), a.t, k);
  }

  lemma DeleterKeepsOwed(s: State, a: Action, k: Key)
    requires StaleIsOwed(s, k) && Enabled(s, a) && (a.DeleteContent? || a.DeleteRecord? || a.Release?)
    ensures StaleIsOwed(Step(s, a), k)
  {
    OwedFrame(s, Step(s, a), a.t, k);
  }

  lemma CallerKeepsOwed(s: State, a: Action, k: Key)
    requires StaleIsOwed(s, k) && Enabled(s, a) && (a.ReaderPublish? || a.MutatorPublish? || a.MutatorRemove?)
    ensures StaleIsOwed(Step(s, a), k)
  {
    OwedFrame(s, Step(s, a), a.t, k);
  }

  lemma WriterKeepsOwed(s: State, a: Action, k: Key)
    requires StaleIsOwed(s, k) && Enabled(s, a) && (a.WriteContent? || a.WriteRecord? || a.Acquire? || a.RenameContent? || a.RenameRecord?)
    ensures StaleIsOwed(Step(s, a), k)
  {
    OwedFrame(s, Step(s, a), a.t, k);
  }

  lemma CheckKeepsOwed(s: State, a: Action, k: Key)
    requires StaleIsOwed(s, k) && Enabled(s, a) && a.Check?
    ensures StaleIsOwed(Step(s, a), k)
  {
    hide Generation;
    OwedFrame(s, Step(s, a), a.t, k);
  }

  lemma InsertKeepsOwed(s: State, a: Action, k: Key)
    requires StaleIsOwed(s, k) && Enabled(s, a) && a.InsertEntry?
    ensures StaleIsOwed(Step(s, a), k)
  {
    hide Insert;
    OwedFrame(s, Step(s, a), a.t, k);
  }

  lemma TakeOutKeepsOwed(s: State, a: Action, k: Key)
    requires StaleIsOwed(s, k) && Enabled(s, a) && a.TakeOut?
    ensures StaleIsOwed(Step(s, a), k)
  {
    hide Remove;
    OwedFrame(s, Step(s, a), a.t, k);
  }

  lemma ChangeKeepsOwed(s: State, a: Action, k: Key)
    requires StaleIsOwed(s, k) && Enabled(s, a) && (a.Mutate? || a.Touch? || (a.Abandon? && !GivesUp(s, a, k)))
    ensures StaleIsOwed(Step(s, a), k)
  {
  }

  lemma StepKeepsOwed(s: State, a: Action, k: Key)
    requires StaleIsOwed(s, k) && Enabled(s, a) && !GivesUp(s, a, k)
    ensures StaleIsOwed(Step(s, a), k)
  {
    hide *;
    if a.Capture? || a.Fetch? || a.Drop? || a.StartRetry? || a.RetryOne? || a.FinishRetry? {
      BystanderKeepsOwed(s, a, k);
    } else if a.DeleteContent? || a.DeleteRecord? || a.Release? {
      DeleterKeepsOwed(s, a, k);
    } else if a.ReaderPublish? || a.MutatorPublish? || a.MutatorRemove? {
      CallerKeepsOwed(s, a, k);
    } else if a.Check? {
      CheckKeepsOwed(s, a, k);
    } else if a.InsertEntry? {
      InsertKeepsOwed(s, a, k);
    } else if a.TakeOut? {
      TakeOutKeepsOwed(s, a, k);
    } else if a.Mutate? || a.Touch? || a.Abandon? {
      ChangeKeepsOwed(s, a, k);
    } else {
      WriterKeepsOwed(s, a, k);
    }
  }

  /** No mutation of the key gives up. */
  predicate NobodyGivesUp(s: State, actions: seq<Action>, k: Key)
    requires Run(s, actions).Some?
    decreases |actions|
  {
    actions == [] || (!GivesUp(s, actions[0], k) && NobodyGivesUp(Step(s, actions[0]), actions[1..], k))
  }

  lemma {:induction false} RunKeepsOwed(s: State, actions: seq<Action>, k: Key)
    requires StaleIsOwed(s, k) && Run(s, actions).Some? && NobodyGivesUp(s, actions, k)
    ensures StaleIsOwed(Run(s, actions).value, k)
    decreases |actions|
  {
    hide StaleIsOwed;
    hide GivesUp;
    hide Step;
    hide Enabled;
    if actions != [] {
      StepKeepsOwed(s, actions[0], k);
      RunKeepsOwed(Step(s, actions[0]), actions[1..], k);
    }
  }

  /**
   The same without history: whenever no mutation of a key is between its S3 change and its cache call, what the
   cache has for the key is the present object, provided no mutation of that key gave up before its cache call.
   */
  lemma QuietKeysAreCurrent(s: State, actions: seq<Action>, k: Key)
    requires Initial(s) && k !in s.stale && Run(s, actions).Some? && NobodyGivesUp(s, actions, k)
    ensures var z := Run(s, actions).value;
      (k in z.busy ==> !OwesCall(PcOf(z, z.busy[k]), k)) && BumpsOf(z, k) < TWO_64 && Lru.Find(z.mem.entries, k).Some? ==>
        k in z.s3 && Lru.Find(z.mem.entries, k).value.digest == Sha256(z.s3[k])
  {
    RunKeepsOwed(s, actions, k);
    CacheIsCoherent(s, actions, k);
  }

  lemma GivingUpMoves(s: State, t: Task, k: Key, after: Option<Bytes>)
    requires PcOf(s, t).Idle? && k !in s.busy
    ensures Enabled(s, Mutate(t, k, after)) && Enabled(Step(s, Mutate(t, k, after)), Abandon(t, None))
    ensures var z := Step(Step(s, Mutate(t, k, after)), Abandon(t, None));
      && z.mem == s.mem && k !in z.busy
      && (if after.Some? then k in z.s3 && z.s3[k] == after.value else k !in z.s3)
  {
    var s1 := Step(s, Mutate(t, k, after));
    assert PcOf(s1, t) == Mutated(k, after) && s1.busy[k] == t;
  }

  lemma RunOfTwo(s: State, a: Action, b: Action)
    requires Enabled(s, a) && Enabled(Step(s, a), b)
    ensures Run(s, [a, b]) == Some(Step(Step(s, a), b))
  {
    hide Step;
    hide Enabled;
    var r := [a, b];
    assert r[1..] == [b] && [b][1..] == [];
    assert Run(Step(Step(s, a), b), []) == Some(Step(Step(s, a), b));
    assert Run(Step(s, a), [b]) == Some(Step(Step(s, a), b));
  }

  /** The proviso is needed: after a mutation that gives up, the cache still has what the object was. */
  lemma GivingUpLeavesStale(s: State, t: Task, k: Key, after: Option<Bytes>)
    requires InvMemory(s) && PcOf(s, t).Idle? && k !in s.busy && k !in s.stale && BumpsOf(s, k) < TWO_64
    requires Lru.Find(s.mem.entries, k).Some? && (k in s.s3 ==> after != Some(s.s3[k]))
    ensures Run(s, [Mutate(t, k, after), Abandon(t, None)]).Some?
    ensures var z := Run(s, [Mutate(t, k, after), Abandon(t, None)]).value;
      && k !in z.busy && Lru.Find(z.mem.entries, k) == Lru.Find(s.mem.entries, k)
      && !(k in z.s3 && Lru.Find(z.mem.entries, k).value.digest == Sha256(z.s3[k]))
  {
    var e := Lru.Find(s.mem.entries, k).value;
    assert (k, e) in s.mem.entries && (k, e).0 == k;
    assert k in s.s3 && e.digest == Sha256(s.s3[k]);
    hide InvMemory;
    GivingUpMoves(s, t, k, after);
    hide Enabled;
    hide Step;
    RunOfTwo(s, Mutate(t, k, after), Abandon(t, None));
    hide Run;
  }

  /** A mutation that has made its cache call leaves its key current, whoever else is at work. */
  lemma CacheCallSettles(s: State, t: Task)
    requires InvMemory(s)
    requires (Enabled(s, InsertEntry(t)) && PcOf(s, t).guard.Unconditional?)
          || (Enabled(s, TakeOut(t)) && PcOf(s, t).condition.Always?)
    ensures var a := if PcOf(s, t).Publishing? then InsertEntry(t) else TakeOut(t);
      var k := if PcOf(s, t).Publishing? then PcOf(s, t).record.key else PcOf(s, t).key;
      && k !in Step(s, a).stale
      && (PcOf(s, t).Publishing? ==> Lru.Find(Step(s, a).mem.entries, k) == Some(EntryOf(PcOf(s, t).record)))
      && (PcOf(s, t).Removing? ==> Lru.Find(Step(s, a).mem.entries, k) == None)
  {
    assert TaskOk(s, t);
    if PcOf(s, t).Publishing? {
      InsertMoves(s, t);
      hide Step;
      hide Enabled;
      hide Insert;
      InsertKept(s, PcOf(s, t).record.key, EntryOf(PcOf(s, t).record), PcOf(s, t).guard);
    } else {
      TakingOutMoves(s, t);
      hide Step;
      hide Enabled;
      var w := Lru.Without(s.mem.entries, PcOf(s, t).key);
      assert !Lru.Holds(w, PcOf(s, t).key) by {
        forall i | 0 <= i < |w| ensures w[i].0 != PcOf(s, t).key {
          assert w[i] in w;
        }
      }
    }
  }

  /**
   Check-then-act is atomic: between the test of the generation and the insertion that relies on it the state
   lock is released, yet in every reachable state a task past the test still holds the generation it tested.
   */
  lemma TestedGenerationStays(s: State, actions: seq<Action>, t: Task)
    requires Initial(s) && Run(s, actions).Some?
    ensures var z := Run(s, actions).value; var pc := PcOf(z, t);
      pc.Publishing? && PastCheck(pc.stage) && pc.guard.IfGeneration? ==>
        && Generation(z.mem.generations, pc.record.key) == pc.guard.expected
        && z.lock == Some(t)
  {
    InitialHoldsMemory(s);
    RunKeepsMemory(s, actions);
    assert TaskOk(Run(s, actions).value, t);
  }

  /** A read that S3 or a removal has overtaken is refused at the test: it can no longer reach the cache. */
  lemma OvertakenReadIsRefused(s: State, t: Task, c: bool, r: bool)
    requires InvMemory(s) && Enabled(s, Check(t, c, r))
    requires PcOf(s, t).guard.IfGeneration?
    requires PcOf(s, t).guard.expected < BumpsOf(s, PcOf(s, t).record.key) < TWO_64
    ensures var z := Step(s, Check(t, c, r)); PcOf(z, t).Idle? && z.mem == s.mem && z.lock == None
  {
    assert HoldsLock(PcOf(s, t)) <==> s.lock == Some(t);
    assert Generation(s.mem.generations, PcOf(s, t).record.key) == BumpsOf(s, PcOf(s, t).record.key) % TWO_64;
  }
}
