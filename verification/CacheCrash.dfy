/**
 What recovery finds when the process stops at any moment: the running cache and start-up recovery, together.
 */
module CacheCrash {
  import opened Basics
  import opened FileNames
  import opened CacheMemory
  import opened CacheStates
  import opened CacheProtocol
  import opened CacheRecovery
  import CacheCoherence
  import CacheDirectory
  import opened CacheLeftovers
  import opened CacheInheritance
  import Lru

  lemma StepKeepsInv(s: State, a: Action)
    requires Inv(s) && Enabled(s, a)
    ensures Inv(Step(s, a))
  {
    hide Step;
    hide Enabled;
    hide InvMemory;
    hide InvDisk;
    CacheCoherence.StepKeepsMemory(s, a);
    CacheDirectory.StepKeepsDirectory(s, a);
  }

  lemma {:induction false} RunKeepsInv(s: State, actions: seq<Action>)
    requires Inv(s) && CacheCoherence.Run(s, actions).Some?
    ensures Inv(CacheCoherence.Run(s, actions).value)
    decreases |actions|
  {
    hide Step;
    hide Enabled;
    hide Inv;
    if actions != [] {
      StepKeepsInv(s, actions[0]);
      RunKeepsInv(Step(s, actions[0]), actions[1..]);
    }
  }

  /**
   A cache that has just started on whatever recovery left: the two files of every recovered entry, and any files that
   could not be removed. `CacheRestarts.StartFromRecovery` shows that every start is one.
   */
  ghost predicate FreshStart(s: State) {
    && CacheCoherence.Initial(s) && s.failed == []
    && InvDisk(s) && Unclaimed(s.lim, s.disk) && AllKnown(s.disk, s.nextId)
    && forall k :: k in s.ragged <==> Metadata(k) in s.disk && !LiveKey(s, k)
  }

  /** The history at a start. */
  ghost function StartTrace(s: State): Trace {
    Trace(s.disk, s.nextId, set f | f in s.disk && !f.Metadata? && !IsLive(s, f), map[], {})
  }

  /** The history of failed removals over a run. */
  function TraceOf(h: Trace, s: State, actions: seq<Action>): Trace
    requires CacheCoherence.Run(s, actions).Some?
    decreases |actions|
  {
    if actions == [] then h else TraceOf(NextTrace(h, s, actions[0]), Step(s, actions[0]), actions[1..])
  }

  /** All that holds in every state of a run, with its history. */
  ghost predicate Reached(s: State, h: Trace) {
    Inv(s) && Tracked(s, h) && Inherits(s, h) && Unclaimed(s.lim, h.found)
  }

  lemma StepKeepsReached(s: State, a: Action, h: Trace)
    requires Reached(s, h) && Enabled(s, a)
    ensures Reached(Step(s, a), NextTrace(h, s, a)) && Step(s, a).lim == s.lim && NextTrace(h, s, a).found == h.found
  {
    assert NextTrace(h, s, a).found == h.found;
    hide Step;
    hide NextTrace;
    hide Enabled;
    hide Inv;
    hide Tracked;
    hide Inherits;
    hide Unclaimed;
    StepKeepsInv(s, a);
    StepKeepsTracked(s, a, h);
    StepKeepsInherits(s, a, h);
  }

  lemma {:induction false} RunKeepsReached(s: State, h: Trace, actions: seq<Action>)
    requires Reached(s, h) && CacheCoherence.Run(s, actions).Some?
    ensures var z, h' := CacheCoherence.Run(s, actions).value, TraceOf(h, s, actions);
      Reached(z, h') && z.lim == s.lim && h'.found == h.found
    decreases |actions|
  {
    hide Step;
    hide NextTrace;
    hide Enabled;
    hide Reached;
    if actions != [] {
      StepKeepsReached(s, actions[0], h);
      RunKeepsReached(Step(s, actions[0]), NextTrace(h, s, actions[0]), actions[1..]);
    }
  }

  lemma NothingUnderWay(s: State)
    requires CacheCoherence.Initial(s)
    ensures forall t: Task :: PcOf(s, t) == Idle
    ensures forall p | Condemned(s, p) :: p in s.failed
    ensures forall k :: !Replacing(s, k) && !Departing(s, k)
  {
    assert forall t: Task, p :: !CondemnedBy(PcOf(s, t), p);
  }

  lemma LivePathsAreTheirKeys(s: State, p: FileName)
    requires EntriesOnDisk(s) && IsLive(s, p)
    ensures p.Content? && LiveKey(s, p.key)
  {
    var q :| q in s.mem.entries && q.1.path == p;
    assert EntryOnDisk(s, q.0, q.1) && Lru.Holds(s.mem.entries, p.key);
  }

  /** At a start, a key without an entry has its metadata file as found, and content of it that is there is spare. */
  lemma StartLeavesSpare(s: State, k: Key)
    requires FreshStart(s) && k in s.ragged
    ensures AsFound(s, StartTrace(s), k)
  {
    forall p | IsLive(s, p) ensures p.Content? && p.key != k {
      LivePathsAreTheirKeys(s, p);
    }
  }

  lemma StartIsReached(s: State)
    requires FreshStart(s)
    ensures Reached(s, StartTrace(s))
  {
    CacheCoherence.InitialHoldsMemory(s);
    NothingUnderWay(s);
    forall k | k in s.ragged ensures RaggedOk(s, StartTrace(s), k) {
      StartLeavesSpare(s, k);
    }
    hide InvMemory;
    hide InvDisk;
    hide CacheCoherence.Initial;
    hide Condemned;
    hide Unclaimed;
    hide IsLive;
    hide RaggedOk;
    hide NameKnown;
  }

  /** The entry that a pair of files would give a key. */
  ghost function PairOf(lim: Limits, files: Files, k: Key): Option<Entry> {
    if ValidPair(lim, files, k) then Some(CandidateOf(files[Metadata(k)].record).entry) else None
  }

  /** The entry that the pair of files on disk would give a key. */
  ghost function OnDisk(s: State, k: Key): Option<Entry> {
    PairOf(s.lim, s.disk, k)
  }

  /** A pair with its metadata file as found is one that was found. */
  lemma OldPairWasFound(s: State, h: Trace, k: Key)
    requires Inherits(s, h) && ValidPair(s.lim, s.disk, k) && StillThere(s, h, Metadata(k))
    ensures ValidPair(s.lim, h.found, k) && PairOf(s.lim, h.found, k) == OnDisk(s, k)
    ensures s.disk[Metadata(k)].record.path.Content? && s.disk[Metadata(k)].record.path.id < h.base
  {
    var r := s.disk[Metadata(k)].record;
    assert NameKnown(Metadata(k), h.found[Metadata(k)], h.base);
    assert StillThere(s, h, r.path) || Newer(r.path, s.disk[r.path], h.base);
  }

  /** A misfiled record is one that was found. */
  lemma MisfiledWasFound(s: State, h: Trace, f: FileName)
    requires Inherits(s, h) && CacheRecovery.Misfiled(s.disk, f)
    ensures StillThere(s, h, f) && CacheRecovery.Misfiled(h.found, f) && s.disk[f].record.path.id < h.base
  {
    assert StillThere(s, h, f) || Newer(f, s.disk[f], h.base);
    assert StillThere(s, h, f) ==> NameKnown(f, h.found[f], h.base);
  }

  lemma NoFalseClaims(s: State, h: Trace)
    requires Reached(s, h)
    ensures Unclaimed(s.lim, s.disk)
  {
    forall f, k | CacheRecovery.Misfiled(s.disk, f) && ValidPair(s.lim, s.disk, k)
      ensures s.disk[f].record.path != s.disk[Metadata(k)].record.path
    {
      MisfiledWasFound(s, h, f);
      assert StillThere(s, h, Metadata(k)) || Newer(Metadata(k), s.disk[Metadata(k)], h.base);
      if StillThere(s, h, Metadata(k)) {
        OldPairWasFound(s, h, k);
      }
    }
  }

  /** A whole record is accepted exactly when its content file is there: there is no other way to be invalid. */
  lemma RecordIsValidIff(s: State, k: Key)
    requires RecordOk(s, k)
    ensures ValidPair(s.lim, s.disk, k) <==> s.disk[Metadata(k)].record.path in s.disk
  {
  }

  /** Only a key in `ragged` may have a metadata file that is not a whole record of its own. */
  lemma RecordsAreWhole(s: State, k: Key)
    requires Inv(s) && Metadata(k) in s.disk && k !in s.ragged
    ensures RecordOk(s, k)
  {
    assert FileOk(s, Metadata(k));
  }

  lemma LivePairs(s: State, h: Trace, k: Key, e: Entry)
    requires Inv(s) && Tracked(s, h) && (k, e) in s.mem.entries && !Replacing(s, k)
    ensures k !in s.ragged && OnDisk(s, k) == Some(e)
  {
    LiveIsNamed(s, h, k, e);
    assert RecordLive(s, k, e) && EntryOnDisk(s, k, e);
    RecordsAreWhole(s, k);
    RecordIsValidIff(s, k);
  }

  lemma ReplacedPairs(s: State, k: Key)
    requires Inv(s) && Replacing(s, k)
    ensures OnDisk(s, k) == Some(EntryOf(PcOf(s, s.lock.value).record))
  {
    var pc := PcOf(s, s.lock.value);
    assert PublisherOk(s, s.lock.value) && TaskOk(s, s.lock.value);
  }

  /** The holder of the publish lock has still to delete the record of `k`, dropped with the content `p`. */
  ghost predicate DepartingWith(s: State, k: Key, p: FileName) {
    s.lock.Some? &&
    var pc := PcOf(s, s.lock.value);
    pc.Deleting? && exists d :: d in pc.doomed && d.withRecord && d.path == p && p.Content? && p.key == k
  }

  /** The last drop of the key left both files: neither the content `p` nor the record that names it could be removed. */
  ghost predicate LeftBehind(s: State, h: Trace, k: Key, p: FileName) {
    k in s.ragged && k in h.dropped && h.dropped[k] == p && p in h.stuck
  }

  /** The recovery before the run left both files of the pair, and the run has not touched it. */
  ghost predicate FoundBehind(s: State, h: Trace, k: Key) {
    k in s.ragged && k !in h.dropped && OnDisk(s, k) == PairOf(s.lim, h.found, k)
  }

  /** What a crash leaves of one key, wherever it strikes. */
  ghost predicate NeverAMix(s: State, h: Trace, k: Key) {
    // Whatever is there is whole.
    && (OnDisk(s, k).Some? ==>
          var e := OnDisk(s, k).value;
          e.path in s.disk && e.digest.Sha256? && s.disk[e.path] == Plain(e.digest.of) && e.size == |e.digest.of|)
    && (if Replacing(s, k) then OnDisk(s, k) == Some(EntryOf(PcOf(s, s.lock.value).record))
        else if LiveKey(s, k) then OnDisk(s, k) == Lru.Find(s.mem.entries, k)
        else OnDisk(s, k).Some? ==>
          || DepartingWith(s, k, OnDisk(s, k).value.path) || LeftBehind(s, h, k, OnDisk(s, k).value.path)
          || FoundBehind(s, h, k))
  }

  lemma RaggedPairs(s: State, h: Trace, k: Key)
    requires Inv(s) && Tracked(s, h) && Inherits(s, h) && k in s.ragged && !Replacing(s, k)
    ensures !LiveKey(s, k)
    ensures if k in h.dropped then
              && (OnDisk(s, k).Some? <==> h.dropped[k] in s.disk)
              && (OnDisk(s, k).Some? ==> OnDisk(s, k).value.path == h.dropped[k] && h.dropped[k] in h.stuck)
            else OnDisk(s, k) == PairOf(s.lim, h.found, k)
  {
    assert RaggedOk(s, h, k);
    hide Inv;
    hide Tracked;
    if k in h.dropped {
      RecordIsValidIff(s, k);
    } else {
      assert StillThere(s, h, Metadata(k));
      if ValidPair(s.lim, s.disk, k) {
        OldPairWasFound(s, h, k);
      } else if ValidPair(s.lim, h.found, k) {
        FoundPairStays(s, h, k);
      }
    }
  }

  /** Of a key whose metadata file is as found, the content is too. */
  lemma FoundPairStays(s: State, h: Trace, k: Key)
    requires Inherits(s, h) && AsFound(s, h, k) && ValidPair(s.lim, h.found, k)
    ensures ValidPair(s.lim, s.disk, k)
  {
    var p := h.found[Metadata(k)].record.path;
    assert p in h.spare && LeftAlone(s, p);
    assert StillThere(s, h, p) || Newer(p, s.disk[p], h.base);
    assert NameKnown(p, h.found[p], h.base);
  }

  /** A dropped key that is on its way out, or was left behind, is on disk with the content it was dropped with. */
  lemma DeadPairs(s: State, h: Trace, k: Key)
    requires Inv(s) && Tracked(s, h) && Inherits(s, h) && !LiveKey(s, k) && !Replacing(s, k) && OnDisk(s, k).Some?
    ensures DepartingWith(s, k, OnDisk(s, k).value.path) || LeftBehind(s, h, k, OnDisk(s, k).value.path) || FoundBehind(s, h, k)
  {
    if k in s.ragged {
      RaggedPairs(s, h, k);
    } else {
      assert Departing(s, k);
      var t := s.lock.value;
      var d :| d in PcOf(s, t).doomed && d.withRecord && d.path.Content? && d.path.key == k;
      assert DoomedTracked(s, h, t) && DoomedOk(s, h, d);
    }
  }

  lemma EveryKeyIsWhole(s: State, h: Trace, k: Key)
    requires Reached(s, h)
    ensures NeverAMix(s, h, k)
  {
    hide Inv;
    hide Tracked;
    hide Inherits;
    hide Unclaimed;
    hide DepartingWith;
    hide LeftBehind;
    hide FoundBehind;
    if Replacing(s, k) {
      ReplacedPairs(s, k);
    } else if LiveKey(s, k) {
      assert (k, Lru.Find(s.mem.entries, k).value) in s.mem.entries;
      LivePairs(s, h, k, Lru.Find(s.mem.entries, k).value);
    } else if OnDisk(s, k).Some? {
      DeadPairs(s, h, k);
    }
  }

  /**
   Exactly which keys without an entry come back after a crash, unless something is at work on them. A key dropped in
   this run comes back if and only if its record could not be removed and the content it was dropped with is still
   there, so both removals have failed; and then as that content. A key that was without an entry from the start comes
   back if and only if recovery had left both files of a valid pair and no publication of the key has come since; and
   then as that pair.
   */
  lemma ComesBackIff(s: State, actions: seq<Action>, k: Key)
    requires FreshStart(s) && CacheCoherence.Run(s, actions).Some?
    ensures var z, h := CacheCoherence.Run(s, actions).value, TraceOf(StartTrace(s), s, actions);
      !LiveKey(z, k) && !Replacing(z, k) && !Departing(z, k) ==>
        && (OnDisk(z, k).Some? <==> k in z.ragged && if k in h.dropped then h.dropped[k] in z.disk else OnDisk(s, k).Some?)
        && (OnDisk(z, k).Some? ==>
              if k in h.dropped then OnDisk(z, k).value.path == h.dropped[k] && h.dropped[k] in h.stuck
              else OnDisk(z, k) == OnDisk(s, k))
  {
    StartIsReached(s);
    RunKeepsReached(s, StartTrace(s), actions);
    var z, h := CacheCoherence.Run(s, actions).value, TraceOf(StartTrace(s), s, actions);
    hide FreshStart;
    hide Tracked;
    hide Inherits;
    if !Replacing(z, k) && k in z.ragged {
      RaggedPairs(z, h, k);
    }
  }

  /** A removal both of whose deletions fail. */
  function FailedDrop(t: Task, k: Key): seq<Action> {
    [Drop(t, k, Always), TakeOut(t), DeleteContent(t, false), DeleteRecord(t, false), Release(t)]
  }

  lemma DropStarts(s: State, t: Task, k: Key)
    requires PcOf(s, t).Idle?
    ensures Enabled(s, Drop(t, k, Always))
    ensures var s1 := Step(s, Drop(t, k, Always)); s1 == s.(pcs := s1.pcs) && PcOf(s1, t) == Removing(k, Always)
  {
  }

  lemma TakeOutTakes(s: State, t: Task, k: Key)
    requires PcOf(s, t) == Removing(k, Always) && s.lock == None && LiveKey(s, k)
    ensures Enabled(s, TakeOut(t))
    ensures var s2 := Step(s, TakeOut(t));
      && PcOf(s2, t) == Deleting([Doomed(Lru.Find(s.mem.entries, k).value.path, false, true)]) && s2.lock == Some(t)
      && s2.mem.entries == Lru.Without(s.mem.entries, k) && s2.disk == s.disk && s2.lim == s.lim
  {
    hide Bump;
    hide Lru.Without;
  }

  /** Nothing but the task and the histories has moved. */
  predicate SameFilesAndEntries(s: State, z: State) {
    z.mem == s.mem && z.disk == s.disk && z.lim == s.lim
  }

  lemma FailedContent(s: State, t: Task, p: FileName)
    requires PcOf(s, t) == Deleting([Doomed(p, false, true)]) && p in s.disk
    ensures Enabled(s, DeleteContent(t, false))
    ensures var z := Step(s, DeleteContent(t, false));
      SameFilesAndEntries(s, z) && z.lock == s.lock && PcOf(z, t) == Deleting([Doomed(p, true, true)])
  {
    CacheDirectory.DeleteContentStep(s, t, false);
    hide Step;
  }

  lemma FailedRecord(s: State, t: Task, p: FileName)
    requires PcOf(s, t) == Deleting([Doomed(p, true, true)]) && Metadata(KeyOf(p)) in s.disk
    ensures Enabled(s, DeleteRecord(t, false))
    ensures var z := Step(s, DeleteRecord(t, false)); SameFilesAndEntries(s, z) && z.lock == s.lock && PcOf(z, t) == Deleting([])
  {
    CacheDirectory.DeleteRecordStep(s, t, false);
    hide Step;
  }

  lemma ReleaseEnds(s: State, t: Task)
    requires PcOf(s, t) == Deleting([]) && s.lock == Some(t)
    ensures Enabled(s, Release(t))
    ensures var z := Step(s, Release(t)); SameFilesAndEntries(s, z) && z.lock == None
  {
  }

  lemma FailedDropRuns(s: State, t: Task, k: Key)
    requires s.lock == None && PcOf(s, t).Idle? && LiveKey(s, k)
    requires var p := Lru.Find(s.mem.entries, k).value.path; p in s.disk && Metadata(KeyOf(p)) in s.disk
    ensures CacheCoherence.Run(s, FailedDrop(t, k)).Some?
    ensures var z := CacheCoherence.Run(s, FailedDrop(t, k)).value;
      z.lock == None && z.disk == s.disk && z.lim == s.lim && z.mem.entries == Lru.Without(s.mem.entries, k)
  {
    hide Step;
    hide Enabled;
    hide Lru.Find;
    hide Lru.Without;
    var r, p := FailedDrop(t, k), Lru.Find(s.mem.entries, k).value.path;
    DropStarts(s, t, k);
    var s1 := Step(s, r[0]);
    TakeOutTakes(s1, t, k);
    var s2 := Step(s1, r[1]);
    FailedContent(s2, t, p);
    var s3 := Step(s2, r[2]);
    FailedRecord(s3, t, p);
    var s4 := Step(s3, r[3]);
    ReleaseEnds(s4, t);
    RunOfFive(s, r, s1, s2, s3, s4, Step(s4, r[4]));
  }

  /** It does happen: of any live key, after two failed deletions, the entry that was dropped is what recovery would find. */
  lemma DroppedKeyComesBack(s: State, h: Trace, t: Task, k: Key)
    requires Inv(s) && Tracked(s, h) && s.lock == None && PcOf(s, t).Idle? && LiveKey(s, k)
    ensures CacheCoherence.Run(s, FailedDrop(t, k)).Some?
    ensures var z := CacheCoherence.Run(s, FailedDrop(t, k)).value;
      !LiveKey(z, k) && z.lock == None && OnDisk(z, k) == Lru.Find(s.mem.entries, k)
  {
    var e := Lru.Find(s.mem.entries, k).value;
    assert (k, e) in s.mem.entries;
    LivePairs(s, h, k, e);
    assert EntryOnDisk(s, k, e) && RecordLive(s, k, e);
    hide Inv;
    hide Tracked;
    hide ValidPair;
    FailedDropRuns(s, t, k);
    WithoutIsDead(s.mem.entries, k);
  }

  lemma WithoutIsDead(l: Entries, k: Key)
    ensures Lru.Find(Lru.Without(l, k), k).None?
  {
    var w := Lru.Without(l, k);
    assert forall i | 0 <= i < |w| :: w[i] in w;
  }

  lemma RunOfFive(s: State, r: seq<Action>, s1: State, s2: State, s3: State, s4: State, s5: State)
    requires |r| == 5
    requires Enabled(s, r[0]) && s1 == Step(s, r[0]) && Enabled(s1, r[1]) && s2 == Step(s1, r[1])
    requires Enabled(s2, r[2]) && s3 == Step(s2, r[2]) && Enabled(s3, r[3]) && s4 == Step(s3, r[3])
    requires Enabled(s4, r[4]) && s5 == Step(s4, r[4])
    ensures CacheCoherence.Run(s, r) == Some(s5)
  {
    hide Step;
    hide Enabled;
    assert r[1..][1..] == r[2..] && r[2..][1..] == r[3..] && r[3..][1..] == r[4..] && r[4..][1..] == [];
    assert CacheCoherence.Run(s5, []) == Some(s5);
    assert CacheCoherence.Run(s4, r[4..]) == Some(s5);
    assert CacheCoherence.Run(s3, r[3..]) == Some(s5);
    assert CacheCoherence.Run(s2, r[2..]) == Some(s5);
    assert CacheCoherence.Run(s1, r[1..]) == Some(s5);
  }

  /** Recovery's candidates are the pairs on disk, so it returns the newest of those that fit. */
  lemma RecoveredIsOnDisk(s: State, listing: seq<FileName>)
    requires Inv(s) && Lists(listing, s.disk)
    ensures var all := Newest(SortByTime(Candidates(s.lim, s.disk, listing)));
      && Lru.Distinct(all)
      && (forall k, e :: (k, e) in all <==> OnDisk(s, k) == Some(e))
      && Recovered(s.lim, s.disk, listing) == Trim(all, s.lim)
  {
    SortedCandidates(s.lim, s.disk, listing);
  }

  /**
   Crash atomicity. Stop after any run, at any single file operation, and recover: for every key the recovered
   cache holds the entry the memory held, or the one a publication had already put on disk, or one just on its
   way out, or one whose removal had failed twice over, whole; a key of the old memory is missing only if the limits
   left no room for it.
   */
  lemma CrashIsAtomic(s: State, actions: seq<Action>, listing: seq<FileName>, k: Key)
    requires FreshStart(s) && CacheCoherence.Run(s, actions).Some?
    requires Lists(listing, CacheCoherence.Run(s, actions).value.disk)
    ensures var z := CacheCoherence.Run(s, actions).value;
      var r := Recovered(z.lim, z.disk, listing);
      var all := Newest(SortByTime(Candidates(z.lim, z.disk, listing)));
      && Unclaimed(z.lim, z.disk) && NeverAMix(z, TraceOf(StartTrace(s), s, actions), k)
      && (Lru.Find(r, k).Some? ==> Lru.Find(r, k) == OnDisk(z, k))
      && (OnDisk(z, k).Some? && Lru.Find(r, k).None? ==>
            exists n :: |r| <= n < |all| && all[n].0 == k && !Fits(all[..n + 1], z.lim))
  {
    StartIsReached(s);
    RunKeepsReached(s, StartTrace(s), actions);
    var z := CacheCoherence.Run(s, actions).value;
    NoFalseClaims(z, TraceOf(StartTrace(s), s, actions));
    EveryKeyIsWhole(z, TraceOf(StartTrace(s), s, actions), k);
    RecoveredIsOnDisk(z, listing);
    var all := Newest(SortByTime(Candidates(z.lim, z.disk, listing)));
    var r := Recovered(z.lim, z.disk, listing);
    TrimIsLongest(all, z.lim);
    hide Recovered;
    hide NeverAMix;
    hide OnDisk;
    hide Fits;
    hide Candidates;
    FoundOrTrimmed(z, all, r, k);
  }

  lemma FoundOrTrimmed(z: State, all: Entries, r: Entries, k: Key)
    requires r <= all && Lru.Distinct(all)
    requires forall n | |r| < n <= |all| :: !Fits(all[..n], z.lim)
    requires forall e :: (k, e) in all <==> OnDisk(z, k) == Some(e)
    ensures Lru.Find(r, k).Some? ==> Lru.Find(r, k) == OnDisk(z, k)
    ensures OnDisk(z, k).Some? && Lru.Find(r, k).None? ==>
      exists n :: |r| <= n < |all| && all[n].0 == k && !Fits(all[..n + 1], z.lim)
  {
    if Lru.Find(r, k).Some? {
      assert (k, Lru.Find(r, k).value) in r;
      assert forall p | p in r :: p in all;
    }
    if OnDisk(z, k).Some? && Lru.Find(r, k).None? {
      assert forall i | 0 <= i < |r| :: all[i].0 == r[i].0 != k;
      var n :| 0 <= n < |all| && all[n] == (k, OnDisk(z, k).value);
      assert n >= |r|;
      assert !Fits(all[..n + 1], z.lim);
    }
  }

  lemma {:induction false} FewerPairsSmaller(a: Entries, b: Entries)
    requires Lru.Distinct(a) && Lru.Distinct(b) && forall p | p in a :: p in b
    ensures |a| <= |b| && SizeOf(a) <= SizeOf(b)
  {
    if a != [] {
      var (k, e) := a[0];
      assert a[0] in b;
      Lru.FindIn(b, k, e);
      var t, w := a[1..], Lru.Without(b, k);
      Lru.WithoutDistinct(b, k);
      SizeOfWithout(b, k);
      assert forall i | 0 <= i < |t| :: t[i] == a[i + 1];
      forall p | p in t ensures p in w {
        var i :| 0 <= i < |t| && t[i] == p;
        assert a[i + 1] == p && p in a && p.0 != k;
      }
      FewerPairsSmaller(t, w);
    }
  }

  /** No publication or removal is under way, and of no key without an entry were both files left behind. */
  ghost predicate Quiet(s: State, h: Trace) {
    && Reached(s, h) && s.lock == None
    && forall k | k in s.ragged :: if k in h.dropped then h.dropped[k] !in s.disk else PairOf(s.lim, h.found, k).None?
  }

  /** Then memory and disk are one to one, but for metadata files that could not be removed and name nothing that counts. */
  lemma QuietDiskMirrorsMemory(s: State, h: Trace, k: Key)
    requires Quiet(s, h)
    ensures Metadata(k) in s.disk <==> LiveKey(s, k) || k in s.ragged
    ensures OnDisk(s, k) == Lru.Find(s.mem.entries, k)
  {
    if k in s.ragged {
      assert RaggedOk(s, h, k);
      RaggedPairs(s, h, k);
    } else if LiveKey(s, k) {
      assert (k, Lru.Find(s.mem.entries, k).value) in s.mem.entries;
      LivePairs(s, h, k, Lru.Find(s.mem.entries, k).value);
    }
  }

  /** Recovery round trip: it rebuilds the very entries memory held, and evicts none of them. */
  lemma RecoveryRoundTrip(s: State, h: Trace, listing: seq<FileName>)
    requires Quiet(s, h) && ValidLimits(s.lim) && Lists(listing, s.disk)
    ensures var r := Recovered(s.lim, s.disk, listing);
      && (forall p :: p in r <==> p in s.mem.entries)
      && (forall k :: Lru.Find(r, k) == Lru.Find(s.mem.entries, k))
      && |r| == |s.mem.entries| && SizeOf(r) == s.mem.currentBytes
  {
    var all := Newest(SortByTime(Candidates(s.lim, s.disk, listing)));
    RecoveredIsOnDisk(s, listing);
    forall p ensures p in all <==> p in s.mem.entries {
      QuietDiskMirrorsMemory(s, h, p.0);
      assert p == (p.0, p.1);
      Lru.FindIn(s.mem.entries, p.0, p.1);
    }
    FewerPairsSmaller(all, s.mem.entries);
    FewerPairsSmaller(s.mem.entries, all);
    forall k ensures Lru.Find(all, k) == Lru.Find(s.mem.entries, k) {
      if Lru.Find(all, k).Some? {
        Lru.FindIn(s.mem.entries, k, Lru.Find(all, k).value);
      } else if Lru.Find(s.mem.entries, k).Some? {
        Lru.FindIn(all, k, Lru.Find(s.mem.entries, k).value);
      }
    }
  }

  /**
   Deletions and their retries are harmless in every reachable state: no path queued, being deleted or being
   retried is a live entry's content, nor that of a publication under way; and the queue keeps its bound.
   */
  lemma DeletionsAreHarmless(s: State, actions: seq<Action>, p: FileName, t: Task)
    requires FreshStart(s) && CacheCoherence.Run(s, actions).Some?
    requires Condemned(CacheCoherence.Run(s, actions).value, p)
    ensures var z := CacheCoherence.Run(s, actions).value;
      && p.Content? && !IsLive(z, p) && |z.failed| <= QUEUE_LIMIT
      && (PcOf(z, t).Publishing? ==> PcOf(z, t).record.path != p)
  {
    CacheCoherence.InitialHoldsMemory(s);
    RunKeepsInv(s, actions);
    assert PublisherOk(CacheCoherence.Run(s, actions).value, t);
  }

  /** A `get` that finds its file gone was overtaken: a live entry's file is always there, whole. */
  lemma LiveFilesAreThere(s: State, actions: seq<Action>, k: Key)
    requires FreshStart(s) && CacheCoherence.Run(s, actions).Some?
    ensures var z := CacheCoherence.Run(s, actions).value;
      Lru.Find(z.mem.entries, k).Some? ==>
        var e := Lru.Find(z.mem.entries, k).value;
        e.path in z.disk && e.digest.Sha256? && z.disk[e.path] == Plain(e.digest.of) && |e.digest.of| == e.size
  {
    CacheCoherence.InitialHoldsMemory(s);
    RunKeepsInv(s, actions);
    var z := CacheCoherence.Run(s, actions).value;
    if Lru.Find(z.mem.entries, k).Some? {
      assert (k, Lru.Find(z.mem.entries, k).value) in z.mem.entries;
      assert EntryOnDisk(z, k, Lru.Find(z.mem.entries, k).value);
    }
  }

  /**
   What recovery left and no entry stands on stays as it is over the whole run: user files, temporary files, content of
   pairs beyond the limits. A metadata file so left stays until a publication of its key is about to replace it, or has.
   */
  lemma LeftoversStay(s: State, actions: seq<Action>, f: FileName)
    requires FreshStart(s) && CacheCoherence.Run(s, actions).Some? && f in s.disk
    ensures var z, h := CacheCoherence.Run(s, actions).value, TraceOf(StartTrace(s), s, actions);
      && (!f.Metadata? && !IsLive(s, f) ==> f in z.disk && z.disk[f] == s.disk[f])
      && (f.Metadata? && f.key in z.ragged && f.key !in h.dropped && !Replacing(z, f.key) ==>
            f in z.disk && z.disk[f] == s.disk[f])
  {
    StartIsReached(s);
    RunKeepsReached(s, StartTrace(s), actions);
    var z, h := CacheCoherence.Run(s, actions).value, TraceOf(StartTrace(s), s, actions);
    SpareIsConstant(StartTrace(s), s, actions);
    hide FreshStart;
    if f in h.spare {
      assert LeftAlone(z, f) && NameKnown(f, h.found[f], h.base);
      assert StillThere(z, h, f) || Newer(f, z.disk[f], h.base);
    }
    if f.Metadata? && f.key in z.ragged {
      assert RaggedOk(z, h, f.key);
    }
  }

  lemma {:induction false} SpareIsConstant(h: Trace, s: State, actions: seq<Action>)
    requires CacheCoherence.Run(s, actions).Some?
    ensures TraceOf(h, s, actions).spare == h.spare
    decreases |actions|
  {
    if actions != [] {
      assert NextTrace(h, s, actions[0]).spare == h.spare;
      hide Step;
      hide NextTrace;
      hide Enabled;
      SpareIsConstant(NextTrace(h, s, actions[0]), Step(s, actions[0]), actions[1..]);
    }
  }

  // ---- When recovery is not sound ----

  /** A record of key "b" filed under "a", claiming the content of b's valid pair. */
  function MisfiledPair(): Files {
    var r := Record(1, "b", Content("b", 0), 0, Sha256([]), Info(None, None), 0);
    map[Metadata("a") := Json(r), Metadata("b") := Json(r), Content("b", 0) := Plain([])]
  }

  lemma MisfiledRecordClaims(lim: Limits)
    ensures var f := MisfiledPair();
      && !Unclaimed(lim, f) && ValidPair(lim, f, "b") && CacheRecovery.Misfiled(f, Metadata("a"))
  {
    var f := MisfiledPair();
    assert "a"[0] != "b"[0];
    assert ValidPair(lim, f, "b") && CacheRecovery.Misfiled(f, Metadata("a"));
    assert f[Metadata("a")].record.path == f[Metadata("b")].record.path;
  }

  /** In whatever order it is listed, the first pass loses the valid pair of "b" when its removals succeed. */
  method LoseMisfiled(disk: Disk, lim: Limits, listing: seq<FileName>) returns (clean: bool)
    requires disk.files == MisfiledPair() && Lists(listing, disk.files)
    modifies disk
    ensures ValidPair(lim, old(disk.files), "b")
    ensures clean <==> disk.failures == old(disk.failures)
    ensures clean ==> Content("b", 0) !in disk.files
  {
    MisfiledRecordClaims(lim);
    var found;
    found, clean := FirstPass(disk, lim, listing);
  }
}
