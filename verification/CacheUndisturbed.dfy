/**
 A task that nobody interrupts and no file operation fails reaches what it set out for: a publication ends with its
 entry first in memory and its pair on disk, a removal with the entry and its files gone, a retry with the queued
 files gone. Runs of this kind exist from every state that the cache can be in.
 */
module CacheUndisturbed {
  import opened Basics
  import opened FileNames
  import opened CacheMemory
  import opened CacheStates
  import opened CacheProtocol
  import CacheCoherence
  import CacheCrash
  import CacheDirectory
  import Lru

  // ---- Runs ----

  lemma {:induction false} RunsJoin(s: State, a: seq<Action>, b: seq<Action>)
    requires CacheCoherence.Run(s, a).Some?
    ensures CacheCoherence.Run(s, a + b) == CacheCoherence.Run(CacheCoherence.Run(s, a).value, b)
    decreases |a|
  {
    hide Step;
    hide Enabled;
    if a == [] {
      assert a + b == b;
    } else {
      assert (a + b)[0] == a[0] && (a + b)[1..] == a[1..] + b;
      RunsJoin(Step(s, a[0]), a[1..], b);
    }
  }

  lemma RunStarts(s: State, a: Action, rest: seq<Action>)
    requires Enabled(s, a)
    ensures CacheCoherence.Run(s, [a] + rest) == CacheCoherence.Run(Step(s, a), rest)
  {
    hide Step;
    hide Enabled;
    assert ([a] + rest)[1..] == rest;
  }

  lemma RunOfNone(s: State)
    ensures CacheCoherence.Run(s, []) == Some(s)
  {
  }

  lemma TwoSteps(s: State, a: Action, b: Action, rest: seq<Action>)
    requires Inv(s) && Enabled(s, a) && Enabled(Step(s, a), b)
    ensures Inv(Step(Step(s, a), b))
    ensures CacheCoherence.Run(s, [a] + ([b] + rest)) == CacheCoherence.Run(Step(Step(s, a), b), rest)
  {
    hide *;
    CacheCrash.StepKeepsInv(s, a);
    CacheCrash.StepKeepsInv(Step(s, a), b);
    RunStarts(Step(s, a), b, rest);
    RunStarts(s, a, [b] + rest);
  }

  lemma ThreeSteps(s: State, a: Action, b: Action, c: Action, rest: seq<Action>)
    requires Inv(s) && Enabled(s, a) && Enabled(Step(s, a), b) && Enabled(Step(Step(s, a), b), c)
    ensures Inv(Step(Step(Step(s, a), b), c))
    ensures CacheCoherence.Run(s, [a] + ([b] + ([c] + rest))) == CacheCoherence.Run(Step(Step(Step(s, a), b), c), rest)
  {
    hide *;
    CacheCrash.StepKeepsInv(s, a);
    TwoSteps(Step(s, a), b, c, rest);
    RunStarts(s, a, [b] + ([c] + rest));
  }

  lemma RunOfOne(s: State, a: Action)
    requires Enabled(s, a)
    ensures CacheCoherence.Run(s, [a]) == Some(Step(s, a))
  {
    hide Step;
    hide Enabled;
    RunStarts(s, a, []);
    RunOfNone(Step(s, a));
    assert [a] + [] == [a];
  }

  /** The other tasks, S3 and the history of mutations are as they were. */
  ghost predicate OthersStay(s: State, z: State, t: Task) {
    && (forall u: Task | u != t :: PcOf(z, u) == PcOf(s, u))
    && z.s3 == s.s3 && z.lim == s.lim
  }

  // ---- A publication ----

  /** What a publication does next. */
  function Forward(t: Task, stage: Stage): Action {
    match stage
    case Started => WriteContent(t)
    case ContentWritten => WriteRecord(t)
    case BothWritten => Acquire(t)
    case Locked => Check(t, true, true)
    case Checked => RenameContent(t)
    case ContentRenamed => RenameRecord(t)
    case RecordRenamed => InsertEntry(t)
  }

  function After(stage: Stage): Stage {
    match stage
    case Started => ContentWritten
    case ContentWritten => BothWritten
    case BothWritten => Locked
    case Locked => Checked
    case Checked => ContentRenamed
    case ContentRenamed => RecordRenamed
    case RecordRenamed => RecordRenamed
  }

  function ToGo(stage: Stage): nat {
    match stage
    case Started => 6
    case ContentWritten => 5
    case BothWritten => 4
    case Locked => 3
    case Checked => 2
    case ContentRenamed => 1
    case RecordRenamed => 0
  }

  function PublishRun(t: Task, stage: Stage): seq<Action>
    decreases ToGo(stage)
  {
    if stage.RecordRenamed? then [InsertEntry(t)] else [Forward(t, stage)] + PublishRun(t, After(stage))
  }

  /** Nobody else holds the lock, and a guarded publication has not been overtaken. */
  predicate Unhindered(s: State, t: Task) {
    && PcOf(s, t).Publishing?
    && (s.lock.None? || s.lock == Some(t))
    && (PcOf(s, t).guard.IfGeneration? ==>
          Generation(s.mem.generations, PcOf(s, t).record.key) == PcOf(s, t).guard.expected)
  }

  /** The publication goes on; only files, the lock and the stage change. */
  ghost predicate OnlyFilesMove(s: State, z: State, t: Task) {
    && OthersStay(s, z, t) && z.mem == s.mem && z.busy == s.busy && z.nextId == s.nextId && z.failed == s.failed && z.ragged == s.ragged
    && PcOf(z, t).Publishing? && PcOf(s, t).Publishing? && PcOf(z, t) == PcOf(s, t).(stage := PcOf(z, t).stage)
  }

  /** The files that a stage needs are there. */
  lemma FilesAreThere(s: State, t: Task)
    requires Inv(s) && PcOf(s, t).Publishing?
    ensures var pc := PcOf(s, t);
      && (pc.stage.Checked? ==> TempOf(pc.record) in s.disk)
      && (pc.stage.ContentRenamed? ==> RecordTempOf(pc.record) in s.disk)
      && (pc.stage.RecordRenamed? ==>
            && Metadata(pc.record.key) in s.disk && s.disk[Metadata(pc.record.key)] == Json(pc.record)
            && pc.record.path in s.disk && s.disk[pc.record.path] == Plain(pc.data))
      && (HoldsLock(pc) <==> s.lock == Some(t))
      && pc.record.size <= s.lim.maxBytes && AnyLimits(s.lim) && Orderly(s.mem, s.lim)
  {
    assert PublisherOk(s, t) && TaskOk(s, t);
  }

  lemma WritesForward(s: State, t: Task)
    requires Unhindered(s, t) && (PcOf(s, t).stage.Started? || PcOf(s, t).stage.ContentWritten?)
    ensures var a := Forward(t, PcOf(s, t).stage);
      && Enabled(s, a) && OnlyFilesMove(s, Step(s, a), t) && PcOf(Step(s, a), t).stage == After(PcOf(s, t).stage)
      && Step(s, a).lock == s.lock
  {
    hide Generation;
  }

  lemma LocksForward(s: State, t: Task)
    requires Unhindered(s, t) && (PcOf(s, t).stage.BothWritten? || PcOf(s, t).stage.Locked?) && (HoldsLock(PcOf(s, t)) <==> s.lock == Some(t))
    ensures var a := Forward(t, PcOf(s, t).stage);
      && Enabled(s, a) && OnlyFilesMove(s, Step(s, a), t) && PcOf(Step(s, a), t).stage == After(PcOf(s, t).stage)
      && Step(s, a).lock == Some(t)
  {
    hide Generation;
  }

  lemma RenamesForward(s: State, t: Task)
    requires Unhindered(s, t) && (PcOf(s, t).stage.Checked? || PcOf(s, t).stage.ContentRenamed?)
    requires PcOf(s, t).stage.Checked? ==> TempOf(PcOf(s, t).record) in s.disk
    requires PcOf(s, t).stage.ContentRenamed? ==> RecordTempOf(PcOf(s, t).record) in s.disk
    ensures var a := Forward(t, PcOf(s, t).stage);
      && Enabled(s, a) && OnlyFilesMove(s, Step(s, a), t) && PcOf(Step(s, a), t).stage == After(PcOf(s, t).stage)
      && Step(s, a).lock == s.lock
  {
    hide Generation;
  }

  lemma GoesForward(s: State, t: Task)
    requires Inv(s) && Unhindered(s, t) && !PcOf(s, t).stage.RecordRenamed?
    ensures var a := Forward(t, PcOf(s, t).stage);
      && Enabled(s, a) && OnlyFilesMove(s, Step(s, a), t) && PcOf(Step(s, a), t).stage == After(PcOf(s, t).stage)
      && Unhindered(Step(s, a), t)
  {
    FilesAreThere(s, t);
    hide Inv;
    hide Generation;
    hide AnyLimits;
    hide Orderly;
    hide Step;
    hide Enabled;
    hide HoldsLock;
    match PcOf(s, t).stage
    case Started => WritesForward(s, t);
    case ContentWritten => WritesForward(s, t);
    case BothWritten => LocksForward(s, t);
    case Locked => LocksForward(s, t);
    case Checked => RenamesForward(s, t);
    case ContentRenamed => RenamesForward(s, t);
  }

  /**
   The publication of `t` that stood as in `s` has been inserted: its entry is the most recent, its pair is on disk, and
   every entry that is gone is to be deleted, with its record unless that is the one just replaced.
   */
  ghost predicate Published(s: State, z: State, t: Task) {
    PcOf(s, t).Publishing? && PcOf(z, t).Deleting? &&
    var Publishing(_, r, data, guard) := PcOf(s, t);
    && OthersStay(s, z, t) && z.busy == s.busy && z.nextId == s.nextId && z.failed == s.failed && z.lock == Some(t)
    && z.mem == Insert(s.mem, s.lim, r.key, EntryOf(r), guard).0 && z.ragged == s.ragged - {r.key}
    && z.mem.entries != [] && z.mem.entries[0] == (r.key, EntryOf(r))
    && Metadata(r.key) in z.disk && z.disk[Metadata(r.key)] == Json(r)
    && r.path in z.disk && z.disk[r.path] == Plain(data)
    && (forall d | d in PcOf(z, t).doomed :: !d.tried)
    && (forall p | p in s.mem.entries && p !in z.mem.entries :: Doomed(p.1.path, false, p.0 != r.key) in PcOf(z, t).doomed)
  }

  /** The insertion, when it comes. */
  lemma InsertionRuns(s: State, t: Task)
    requires Inv(s) && Unhindered(s, t) && PcOf(s, t).stage.RecordRenamed?
    ensures Enabled(s, InsertEntry(t)) && Inv(Step(s, InsertEntry(t))) && Published(s, Step(s, InsertEntry(t)), t)
  {
    FilesAreThere(s, t);
    assert Enabled(s, InsertEntry(t));
    var r := PcOf(s, t).record;
    hide Step;
    hide Enabled;
    hide Inv;
    hide Insert;
    hide Orderly;
    hide AnyLimits;
    hide Unhindered;
    CacheDirectory.InsertStep(s, t);
    CacheCoherence.InsertMoves(s, t);
    CacheCrash.StepKeepsInv(s, InsertEntry(t));
    InsertKeepsOrderly(s.mem, s.lim, r.key, EntryOf(r), PcOf(s, t).guard);
    InsertionDooms(s, t);
  }

  lemma InsertionDooms(s: State, t: Task)
    requires Inv(s) && Enabled(s, InsertEntry(t))
    ensures PcOf(s, t).Publishing? && PcOf(Step(s, InsertEntry(t)), t).Deleting?
    ensures var z := Step(s, InsertEntry(t));
      && (forall d | d in PcOf(z, t).doomed :: !d.tried)
      && (forall p | p in s.mem.entries && p !in z.mem.entries ::
            Doomed(p.1.path, false, p.0 != PcOf(s, t).record.key) in PcOf(z, t).doomed)
  {
    hide *;
    CacheDirectory.InsertStep(s, t);
    var z := Step(s, InsertEntry(t));
    forall p | p in s.mem.entries && p !in z.mem.entries
      ensures Doomed(p.1.path, false, p.0 != PcOf(s, t).record.key) in PcOf(z, t).doomed
    {
      CacheDirectory.InsertDooms(s, t, p);
    }
    forall d | d in PcOf(z, t).doomed ensures !d.tried {
      CacheDirectory.DoomedWereLive(s, t, d);
    }
  }

  lemma PublishedEarlier(s: State, s1: State, z: State, t: Task)
    requires OnlyFilesMove(s, s1, t) && Published(s1, z, t)
    ensures Published(s, z, t)
  {
    hide Insert;
  }

  lemma StageMoved(s: State, s1: State, t: Task)
    requires OnlyFilesMove(s, s1, t) && PcOf(s, t).Publishing? && !PcOf(s, t).stage.RecordRenamed?
    requires PcOf(s1, t).stage == After(PcOf(s, t).stage)
    ensures ToGo(PcOf(s1, t).stage) < ToGo(PcOf(s, t).stage)
    ensures PublishRun(t, PcOf(s, t).stage) == [Forward(t, PcOf(s, t).stage)] + PublishRun(t, PcOf(s1, t).stage)
  {
  }

  /** An unhindered publication is carried through: its next steps are possible to the end, and end it as published. */
  lemma {:induction false} PublicationRuns(s: State, t: Task)
    requires Inv(s) && Unhindered(s, t)
    ensures var r := PublishRun(t, PcOf(s, t).stage);
      && CacheCoherence.Run(s, r).Some? && Inv(CacheCoherence.Run(s, r).value)
      && Published(s, CacheCoherence.Run(s, r).value, t)
    decreases ToGo(PcOf(s, t).stage)
  {
    var stage := PcOf(s, t).stage;
    if stage.RecordRenamed? {
      hide Unhindered;
      hide Published;
      InsertionRuns(s, t);
      RunOfOne(s, InsertEntry(t));
    } else {
      var a := Forward(t, stage);
      GoesForward(s, t);
      hide Step;
      hide Enabled;
      hide Inv;
      hide Published;
      hide OnlyFilesMove;
      hide Unhindered;
      hide CacheCoherence.Run;
      CacheCrash.StepKeepsInv(s, a);
      StageMoved(s, Step(s, a), t);
      RunStarts(s, a, PublishRun(t, After(stage)));
      PublicationRuns(Step(s, a), t);
      PublishedEarlier(s, Step(s, a), CacheCoherence.Run(Step(s, a), PublishRun(t, After(stage))).value, t);
    }
  }


  // ---- Deletions ----

  /** The rest of a series of deletions, all of which succeed, and the release of the lock. */
  function DeletionRun(t: Task, ds: seq<Doomed>): seq<Action>
    decreases if ds != [] && ds[0].tried then 2 * |ds| - 1 else 2 * |ds|
  {
    if ds == [] then [Release(t)]
    else if ds[0].tried then [DeleteRecord(t, true)] + DeletionRun(t, ds[1..])
    else if ds[0].withRecord then [DeleteContent(t, true)] + DeletionRun(t, [ds[0].(tried := true)] + ds[1..])
    else [DeleteContent(t, true)] + DeletionRun(t, ds[1..])
  }

  /** The file is one that the deletions are to remove. */
  predicate ToGoAway(ds: seq<Doomed>, f: FileName) {
    exists i :: 0 <= i < |ds| && ((!ds[i].tried && f == ds[i].path) || (ds[i].withRecord && f == Metadata(KeyOf(ds[i].path))))
  }

  /** Memory is as it was, and of the files precisely the doomed ones are gone. */
  ghost predicate Deleted(s: State, z: State, ds: seq<Doomed>, t: Task) {
    && OthersStay(s, z, t) && PcOf(z, t).Idle? && z.lock.None?
    && z.mem == s.mem && z.nextId == s.nextId && z.failed == s.failed && z.ragged == s.ragged
    && (forall k :: k in z.busy <==> k in s.busy && s.busy[k] != t)
    && (forall f :: f in z.disk <==> f in s.disk && !ToGoAway(ds, f))
    && (forall f | f in z.disk :: z.disk[f] == s.disk[f])
  }

  lemma ReleaseRuns(s: State, t: Task)
    requires PcOf(s, t) == Deleting([]) && s.lock == Some(t)
    ensures Enabled(s, Release(t)) && Deleted(s, Step(s, Release(t)), [], t)
  {
  }

  /** What is left to go away after one removal. */
  lemma GoesAwayNext(ds: seq<Doomed>, f: FileName)
    requires ds != [] && (ds[0].tried ==> ds[0].withRecord)
    ensures var gone := if ds[0].tried then Metadata(KeyOf(ds[0].path)) else ds[0].path;
      var rest := if !ds[0].tried && ds[0].withRecord then [ds[0].(tried := true)] + ds[1..] else ds[1..];
      ToGoAway(ds, f) <==> f == gone || ToGoAway(rest, f)
  {
    GoesAwayFirst(ds[0], ds[1..], f);
    assert ds == [ds[0]] + ds[1..];
    if !ds[0].tried && ds[0].withRecord {
      GoesAwayFirst(ds[0].(tried := true), ds[1..], f);
    }
    hide ToGoAway;
  }

  lemma GoesAwayFirst(d: Doomed, rest: seq<Doomed>, f: FileName)
    ensures ToGoAway([d] + rest, f) <==>
      (!d.tried && f == d.path) || (d.withRecord && f == Metadata(KeyOf(d.path))) || ToGoAway(rest, f)
  {
    var ds := [d] + rest;
    if i :| 0 <= i < |rest| && ((!rest[i].tried && f == rest[i].path) || (rest[i].withRecord && f == Metadata(KeyOf(rest[i].path)))) {
      assert ds[i + 1] == rest[i];
    }
    assert ds[0] == d;
  }

  lemma DeletedEarlier(s: State, s1: State, z: State, ds: seq<Doomed>, rest: seq<Doomed>, gone: FileName, t: Task)
    requires forall f :: ToGoAway(ds, f) <==> f == gone || ToGoAway(rest, f)
    requires OthersStay(s, s1, t) && s1.mem == s.mem && s1.nextId == s.nextId && s1.failed == s.failed && s1.ragged == s.ragged
    requires s1.busy == s.busy && s1.disk == s.disk - {gone} && Deleted(s1, z, rest, t)
    ensures Deleted(s, z, ds, t)
  {
    hide ToGoAway;
  }

  /** A series of deletions that all succeed ends with precisely the doomed files gone and the lock free. */
  lemma {:induction false} DeletionsRun(s: State, t: Task, ds: seq<Doomed>)
    requires PcOf(s, t) == Deleting(ds) && s.lock == Some(t) && forall d | d in ds :: d.tried ==> d.withRecord
    ensures CacheCoherence.Run(s, DeletionRun(t, ds)).Some?
    ensures Deleted(s, CacheCoherence.Run(s, DeletionRun(t, ds)).value, ds, t)
    decreases if ds != [] && ds[0].tried then 2 * |ds| - 1 else 2 * |ds|
  {
    hide CacheCoherence.Run;
    if ds == [] {
      ReleaseRuns(s, t);
      hide Step;
      hide Enabled;
      hide Deleted;
      RunStarts(s, Release(t), []);
      RunOfNone(Step(s, Release(t)));
      assert DeletionRun(t, ds) == [Release(t)] + [];
    } else {
      var a := if ds[0].tried then DeleteRecord(t, true) else DeleteContent(t, true);
      var gone := if ds[0].tried then Metadata(KeyOf(ds[0].path)) else ds[0].path;
      var rest := if !ds[0].tried && ds[0].withRecord then [ds[0].(tried := true)] + ds[1..] else ds[1..];
      DeletionGoesOn(s, t, ds);
      hide Step;
      hide Enabled;
      hide ToGoAway;
      hide Deleted;
      forall f ensures ToGoAway(ds, f) <==> f == gone || ToGoAway(rest, f) {
        GoesAwayNext(ds, f);
      }
      DeletionsRun(Step(s, a), t, rest);
      RunStarts(s, a, DeletionRun(t, rest));
      DeletedEarlier(s, Step(s, a), CacheCoherence.Run(Step(s, a), DeletionRun(t, rest)).value, ds, rest, gone, t);
    }
  }

  lemma DeletionGoesOn(s: State, t: Task, ds: seq<Doomed>)
    requires PcOf(s, t) == Deleting(ds) && ds != [] && (ds[0].tried ==> ds[0].withRecord)
    ensures var a := if ds[0].tried then DeleteRecord(t, true) else DeleteContent(t, true);
      var gone := if ds[0].tried then Metadata(KeyOf(ds[0].path)) else ds[0].path;
      var rest := if !ds[0].tried && ds[0].withRecord then [ds[0].(tried := true)] + ds[1..] else ds[1..];
      && Enabled(s, a) && var s1 := Step(s, a);
      && PcOf(s1, t) == Deleting(rest) && s1.lock == s.lock
      && OthersStay(s, s1, t) && s1.mem == s.mem && s1.nextId == s.nextId && s1.failed == s.failed && s1.ragged == s.ragged
      && s1.busy == s.busy && s1.disk == s.disk - {gone}
  {
  }

  // ---- Whole operations ----

  /** A run of the publication from where it stands, to the release of the lock. */
  function WholePublication(s: State, t: Task): seq<Action>
    requires PcOf(s, t).Publishing?
  {
    var first := PublishRun(t, PcOf(s, t).stage);
    var z := CacheCoherence.Run(s, first);
    if z.Some? && PcOf(z.value, t).Deleting? then first + DeletionRun(t, PcOf(z.value, t).doomed) else first
  }

  /** What was published is the most recent entry and is on disk, and whatever it made go is gone from the disk. */
  ghost predicate Stored(before: Entries, y: State, r: Record, data: Bytes) {
    && y.mem.entries != [] && y.mem.entries[0] == (r.key, EntryOf(r))
    && r.path in y.disk && y.disk[r.path] == Plain(data)
    && Metadata(r.key) in y.disk && y.disk[Metadata(r.key)] == Json(r)
    && (forall p | p in before && p !in y.mem.entries ::
          p.1.path !in y.disk && (p.0 != r.key ==> Metadata(p.0) !in y.disk))
  }

  /** The task is done and holds nothing. */
  ghost predicate Over(s: State, y: State, t: Task) {
    && OthersStay(s, y, t) && PcOf(y, t).Idle? && y.lock.None? && y.failed == s.failed
    && (forall k :: k in y.busy <==> k in s.busy && s.busy[k] != t)
  }

  /** The pair just published is not among the files to go. */
  lemma PublishedPairStays(z: State, t: Task, r: Record)
    requires Inv(z) && PcOf(z, t).Deleting? && LiveKey(z, r.key)
    ensures !ToGoAway(PcOf(z, t).doomed, Metadata(r.key))
    ensures IsLive(z, r.path) ==> !ToGoAway(PcOf(z, t).doomed, r.path)
    ensures forall d | d in PcOf(z, t).doomed :: d.path.Content? && (d.tried ==> d.withRecord)
  {
    assert DeleterOk(z, t);
    var ds := PcOf(z, t).doomed;
    forall d | d in ds ensures Condemned(z, d.path) {
      assert DoomedPath(ds, d.path);
      assert CondemnedBy(PcOf(z, t), d.path);
    }
    hide FilesFine;
    hide PublishersOk;
    hide EntriesOnDisk;
    hide InvMemory;
  }

  lemma GoneFromDisk(s: State, ds: seq<Doomed>, p: (Key, Entry), withRecord: bool)
    requires Inv(s) && p in s.mem.entries && Doomed(p.1.path, false, withRecord) in ds
    ensures ToGoAway(ds, p.1.path) && (withRecord ==> ToGoAway(ds, Metadata(p.0)))
  {
    assert EntryOnDisk(s, p.0, p.1);
    var i :| 0 <= i < |ds| && ds[i] == Doomed(p.1.path, false, withRecord);
  }

  lemma StoredAtTheEnd(s: State, z: State, y: State, t: Task)
    requires Inv(s) && Inv(z) && Published(s, z, t) && Deleted(z, y, PcOf(z, t).doomed, t)
    ensures Stored(s.mem.entries, y, PcOf(s, t).record, PcOf(s, t).data)
  {
    var r, ds := PcOf(s, t).record, PcOf(z, t).doomed;
    hide Insert;
    hide ToGoAway;
    hide OthersStay;
    hide Inv;
    assert (r.key, EntryOf(r)) in z.mem.entries;
    assert LiveKey(z, r.key) && IsLive(z, r.path);
    PublishedPairStays(z, t, r);
    forall p | p in s.mem.entries && p !in y.mem.entries
      ensures p.1.path !in y.disk && (p.0 != r.key ==> Metadata(p.0) !in y.disk)
    {
      GoneFromDisk(s, ds, p, p.0 != r.key);
    }
  }

  lemma OverAtTheEnd(s: State, z: State, y: State, t: Task)
    requires Published(s, z, t) && Deleted(z, y, PcOf(z, t).doomed, t)
    ensures Over(s, y, t)
  {
    hide Insert;
    hide ToGoAway;
  }

  lemma PublicationEnds(s: State, t: Task)
    requires Inv(s) && Unhindered(s, t)
    ensures CacheCoherence.Run(s, WholePublication(s, t)).Some?
    ensures var y := CacheCoherence.Run(s, WholePublication(s, t)).value;
      Over(s, y, t) && Stored(s.mem.entries, y, PcOf(s, t).record, PcOf(s, t).data)
  {
    var first := PublishRun(t, PcOf(s, t).stage);
    PublicationRuns(s, t);
    var z := CacheCoherence.Run(s, first).value;
    hide CacheCoherence.Run;
    hide Inv;
    assert PcOf(z, t).Deleting? && z.lock == Some(t) by {
      hide Insert;
    }
    var ds := PcOf(z, t).doomed;
    assert forall d | d in ds :: !d.tried by {
      hide Insert;
    }
    hide Published;
    hide Unhindered;
    hide Deleted;
    hide Stored;
    hide Over;
    DeletionsRun(z, t, ds);
    RunsJoin(s, first, DeletionRun(t, ds));
    var y := CacheCoherence.Run(z, DeletionRun(t, ds)).value;
    StoredAtTheEnd(s, z, y, t);
    OverAtTheEnd(s, z, y, t);
  }

  lemma OverSince(s: State, s1: State, y: State, t: Task)
    requires OthersStay(s, s1, t) && s1.busy == s.busy && s1.failed == s.failed && Over(s1, y, t)
    ensures Over(s, y, t)
  {
  }

  function SaveRun(s: State, t: Task, key: Key, data: Bytes, info: Info, now: nat): seq<Action>
    requires PcOf(s, t).Idle? && key !in s.busy && |data| <= s.lim.maxBytes
  {
    var s2 := Step(Step(s, Mutate(t, key, Some(data))), MutatorPublish(t, info, now));
    [Mutate(t, key, Some(data))] + ([MutatorPublish(t, info, now)] + WholePublication(s2, t))
  }

  lemma SaveStarts(s: State, t: Task, key: Key, data: Bytes, info: Info, now: nat)
    requires s.lock.None? && PcOf(s, t).Idle? && key !in s.busy && |data| <= s.lim.maxBytes
    ensures var s1 := Step(s, Mutate(t, key, Some(data)));
      && Enabled(s1, MutatorPublish(t, info, now)) && var s2 := Step(s1, MutatorPublish(t, info, now));
      && PcOf(s2, t) == Publishing(Started, Record(1, key, Content(key, s.nextId), |data|, Sha256(data), info, now), data, Unconditional)
      && Unhindered(s2, t) && s2.s3 == s.s3[key := data] && s2.mem == s.mem && s2.lim == s.lim && s2.failed == s.failed
      && s2.busy == s.busy[key := t] && forall u: Task | u != t :: PcOf(s2, u) == PcOf(s, u)
  {
  }

  /**
   A save that nobody disturbs, from any state: it changes the object, and then holds it as the most recent entry with
   its pair on disk; what it evicted or replaced is gone from the disk, and the task holds neither lock nor key.
   */
  lemma UndisturbedSave(s: State, t: Task, key: Key, data: Bytes, info: Info, now: nat)
    requires Inv(s) && s.lock.None? && PcOf(s, t).Idle? && key !in s.busy && |data| <= s.lim.maxBytes
    ensures CacheCoherence.Run(s, SaveRun(s, t, key, data, info, now)).Some?
    ensures var y := CacheCoherence.Run(s, SaveRun(s, t, key, data, info, now)).value;
      && y.s3 == s.s3[key := data] && key !in y.busy && y.lock.None? && PcOf(y, t).Idle?
      && (forall u: Task | u != t :: PcOf(y, u) == PcOf(s, u))
      && Stored(s.mem.entries, y, Record(1, key, Content(key, s.nextId), |data|, Sha256(data), info, now), data)
  {
    var a, b := Mutate(t, key, Some(data)), MutatorPublish(t, info, now);
    SaveStarts(s, t, key, data, info, now);
    assert Enabled(s, a);
    hide Step;
    hide Enabled;
    hide Inv;
    hide Unhindered;
    hide WholePublication;
    hide Stored;
    var s2 := Step(Step(s, a), b);
    TwoSteps(s, a, b, WholePublication(s2, t));
    PublicationEnds(s2, t);
    hide CacheCoherence.Run;
  }

  function ReadRun(s: State, t: Task, key: Key, info: Info, now: nat): seq<Action>
    requires PcOf(s, t).Idle? && key in s.s3 && |s.s3[key]| <= s.lim.maxBytes
  {
    var s3 := Step(Step(Step(s, Capture(t, key)), Fetch(t)), ReaderPublish(t, info, now));
    [Capture(t, key)] + ([Fetch(t)] + ([ReaderPublish(t, info, now)] + WholePublication(s3, t)))
  }

  lemma ReadStarts(s: State, t: Task, key: Key, info: Info, now: nat)
    requires s.lock.None? && PcOf(s, t).Idle? && key in s.s3 && |s.s3[key]| <= s.lim.maxBytes
    ensures var s1 := Step(s, Capture(t, key));
      && Enabled(s1, Fetch(t)) && var s2 := Step(s1, Fetch(t));
      && Enabled(s2, ReaderPublish(t, info, now)) && var s3, data := Step(s2, ReaderPublish(t, info, now)), s.s3[key];
      && PcOf(s3, t) == Publishing(Started, Record(1, key, Content(key, s.nextId), |data|, Sha256(data), info, now), data,
                                   IfGeneration(Generation(s.mem.generations, key)))
      && Unhindered(s3, t) && s3.s3 == s.s3 && s3.mem == s.mem && s3.lim == s.lim && s3.failed == s.failed
      && s3.busy == s.busy && forall u: Task | u != t :: PcOf(s3, u) == PcOf(s, u)
  {
    hide Generation;
  }

  /** A read through the cache that nobody disturbs, from any state: it ends with the present object as the most recent entry. */
  lemma UndisturbedRead(s: State, t: Task, key: Key, info: Info, now: nat)
    requires Inv(s) && s.lock.None? && PcOf(s, t).Idle? && key in s.s3 && |s.s3[key]| <= s.lim.maxBytes
    ensures CacheCoherence.Run(s, ReadRun(s, t, key, info, now)).Some?
    ensures var y, data := CacheCoherence.Run(s, ReadRun(s, t, key, info, now)).value, s.s3[key];
      && Over(s, y, t) && Stored(s.mem.entries, y, Record(1, key, Content(key, s.nextId), |data|, Sha256(data), info, now), data)
  {
    var a, b, c := Capture(t, key), Fetch(t), ReaderPublish(t, info, now);
    ReadStarts(s, t, key, info, now);
    assert Enabled(s, a);
    hide Step;
    hide Enabled;
    hide Inv;
    hide Unhindered;
    hide WholePublication;
    hide Stored;
    var s3 := Step(Step(Step(s, a), b), c);
    ThreeSteps(s, a, b, c, WholePublication(s3, t));
    PublicationEnds(s3, t);
    hide CacheCoherence.Run;
    assert OthersStay(s, s3, t);
    hide OthersStay;
    hide Over;
    OverSince(s, s3, CacheCoherence.Run(s, ReadRun(s, t, key, info, now)).value, t);
  }

  // ---- A removal ----

  /** The file is the key's record, or the content of its pair. */
  ghost predicate OfPair(before: Entries, key: Key, f: FileName) {
    exists p :: p in before && p.0 == key && (f == p.1.path || f == Metadata(key))
  }

  /** The pair of the key, and its files, are gone if the condition held; nothing else was touched. */
  ghost predicate Removed(before: Entries, files: map<FileName, FileData>, y: State, key: Key, held: bool) {
    && (forall p :: p in y.mem.entries <==> p in before && !(held && p.0 == key))
    && (forall f :: f in y.disk <==> f in files && !(held && OfPair(before, key, f)))
    && (forall f | f in y.disk :: y.disk[f] == files[f])
  }

  /** The removal, under the lock, of what `t` is to take out. */
  function WholeRemoval(s: State, t: Task): seq<Action>
    requires Enabled(s, TakeOut(t))
  {
    var z := Step(s, TakeOut(t));
    [TakeOut(t)] + if PcOf(z, t).Deleting? then DeletionRun(t, PcOf(z, t).doomed) else []
  }

  /** What taking out dooms. */
  lemma TakesOut(s: State, t: Task)
    requires Enabled(s, TakeOut(t)) && Holds(s.mem, PcOf(s, t).key, PcOf(s, t).condition)
    ensures var z, key := Step(s, TakeOut(t)), PcOf(s, t).key;
      && OthersStay(s, z, t) && z.busy == s.busy && z.failed == s.failed && z.disk == s.disk && z.lock == Some(t)
      && z.mem.entries == Lru.Without(s.mem.entries, key)
      && PcOf(z, t) == Deleting(match Lru.Find(s.mem.entries, key) case None => [] case Some(e) => [Doomed(e.path, false, true)])
  {
    hide Bump;
    hide Lru.Without;
    hide Holds;
    hide PopBytes;
  }

  lemma OverAfterDeletions(s: State, z: State, y: State, ds: seq<Doomed>, t: Task)
    requires OthersStay(s, z, t) && z.busy == s.busy && z.failed == s.failed && Deleted(z, y, ds, t)
    ensures Over(s, y, t)
  {
    hide ToGoAway;
  }

  lemma RemovalEnds(s: State, t: Task)
    requires Inv(s) && Enabled(s, TakeOut(t)) && Holds(s.mem, PcOf(s, t).key, PcOf(s, t).condition)
    ensures CacheCoherence.Run(s, WholeRemoval(s, t)).Some?
    ensures var y := CacheCoherence.Run(s, WholeRemoval(s, t)).value;
      Over(s, y, t) && Removed(s.mem.entries, s.disk, y, PcOf(s, t).key, true)
  {
    var key := PcOf(s, t).key;
    TakesOut(s, t);
    hide Step;
    hide Enabled;
    hide Holds;
    hide Inv;
    hide Lru.Without;
    hide CacheCoherence.Run;
    var z := Step(s, TakeOut(t));
    var ds := PcOf(z, t).doomed;
    assert forall d | d in ds :: !d.tried;
    hide Lru.Find;
    DeletionsRun(z, t, ds);
    RunStarts(s, TakeOut(t), DeletionRun(t, ds));
    var y := CacheCoherence.Run(z, DeletionRun(t, ds)).value;
    OverAfterDeletions(s, z, y, ds, t);
    hide Deleted;
    hide Over;
    TakenOutMeans(s, z, y, t, key);
  }

  lemma TakenOutMeans(s: State, z: State, y: State, t: Task, key: Key)
    requires Inv(s) && PcOf(z, t).Deleting? && Deleted(z, y, PcOf(z, t).doomed, t)
    requires z.disk == s.disk && z.mem.entries == Lru.Without(s.mem.entries, key)
    requires PcOf(z, t).doomed == match Lru.Find(s.mem.entries, key) case None => [] case Some(e) => [Doomed(e.path, false, true)]
    ensures Removed(s.mem.entries, s.disk, y, key, true)
  {
    PairOf(s, key);
    hide Inv;
    hide OthersStay;
    var ds := PcOf(z, t).doomed;
    hide ToGoAway;
    hide OfPair;
    hide Lru.Find;
    forall f ensures ToGoAway(ds, f) <==> OfPair(s.mem.entries, key, f) {
      DoomsThePair(s.mem.entries, ds, key, f);
    }
  }

  lemma DoomsThePair(before: Entries, ds: seq<Doomed>, key: Key, f: FileName)
    requires forall p | p in before && p.0 == key :: Lru.Find(before, key) == Some(p.1) && KeyOf(p.1.path) == key
    requires Lru.Find(before, key).Some? ==> (key, Lru.Find(before, key).value) in before
    requires ds == match Lru.Find(before, key) case None => [] case Some(e) => [Doomed(e.path, false, true)]
    ensures ToGoAway(ds, f) <==> OfPair(before, key, f)
  {
    hide Lru.Find;
    if OfPair(before, key, f) {
      assert ds[0].withRecord;
    }
  }

  lemma PairOf(s: State, key: Key)
    requires Inv(s)
    ensures forall p | p in s.mem.entries && p.0 == key :: Lru.Find(s.mem.entries, key) == Some(p.1) && KeyOf(p.1.path) == key
    ensures Lru.Find(s.mem.entries, key).Some? ==> (key, Lru.Find(s.mem.entries, key).value) in s.mem.entries
  {
    assert Lru.Distinct(s.mem.entries) && EntriesOnDisk(s);
    hide Inv;
    forall p | p in s.mem.entries && p.0 == key ensures Lru.Find(s.mem.entries, key) == Some(p.1) && KeyOf(p.1.path) == key {
      assert EntryOnDisk(s, p.0, p.1);
      assert p == (key, p.1);
      Lru.FindIn(s.mem.entries, key, p.1);
    }
  }

  lemma RefusedStep(s: State, t: Task)
    requires Enabled(s, TakeOut(t)) && !Holds(s.mem, PcOf(s, t).key, PcOf(s, t).condition)
    ensures var z := Step(s, TakeOut(t)); Over(s, z, t) && PcOf(z, t).Idle? && z.mem == s.mem && z.disk == s.disk
  {
    hide Holds;
  }

  lemma RefusedRemoval(s: State, t: Task)
    requires Enabled(s, TakeOut(t)) && !Holds(s.mem, PcOf(s, t).key, PcOf(s, t).condition)
    ensures CacheCoherence.Run(s, WholeRemoval(s, t)).Some?
    ensures var y := CacheCoherence.Run(s, WholeRemoval(s, t)).value;
      Over(s, y, t) && Removed(s.mem.entries, s.disk, y, PcOf(s, t).key, false)
  {
    RefusedStep(s, t);
    var y := Step(s, TakeOut(t));
    RunStarts(s, TakeOut(t), []);
    RunOfNone(y);
    assert Removed(s.mem.entries, s.disk, y, PcOf(s, t).key, false);
    hide Removed;
    hide Over;
    hide Step;
    hide Enabled;
    hide Holds;
    hide CacheCoherence.Run;
  }

  lemma RemovalEndsEither(s: State, t: Task)
    requires Inv(s) && Enabled(s, TakeOut(t))
    ensures CacheCoherence.Run(s, WholeRemoval(s, t)).Some?
    ensures var y := CacheCoherence.Run(s, WholeRemoval(s, t)).value;
      Over(s, y, t) && Removed(s.mem.entries, s.disk, y, PcOf(s, t).key, Holds(s.mem, PcOf(s, t).key, PcOf(s, t).condition))
  {
    assert PcOf(s, t).Removing?;
    hide *;
    if Holds(s.mem, PcOf(s, t).key, PcOf(s, t).condition) {
      RemovalEnds(s, t);
    } else {
      RefusedRemoval(s, t);
    }
  }

  function DropRun(s: State, t: Task, key: Key, c: Condition): seq<Action>
    requires s.lock.None? && PcOf(s, t).Idle?
  {
    [Drop(t, key, c)] + WholeRemoval(Step(s, Drop(t, key, c)), t)
  }

  /**
   A removal that nobody disturbs, from any state: the entry and both its files are gone if the condition held, and nothing
   is touched if it did not.
   */
  lemma UndisturbedDrop(s: State, t: Task, key: Key, c: Condition)
    requires Inv(s) && s.lock.None? && PcOf(s, t).Idle?
    ensures CacheCoherence.Run(s, DropRun(s, t, key, c)).Some?
    ensures var y := CacheCoherence.Run(s, DropRun(s, t, key, c)).value;
      Over(s, y, t) && Removed(s.mem.entries, s.disk, y, key, Holds(s.mem, key, c))
  {
    var s1 := Step(s, Drop(t, key, c));
    DropStarts(s, t, key, c);
    hide Step;
    hide Enabled;
    hide Inv;
    hide Holds;
    hide Removed;
    hide WholeRemoval;
    CacheCrash.StepKeepsInv(s, Drop(t, key, c));
    RunStarts(s, Drop(t, key, c), WholeRemoval(s1, t));
    RemovalEndsEither(s1, t);
    hide CacheCoherence.Run;
    assert OthersStay(s, s1, t);
    hide OthersStay;
    hide Over;
    OverSince(s, s1, CacheCoherence.Run(s, DropRun(s, t, key, c)).value, t);
  }

  lemma DropStarts(s: State, t: Task, key: Key, c: Condition)
    requires s.lock.None? && PcOf(s, t).Idle?
    ensures Enabled(s, Drop(t, key, c)) && var s1 := Step(s, Drop(t, key, c));
      && PcOf(s1, t) == Removing(key, c) && Enabled(s1, TakeOut(t))
      && OthersStay(s, s1, t) && s1.mem == s.mem && s1.disk == s.disk && s1.failed == s.failed && s1.busy == s.busy
  {
    hide Holds;
  }

  function UncacheRun(s: State, t: Task, key: Key, after: Option<Bytes>): seq<Action>
    requires s.lock.None? && PcOf(s, t).Idle? && key !in s.busy
  {
    var s2 := Step(Step(s, Mutate(t, key, after)), MutatorRemove(t));
    [Mutate(t, key, after)] + ([MutatorRemove(t)] + WholeRemoval(s2, t))
  }

  lemma UncacheStarts(s: State, t: Task, key: Key, after: Option<Bytes>)
    requires s.lock.None? && PcOf(s, t).Idle? && key !in s.busy
    ensures var s1 := Step(s, Mutate(t, key, after));
      && Enabled(s1, MutatorRemove(t)) && var s2 := Step(s1, MutatorRemove(t));
      && PcOf(s2, t) == Removing(key, Always) && Enabled(s2, TakeOut(t)) && s2.mem == s.mem && s2.disk == s.disk && s2.lim == s.lim
      && s2.s3 == (if after.Some? then s.s3[key := after.value] else s.s3 - {key}) && s2.failed == s.failed
      && s2.busy == s.busy[key := t] && forall u: Task | u != t :: PcOf(s2, u) == PcOf(s, u)
  {
  }

  /**
   A mutation that drops the entry, as a deletion, a copy or a large upload does, ends undisturbed with the object
   changed and the entry and both its files gone.
   */
  lemma UndisturbedUncache(s: State, t: Task, key: Key, after: Option<Bytes>)
    requires Inv(s) && s.lock.None? && PcOf(s, t).Idle? && key !in s.busy
    ensures CacheCoherence.Run(s, UncacheRun(s, t, key, after)).Some?
    ensures var y := CacheCoherence.Run(s, UncacheRun(s, t, key, after)).value;
      && y.s3 == (if after.Some? then s.s3[key := after.value] else s.s3 - {key})
      && key !in y.busy && y.lock.None? && PcOf(y, t).Idle?
      && (forall u: Task | u != t :: PcOf(y, u) == PcOf(s, u))
      && Removed(s.mem.entries, s.disk, y, key, true)
  {
    var a, b := Mutate(t, key, after), MutatorRemove(t);
    UncacheStarts(s, t, key, after);
    assert Enabled(s, a);
    hide Step;
    hide Enabled;
    hide Inv;
    hide Removed;
    hide WholeRemoval;
    var s2 := Step(Step(s, a), b);
    TwoSteps(s, a, b, WholeRemoval(s2, t));
    RemovalEnds(s2, t);
    hide CacheCoherence.Run;
  }

  // ---- Reads that keep nothing ----

  function OversizedReadRun(s: State, t: Task, key: Key, info: Info, now: nat): seq<Action>
    requires s.lock.None? && PcOf(s, t).Idle? && key in s.s3 && |s.s3[key]| > s.lim.maxBytes
  {
    var s3 := Step(Step(Step(s, Capture(t, key)), Fetch(t)), ReaderPublish(t, info, now));
    [Capture(t, key)] + ([Fetch(t)] + ([ReaderPublish(t, info, now)] + WholeRemoval(s3, t)))
  }

  lemma OversizedReadStarts(s: State, t: Task, key: Key, info: Info, now: nat)
    requires s.lock.None? && PcOf(s, t).Idle? && key in s.s3 && |s.s3[key]| > s.lim.maxBytes
    ensures var s1 := Step(s, Capture(t, key));
      && Enabled(s1, Fetch(t)) && var s2 := Step(s1, Fetch(t));
      && Enabled(s2, ReaderPublish(t, info, now)) && var s3 := Step(s2, ReaderPublish(t, info, now));
      && PcOf(s3, t) == Removing(key, AtGeneration(Generation(s.mem.generations, key))) && Enabled(s3, TakeOut(t))
      && s3.s3 == s.s3 && s3.mem == s.mem && s3.disk == s.disk && s3.lim == s.lim && s3.failed == s.failed && s3.busy == s.busy
      && forall u: Task | u != t :: PcOf(s3, u) == PcOf(s, u)
  {
    hide Generation;
  }

  /** A read of an object too large to keep ends undisturbed with the older entry and its files gone. */
  lemma UndisturbedOversizedRead(s: State, t: Task, key: Key, info: Info, now: nat)
    requires Inv(s) && s.lock.None? && PcOf(s, t).Idle? && key in s.s3 && |s.s3[key]| > s.lim.maxBytes
    ensures CacheCoherence.Run(s, OversizedReadRun(s, t, key, info, now)).Some?
    ensures var y := CacheCoherence.Run(s, OversizedReadRun(s, t, key, info, now)).value;
      Over(s, y, t) && Removed(s.mem.entries, s.disk, y, key, true)
  {
    var a, b, c := Capture(t, key), Fetch(t), ReaderPublish(t, info, now);
    OversizedReadStarts(s, t, key, info, now);
    assert Enabled(s, a);
    hide Step;
    hide Enabled;
    hide Inv;
    hide Removed;
    hide WholeRemoval;
    var s3 := Step(Step(Step(s, a), b), c);
    ThreeSteps(s, a, b, c, WholeRemoval(s3, t));
    RemovalEnds(s3, t);
    hide CacheCoherence.Run;
    assert OthersStay(s, s3, t);
    hide OthersStay;
    hide Over;
    OverSince(s, s3, CacheCoherence.Run(s, OversizedReadRun(s, t, key, info, now)).value, t);
  }

  /** If the key was bumped since the read began, it ends with nothing touched. */
  lemma OvertakenOversizedRead(s: State, t: Task, info: Info, now: nat)
    requires Enabled(s, ReaderPublish(t, info, now)) && |PcOf(s, t).data| > s.lim.maxBytes && s.lock.None?
    requires Generation(s.mem.generations, PcOf(s, t).key) != PcOf(s, t).generation
    ensures var s1 := Step(s, ReaderPublish(t, info, now));
      && Enabled(s1, TakeOut(t)) && var z := Step(s1, TakeOut(t));
      Over(s, z, t) && z.mem == s.mem && z.disk == s.disk
  {
    hide Generation;
    var s1 := Step(s, ReaderPublish(t, info, now));
    assert !Holds(s1.mem, PcOf(s1, t).key, PcOf(s1, t).condition);
    RefusedStep(s1, t);
  }

  /** An overtaken read that is refused, and removes its temporary files, leaves the directory without them and memory as it was. */
  lemma RefusedReadLeavesNothing(s: State, t: Task)
    requires Enabled(s, Check(t, true, true)) && PcOf(s, t).guard.IfGeneration?
    requires Generation(s.mem.generations, PcOf(s, t).record.key) != PcOf(s, t).guard.expected
    ensures var z, r := Step(s, Check(t, true, true)), PcOf(s, t).record;
      && z.mem == s.mem && z.s3 == s.s3 && PcOf(z, t).Idle? && (s.lock == Some(t) ==> z.lock.None?)
      && (forall f :: f in z.disk <==> f in s.disk && f != TempOf(r) && f != RecordTempOf(r))
      && (forall f | f in z.disk :: z.disk[f] == s.disk[f])
  {
    hide Generation;
  }

  /**
   A task that gives up holds neither lock nor key, and leaves memory and S3 as they are; of what it was writing, a part
   may stay behind as a temporary file.
   */
  lemma GivingUpEnds(s: State, t: Task, partial: Option<Bytes>)
    requires Enabled(s, Abandon(t, partial))
    ensures var z, pc := Step(s, Abandon(t, partial)), PcOf(s, t);
      && OthersStay(s, z, t) && PcOf(z, t).Idle? && z.lock != Some(t) && z.mem == s.mem && z.failed == s.failed
      && (forall k :: k in z.busy <==> k in s.busy && s.busy[k] != t)
      && (if partial.Some? && pc.Publishing? && pc.stage.Started? then
            z.disk == s.disk[ContentTemp(pc.record.key, IdOf(pc.record.path)) := Plain(partial.value)]
          else if partial.Some? && pc.Publishing? && pc.stage.ContentWritten? then
            z.disk == s.disk[MetadataTemp(pc.record.key, IdOf(pc.record.path)) := Plain(partial.value)]
          else z.disk == s.disk)
  {
    LeavesPart(s, t, partial);
    hide AfterAbandon;
    assert Step(s, Abandon(t, partial)) == AfterAbandon(s, t, partial);
  }

  lemma LeavesPart(s: State, t: Task, partial: Option<Bytes>)
    ensures var z, pc := AfterAbandon(s, t, partial), PcOf(s, t);
      && z == Finish(s, t).(disk := z.disk)
      && (if partial.Some? && pc.Publishing? && pc.stage.Started? then
            z.disk == s.disk[ContentTemp(pc.record.key, IdOf(pc.record.path)) := Plain(partial.value)]
          else if partial.Some? && pc.Publishing? && pc.stage.ContentWritten? then
            z.disk == s.disk[MetadataTemp(pc.record.key, IdOf(pc.record.path)) := Plain(partial.value)]
          else z.disk == s.disk)
  {
    var pc, z := PcOf(s, t), AfterAbandon(s, t, partial);
    if partial.Some? && pc.Publishing? && (pc.stage.Started? || pc.stage.ContentWritten?) {
      var f := if pc.stage.Started? then TempOf(pc.record) else RecordTempOf(pc.record);
      assert z.disk == s.disk + map[f := Plain(partial.value)];
    } else {
      assert z.disk == s.disk + map[];
    }
  }

  // ---- A retry ----

  /** `n` removals that all go the same way. */
  function RetryRun(t: Task, n: nat, ok: bool): seq<Action> {
    if n == 0 then [FinishRetry(t)] else [RetryOne(t, ok)] + RetryRun(t, n - 1, ok)
  }

  ghost predicate Retried(s: State, y: State, t: Task, ok: bool, todo: seq<FileName>, back: seq<FileName>) {
    && OthersStay(s, y, t) && PcOf(y, t).Idle? && y.mem == s.mem
    && (forall f :: f in y.disk <==> f in s.disk && !(ok && f in todo))
    && (forall f | f in y.disk :: y.disk[f] == s.disk[f])
    && y.failed == PushedAll(s.failed, back)
  }

  lemma FinishesRetry(s: State, t: Task, back: seq<FileName>, ok: bool)
    requires PcOf(s, t) == Retrying([], back)
    ensures Enabled(s, FinishRetry(t)) && Retried(s, Step(s, FinishRetry(t)), t, ok, [], back)
  {
    hide PushedAll;
  }

  lemma RetryGoesOn(s: State, t: Task, todo: seq<FileName>, back: seq<FileName>, ok: bool)
    requires PcOf(s, t) == Retrying(todo, back) && todo != [] && (ok || todo[0] in s.disk)
    ensures Enabled(s, RetryOne(t, ok)) && var s1 := Step(s, RetryOne(t, ok));
      && PcOf(s1, t) == Retrying(todo[1..], if ok then back else back + [todo[0]]) && OthersStay(s, s1, t)
      && s1.disk == (if ok then s.disk - {todo[0]} else s.disk) && s1.mem == s.mem && s1.failed == s.failed
  {
    CacheCoherence.RetryOneMoves(s, t, ok);
    CacheDirectory.RetryOneStep(s, t, ok);
    hide Step;
  }

  lemma RetriedEarlier(s: State, s1: State, y: State, t: Task, ok: bool, todo: seq<FileName>, back: seq<FileName>)
    requires todo != [] && OthersStay(s, s1, t) && s1.disk == (if ok then s.disk - {todo[0]} else s.disk)
    requires s1.mem == s.mem && s1.failed == s.failed && Retried(s1, y, t, ok, todo[1..], back)
    ensures Retried(s, y, t, ok, todo, back)
  {
    hide PushedAll;
    assert forall f :: f in todo <==> f == todo[0] || f in todo[1..];
  }

  lemma {:induction false} RetriesRun(s: State, t: Task, todo: seq<FileName>, back: seq<FileName>, ok: bool)
    requires PcOf(s, t) == Retrying(todo, back) && (ok || forall p | p in todo :: p in s.disk)
    ensures CacheCoherence.Run(s, RetryRun(t, |todo|, ok)).Some?
    ensures Retried(s, CacheCoherence.Run(s, RetryRun(t, |todo|, ok)).value, t, ok, todo, if ok then back else back + todo)
    decreases |todo|
  {
    if todo == [] {
      FinishesRetry(s, t, back, ok);
      assert back + todo == back;
      hide Retried;
      RunOfOne(s, FinishRetry(t));
    } else {
      RetryGoesOn(s, t, todo, back, ok);
      hide Step;
      hide Enabled;
      hide Retried;
      hide OthersStay;
      hide CacheCoherence.Run;
      var s1 := Step(s, RetryOne(t, ok));
      assert ok || forall p | p in todo[1..] :: p in s1.disk;
      RetriesRun(s1, t, todo[1..], if ok then back else back + [todo[0]], ok);
      RunStarts(s, RetryOne(t, ok), RetryRun(t, |todo| - 1, ok));
      assert back + [todo[0]] + todo[1..] == back + todo;
      RetriedEarlier(s, s1, CacheCoherence.Run(s1, RetryRun(t, |todo| - 1, ok)).value, t, ok, todo, if ok then back else back + todo);
    }
  }

  /**
   A retry of the first `n` queued deletions that nobody disturbs: when all succeed the files are gone and off the
   queue; when all fail, of files that are there, they are queued again behind the others.
   */
  lemma UndisturbedRetry(s: State, t: Task, n: nat, ok: bool)
    requires PcOf(s, t).Idle? && n <= |s.failed| && n <= RETRIES_PER_TICK && (ok || forall p | p in s.failed[..n] :: p in s.disk)
    ensures var run := [StartRetry(t, n)] + RetryRun(t, n, ok);
      && CacheCoherence.Run(s, run).Some? && var y := CacheCoherence.Run(s, run).value;
      && OthersStay(s, y, t) && PcOf(y, t).Idle? && y.mem == s.mem
      && (forall f :: f in y.disk <==> f in s.disk && !(ok && f in s.failed[..n]))
      && y.failed == if ok then s.failed[n..] else PushedAll(s.failed[n..], s.failed[..n])
  {
    var s1 := Step(s, StartRetry(t, n));
    assert Enabled(s, StartRetry(t, n)) && PcOf(s1, t) == Retrying(s.failed[..n], []);
    assert OthersStay(s, s1, t) && s1.mem == s.mem && s1.disk == s.disk && s1.failed == s.failed[n..];
    hide Step;
    hide Enabled;
    RunStarts(s, StartRetry(t, n), RetryRun(t, n, ok));
    RetriesRun(s1, t, s.failed[..n], [], ok);
    assert [] + s.failed[..n] == s.failed[..n];
    assert PushedAll(s.failed[n..], []) == s.failed[n..];
    hide CacheCoherence.Run;
  }
}
