/** Every step keeps the invariant on the cache directory. */
module CacheDirectory {
  import opened Basics
  import opened FileNames
  import opened CacheMemory
  import opened CacheStates
  import opened CacheProtocol
  import CacheCoherence
  import Lru

  predicate SameFile(s: State, s': State, f: FileName) {
    (f in s.disk <==> f in s'.disk) && (f in s.disk ==> s.disk[f] == s'.disk[f])
  }

  /** The temporary files of a publishing task. */
  predicate OwnTemp(s: State, t: Task, f: FileName) {
    PcOf(s, t).Publishing? && (f == TempOf(PcOf(s, t).record) || f == RecordTempOf(PcOf(s, t).record))
  }

  /** A publication goes on, short of its last rename, or starts under a fresh name. */
  ghost predicate GoesOn(s: State, s': State, t: Task) {
    var pc, pc' := PcOf(s, t), PcOf(s', t);
    pc'.Publishing? ==>
      if pc.Publishing? then
        && pc'.record == pc.record && pc'.data == pc.data && !pc.stage.RecordRenamed? && !pc'.stage.RecordRenamed?
        && FilesOk(s', pc'.stage, pc'.record, pc'.data)
      else pc'.record.path.Content? && pc'.record.path.id >= s.nextId && pc'.stage.Started?
  }

  /** A step of `t` that changes no entry, deletes nothing and, on disk, changes at most its own temporary files. */
  ghost predicate QuietOnDisk(s: State, s': State, t: Task) {
    && s'.lim == s.lim && s'.mem.entries == s.mem.entries && s'.ragged == s.ragged && s'.nextId >= s.nextId
    && (forall f | !OwnTemp(s, t, f) :: SameFile(s, s', f))
    && (forall u: Task | u != t :: PcOf(s', u) == PcOf(s, u))
    && !PcOf(s', t).Deleting? && GoesOn(s, s', t)
    && (forall k :: Replacing(s', k) <==> Replacing(s, k))
    && (forall k :: Departing(s, k) ==> Departing(s', k))
    && |s'.failed| <= QUEUE_LIMIT
    && (forall p | Condemned(s', p) :: Condemned(s, p))
  }

  lemma NamedSame(s: State, s': State, p: FileName)
    requires forall k :: SameFile(s, s', Metadata(k))
    ensures Named(s', p) <==> Named(s, p)
  {
    if Named(s', p) {
      var k :| Metadata(k) in s'.disk && s'.disk[Metadata(k)].Json? && s'.disk[Metadata(k)].record.path == p;
      assert SameFile(s, s', Metadata(k));
    }
    if Named(s, p) {
      var k :| Metadata(k) in s.disk && s.disk[Metadata(k)].Json? && s.disk[Metadata(k)].record.path == p;
      assert SameFile(s, s', Metadata(k));
    }
  }

  lemma QuietPublisher(s: State, s': State, t: Task, u: Task)
    requires Inv(s) && InvMemory(s') && QuietOnDisk(s, s', t)
    requires u == t ==> PcOf(s', t).Publishing? ==> PcOf(s, t).Publishing?
    ensures PublisherOk(s', u)
  {
    assert PublisherOk(s, u) && TaskOk(s, u) && TaskOk(s', u);
    var pc := PcOf(s', u);
    if pc.Publishing? {
      var path := pc.record.path;
      NamedSame(s, s', path);
      forall v: Task | v != u && PcOf(s', v).Publishing? ensures PcOf(s', v).record.path != path {
        assert TaskOk(s, v) && PublisherOk(s, v);
        if v == t && !PcOf(s, t).Publishing? {
          assert path.id < s.nextId;
        }
      }
      if u != t {
        assert FilesOk(s, pc.stage, pc.record, pc.data);
        FilesApart(s, t, u);
        SameFilesOk(s, s', pc.stage, pc.record, pc.data);
      }
    }
  }

  /** No file of one publication is a temporary file of another. */
  lemma FilesApart(s: State, t: Task, u: Task)
    requires Inv(s) && t != u && PcOf(s, u).Publishing?
    ensures var r := PcOf(s, u).record;
      !OwnTemp(s, t, TempOf(r)) && !OwnTemp(s, t, RecordTempOf(r)) && !OwnTemp(s, t, r.path) && !OwnTemp(s, t, Metadata(r.key))
  {
    assert TaskOk(s, u) && TaskOk(s, t) && PublisherOk(s, u);
  }

  lemma SameFilesOk(s: State, s': State, stage: Stage, r: Record, data: Bytes)
    requires FilesOk(s, stage, r, data)
    requires SameFile(s, s', TempOf(r)) && SameFile(s, s', RecordTempOf(r)) && SameFile(s, s', r.path)
    requires stage.RecordRenamed? ==> SameFile(s, s', Metadata(r.key))
    ensures FilesOk(s', stage, r, data)
  {
  }

  /** Every content path in use carries a name already given out. */
  lemma KnownPathsAreMade(s: State, p: FileName)
    requires Inv(s)
    ensures IsLive(s, p) || Condemned(s, p) || (Named(s, p) && p.Content?) ==> Made(s, p)
  {
    if Named(s, p) {
      var k :| Metadata(k) in s.disk && s.disk[Metadata(k)].Json? && s.disk[Metadata(k)].record.path == p;
      assert FileOk(s, Metadata(k));
    }
    if IsLive(s, p) {
      var q :| q in s.mem.entries && q.1.path == p;
      assert EntryOnDisk(s, q.0, q.1);
    }
  }

  /** A path with a fresh name is nowhere yet. */
  lemma FreshPublisher(s: State, s': State, t: Task)
    requires Inv(s) && InvMemory(s') && QuietOnDisk(s, s', t)
    requires PcOf(s', t).Publishing? && !PcOf(s, t).Publishing?
    ensures PublisherOk(s', t)
  {
    var path := PcOf(s', t).record.path;
    NamedSame(s, s', path);
    KnownPathsAreMade(s, path);
    forall v: Task | v != t && PcOf(s', v).Publishing? ensures PcOf(s', v).record.path != path {
      assert TaskOk(s, v);
    }
  }

  lemma QuietKeepsTasks(s: State, s': State, t: Task)
    requires Inv(s) && InvMemory(s') && QuietOnDisk(s, s', t)
    ensures PublishersOk(s') && DeletersOk(s')
  {
    hide PublisherOk;
    forall u: Task ensures PublisherOk(s', u) && DeleterOk(s', u) {
      assert DeleterOk(s, u);
      if u == t && PcOf(s', t).Publishing? && !PcOf(s, t).Publishing? {
        FreshPublisher(s, s', t);
      } else {
        QuietPublisher(s, s', t, u);
      }
    }
  }

  lemma QuietKeepsFiles(s: State, s': State, t: Task)
    requires Inv(s) && QuietOnDisk(s, s', t)
    ensures FilesFine(s')
  {
    assert TaskOk(s, t);
    hide InvMemory;
    hide Condemned;
    hide PublisherOk;
    forall f | f in s'.disk ensures FileOk(s', f) {
      if !OwnTemp(s, t, f) {
        assert SameFile(s, s', f) && FileOk(s, f);
        if f.Metadata? && s.disk[f].Json? {
          assert !OwnTemp(s, t, s.disk[f].record.path) ==> SameFile(s, s', s.disk[f].record.path);
        }
      }
    }
  }

  lemma QuietKeepsRecords(s: State, s': State, t: Task)
    requires Inv(s) && QuietOnDisk(s, s', t)
    ensures EntriesOnDisk(s') && LiveRecordsOnDisk(s') && NoStrayRecords(s')
  {
    hide InvMemory;
    hide Condemned;
    hide PublisherOk;
    hide FileOk;
    hide GoesOn;
    forall p | p in s'.mem.entries ensures EntryOnDisk(s', p.0, p.1) {
      assert EntryOnDisk(s, p.0, p.1) && SameFile(s, s', p.1.path);
    }
    forall p | p in s'.mem.entries && p.0 !in s'.ragged && !Replacing(s', p.0) ensures RecordLive(s', p.0, p.1) {
      assert RecordLive(s, p.0, p.1) && SameFile(s, s', Metadata(p.0));
    }
    forall k | Metadata(k) in s'.disk && k !in s'.ragged && !LiveKey(s', k)
      ensures Replacing(s', k) || Departing(s', k)
    {
      assert SameFile(s, s', Metadata(k)) && !LiveKey(s, k);
    }
  }

  lemma QuietKeepsDirectory(s: State, s': State, t: Task)
    requires Inv(s) && InvMemory(s') && QuietOnDisk(s, s', t)
    ensures InvDisk(s')
  {
    QuietKeepsTasks(s, s', t);
    QuietKeepsFiles(s, s', t);
    QuietKeepsRecords(s, s', t);
    hide InvMemory;
    hide EntriesOnDisk;
    hide FilesFine;
    hide PublishersOk;
    hide DeletersOk;
    hide LiveRecordsOnDisk;
    hide NoStrayRecords;
    forall p | Condemned(s', p) ensures Made(s', p) && !IsLive(s', p) {
      assert Condemned(s, p) && Made(s, p) && !IsLive(s, p);
    }
  }

  /** The task's own part of what is condemned is the only part a step of it can change. */
  lemma CondemnedFrame(s: State, s': State, t: Task)
    requires forall u: Task | u != t :: PcOf(s', u) == PcOf(s, u)
    requires forall p | p in s'.failed || CondemnedBy(PcOf(s', t), p) :: Condemned(s, p)
    ensures forall p | Condemned(s', p) :: Condemned(s, p)
  {
    forall p | Condemned(s', p) ensures Condemned(s, p) {
      if p !in s'.failed {
        var u: Task :| CondemnedBy(PcOf(s', u), p);
        if u != t {
          assert CondemnedBy(PcOf(s, u), p);
        }
      }
    }
  }

  // ---- The quiet steps ----

  /** What a quiet step needs of its task. */
  ghost predicate Ready(s: State, t: Task) {
    && TaskOk(s, t) && (HoldsLock(PcOf(s, t)) <==> s.lock == Some(t)) && |s.failed| <= QUEUE_LIMIT
    && (PcOf(s, t).Publishing? ==> FilesOk(s, PcOf(s, t).stage, PcOf(s, t).record, PcOf(s, t).data))
  }

  lemma InvReady(s: State, t: Task)
    requires Inv(s)
    ensures Ready(s, t)
  {
    hide TaskOk;
    hide FilesOk;
    assert TaskOk(s, t) && PublisherOk(s, t) && (HoldsLock(PcOf(s, t)) <==> s.lock == Some(t));
  }

  /** Only `t` moves; it neither replaces a record nor deletes, before or after, and condemns nothing new. */
  lemma MoveIsQuiet(s: State, s': State, t: Task)
    requires forall u: Task | u != t :: PcOf(s', u) == PcOf(s, u)
    requires s'.lim == s.lim && s'.mem.entries == s.mem.entries && s'.ragged == s.ragged && s'.nextId >= s.nextId
    requires s'.lock == s.lock || (s.lock in {None, Some(t)} && s'.lock in {None, Some(t)})
    requires PcOf(s, t).Publishing? ==> !PcOf(s, t).stage.RecordRenamed?
    requires PcOf(s, t).Deleting? ==> PcOf(s, t).doomed == []
    requires !PcOf(s', t).Deleting? && GoesOn(s, s', t)
    requires forall f | !OwnTemp(s, t, f) :: SameFile(s, s', f)
    requires |s'.failed| <= QUEUE_LIMIT
    requires forall p | p in s'.failed || CondemnedBy(PcOf(s', t), p) :: p in s.failed || CondemnedBy(PcOf(s, t), p)
    ensures QuietOnDisk(s, s', t)
  {
    CondemnedFrame(s, s', t);
    hide Condemned;
    hide OwnTemp;
    hide SameFile;
    assert PcOf(s', t).Publishing? ==> !PcOf(s', t).stage.RecordRenamed?;
    hide GoesOn;
  }

  lemma ReaderIsQuiet(s: State, a: Action)
    requires Enabled(s, a) && (a.Capture? || a.Fetch? || a.Drop?) && Ready(s, a.t)
    ensures QuietOnDisk(s, Step(s, a), a.t)
  {
    hide Generation;
    hide TaskOk;
    MoveIsQuiet(s, Step(s, a), a.t);
  }

  lemma MutateIsQuiet(s: State, t: Task, key: Key, after: Option<Bytes>)
    requires Ready(s, t) && Enabled(s, Mutate(t, key, after))
    ensures QuietOnDisk(s, Step(s, Mutate(t, key, after)), t)
  {
    hide TaskOk;
    MoveIsQuiet(s, Step(s, Mutate(t, key, after)), t);
  }

  lemma CallerIsQuiet(s: State, a: Action)
    requires Enabled(s, a) && (a.ReaderPublish? || a.MutatorPublish? || a.MutatorRemove?) && Ready(s, a.t)
    ensures QuietOnDisk(s, Step(s, a), a.t)
  {
    CacheCoherence.CallerStep(s, a);
    hide Step;
    hide Enabled;
    hide TaskOk;
    MoveIsQuiet(s, Step(s, a), a.t);
  }

  lemma WriterIsQuiet(s: State, a: Action)
    requires Enabled(s, a) && (a.WriteContent? || a.WriteRecord?) && Ready(s, a.t)
    ensures QuietOnDisk(s, Step(s, a), a.t)
  {
    MoveIsQuiet(s, Step(s, a), a.t);
  }

  lemma AcquireIsQuiet(s: State, t: Task)
    requires Ready(s, t) && Enabled(s, Acquire(t))
    ensures QuietOnDisk(s, Step(s, Acquire(t)), t)
  {
    hide TaskOk;
    MoveIsQuiet(s, Step(s, Acquire(t)), t);
  }

  lemma QueueIsQuiet(s: State, a: Action)
    requires Enabled(s, a) && (a.Release? || a.StartRetry?) && Ready(s, a.t)
    ensures QuietOnDisk(s, Step(s, a), a.t)
  {
    hide TaskOk;
    MoveIsQuiet(s, Step(s, a), a.t);
  }

  lemma FinishRetryIsQuiet(s: State, t: Task)
    requires Ready(s, t) && Enabled(s, FinishRetry(t))
    ensures QuietOnDisk(s, Step(s, FinishRetry(t)), t)
  {
    PushedAllBounded(s.failed, PcOf(s, t).pending);
    hide TaskOk;
    hide PushedAll;
    MoveIsQuiet(s, Step(s, FinishRetry(t)), t);
  }

  lemma CheckFiles(s: State, t: Task, c: bool, r: bool)
    requires Enabled(s, Check(t, c, r))
    ensures var s' := Step(s, Check(t, c, r));
      && s'.failed == s.failed && s'.ragged == s.ragged && (!PcOf(s', t).Idle? ==> s'.disk == s.disk)
      && forall f | !OwnTemp(s, t, f) :: SameFile(s, s', f)
  {
    hide Generation;
  }

  lemma CheckIsQuiet(s: State, t: Task, c: bool, r: bool)
    requires Ready(s, t) && Enabled(s, Check(t, c, r))
    ensures QuietOnDisk(s, Step(s, Check(t, c, r)), t)
  {
    CheckFiles(s, t, c, r);
    CacheCoherence.CheckMoves(s, t, c, r);
    hide Step;
    hide Enabled;
    hide Generation;
    hide TaskOk;
    hide OwnTemp;
    MoveIsQuiet(s, Step(s, Check(t, c, r)), t);
  }

  lemma AbandonIsQuiet(s: State, t: Task, partial: Option<Bytes>)
    requires Ready(s, t) && Enabled(s, Abandon(t, partial))
    ensures QuietOnDisk(s, Step(s, Abandon(t, partial)), t)
  {
    hide TaskOk;
    hide FilesOk;
    MoveIsQuiet(s, Step(s, Abandon(t, partial)), t);
  }

  lemma IdleTakeOutIsQuiet(s: State, t: Task)
    requires Ready(s, t) && Enabled(s, TakeOut(t)) && !Holds(s.mem, PcOf(s, t).key, PcOf(s, t).condition)
    ensures QuietOnDisk(s, Step(s, TakeOut(t)), t)
  {
    hide Holds;
    hide TaskOk;
    MoveIsQuiet(s, Step(s, TakeOut(t)), t);
  }

  /** The step is one of those. */
  predicate IsQuiet(s: State, a: Action) {
    match a
    case RenameContent(_) => false
    case RenameRecord(_) => false
    case InsertEntry(_) => false
    case DeleteContent(_, _) => false
    case DeleteRecord(_, _) => false
    case RetryOne(_, _) => false
    case Touch(_) => false
    case TakeOut(t) => PcOf(s, t).Removing? && !Holds(s.mem, PcOf(s, t).key, PcOf(s, t).condition)
    case _ => true
  }

  lemma QuietStep(s: State, a: Action)
    requires Inv(s) && Enabled(s, a) && IsQuiet(s, a)
    ensures QuietOnDisk(s, Step(s, a), a.t)
  {
    hide Inv;
    hide Enabled;
    hide Step;
    hide Ready;
    hide QuietOnDisk;
    InvReady(s, a.t);
    match a
    case Capture(_, _) => ReaderIsQuiet(s, a);
    case Fetch(_) => ReaderIsQuiet(s, a);
    case Drop(_, _, _) => ReaderIsQuiet(s, a);
    case Mutate(t, key, after) => MutateIsQuiet(s, t, key, after);
    case ReaderPublish(_, _, _) => CallerIsQuiet(s, a);
    case MutatorPublish(_, _, _) => CallerIsQuiet(s, a);
    case MutatorRemove(_) => CallerIsQuiet(s, a);
    case WriteContent(_) => WriterIsQuiet(s, a);
    case WriteRecord(_) => WriterIsQuiet(s, a);
    case Acquire(t) => AcquireIsQuiet(s, t);
    case Release(_) => QueueIsQuiet(s, a);
    case StartRetry(_, _) => QueueIsQuiet(s, a);
    case FinishRetry(t) => FinishRetryIsQuiet(s, t);
    case Check(t, c, r) => CheckIsQuiet(s, t, c, r);
    case Abandon(t, partial) => AbandonIsQuiet(s, t, partial);
    case TakeOut(t) => IdleTakeOutIsQuiet(s, t);
  }

  // ---- The steps that change the directory or the entries ----

  /** Other publications keep their files when one of them renames its own. */
  lemma RenameKeepsOthers(s: State, s': State, t: Task, u: Task)
    requires Inv(s) && t != u && PcOf(s, t).Publishing?
    requires PcOf(s', u) == PcOf(s, u)
    requires s'.mem == s.mem && s'.failed == s.failed && s'.lim == s.lim
    requires forall v: Task | v != t :: PcOf(s', v) == PcOf(s, v)
    requires PcOf(s', t).Publishing? && PcOf(s', t).record == PcOf(s, t).record
    requires var r := PcOf(s, t).record;
      forall f | f !in {TempOf(r), RecordTempOf(r), r.path, Metadata(r.key)} :: SameFile(s, s', f)
    requires HoldsLock(PcOf(s, t)) && s.lock == Some(t)
    requires forall p | Named(s', p) :: Named(s, p) || p == PcOf(s, t).record.path
    ensures PublisherOk(s', u)
  {
    assert PublisherOk(s, u) && PublisherOk(s, t) && TaskOk(s, u) && TaskOk(s, t);
    assert HoldsLock(PcOf(s, u)) <==> s.lock == Some(u);
    CondemnedFrame(s, s', t) by {
      assert forall p | CondemnedBy(PcOf(s', t), p) :: false;
    }
    if PcOf(s, u).Publishing? {
      var r, q := PcOf(s, t).record, PcOf(s, u).record;
      SameFilesOk(s, s', PcOf(s, u).stage, q, PcOf(s, u).data);
      forall v: Task | v != u && PcOf(s', v).Publishing? ensures PcOf(s', v).record.path != q.path {
        assert PcOf(s, v).Publishing? && PcOf(s', v).record == PcOf(s, v).record;
      }
    }
  }

  /** Unless the lock holder is at work on it, a record on disk is a live entry's. */
  lemma NoStraysNow(s: State)
    requires NoStrayRecords(s)
    requires forall k :: !Replacing(s, k) && !Departing(s, k)
    ensures forall k | Metadata(k) in s.disk && k !in s.ragged :: LiveKey(s, k)
  {
  }

  lemma RenameContentStep(s: State, t: Task)
    requires Enabled(s, RenameContent(t))
    ensures var s', pc := Step(s, RenameContent(t)), PcOf(s, t);
      && PcOf(s', t) == pc.(stage := ContentRenamed) && (forall u: Task | u != t :: PcOf(s', u) == PcOf(s, u))
      && s'.disk == (s.disk - {TempOf(pc.record)})[pc.record.path := s.disk[TempOf(pc.record)]]
      && s'.mem == s.mem && s'.failed == s.failed && s'.nextId == s.nextId && s'.lim == s.lim && s'.ragged == s.ragged && s'.lock == s.lock
  {
  }

  lemma RenameContentFacts(s: State, t: Task)
    requires Inv(s) && Enabled(s, RenameContent(t))
    ensures var r := PcOf(s, t).record;
      && PcOf(s, t).Publishing? && PcOf(s, t).stage.Checked? && TempOf(r) in s.disk
      && r.path.Content? && r.path.id < s.nextId && s.lock == Some(t) && PublisherOk(s, t)
      && !IsLive(s, r.path) && !Named(s, r.path) && s.disk[TempOf(r)] == Plain(PcOf(s, t).data)
  {
    assert TaskOk(s, t) && PublisherOk(s, t) && (HoldsLock(PcOf(s, t)) <==> s.lock == Some(t));
    hide InvDisk;
    hide IsLive;
    hide Named;
  }

  lemma RenameContentKeepsTasks(s: State, t: Task)
    requires Inv(s) && Enabled(s, RenameContent(t))
    ensures var s' := Step(s, RenameContent(t));
      PublishersOk(s') && DeletersOk(s') && forall p | Condemned(s', p) :: Condemned(s, p)
  {
    hide Inv;
    RenameContentStep(s, t);
    RenameContentFacts(s, t);
    hide Step;
    hide Enabled;
    var s', r := Step(s, RenameContent(t)), PcOf(s, t).record;
    forall p ensures Named(s', p) <==> Named(s, p) {
      NamedSame(s, s', p);
    }
    hide Named;
    CondemnedFrame(s, s', t);
    RenamedPublisherOk(s, s', t);
    hide PublisherOk;
    forall u: Task ensures PublisherOk(s', u) && DeleterOk(s', u) {
      InvDeleterOk(s, u);
      if u != t {
        RenameKeepsOthers(s, s', t, u);
      }
    }
  }

  lemma InvDeleterOk(s: State, u: Task)
    requires Inv(s)
    ensures DeleterOk(s, u)
  {
  }

  lemma RenamedPublisherOk(s: State, s': State, t: Task)
    requires PublisherOk(s, t) && PcOf(s, t).Publishing? && PcOf(s, t).stage.Checked?
    requires PcOf(s', t) == PcOf(s, t).(stage := ContentRenamed) && forall u: Task | u != t :: PcOf(s', u) == PcOf(s, u)
    requires s'.mem == s.mem && forall p | Condemned(s', p) :: Condemned(s, p)
    requires var r := PcOf(s, t).record;
      && r.path.Content? && TempOf(r) in s.disk && s'.disk == (s.disk - {TempOf(r)})[r.path := s.disk[TempOf(r)]]
      && (Named(s', r.path) <==> Named(s, r.path))
    ensures PublisherOk(s', t)
  {
    hide Condemned;
    hide Named;
  }

  lemma RenameContentKeepsFiles(s: State, t: Task)
    requires Enabled(s, RenameContent(t)) && FilesFine(s)
    requires var r := PcOf(s, t).record; r.path.Content? && r.path.id < s.nextId && !Named(s, r.path)
    ensures FilesFine(Step(s, RenameContent(t)))
  {
    RenameContentStep(s, t);
    hide Step;
    hide Enabled;
    var s', r := Step(s, RenameContent(t)), PcOf(s, t).record;
    forall f | f in s'.disk && f != r.path ensures FileOk(s', f) {
      assert FileOk(s, f);
      if f.Metadata? && s.disk[f].Json? {
        assert Named(s, s.disk[f].record.path);
      }
    }
  }

  lemma RenameContentKeepsRecords(s: State, t: Task)
    requires Enabled(s, RenameContent(t)) && EntriesOnDisk(s) && LiveRecordsOnDisk(s) && NoStrayRecords(s)
    requires s.lock == Some(t) && PcOf(s, t).record.path.Content? && !IsLive(s, PcOf(s, t).record.path)
    ensures var s' := Step(s, RenameContent(t)); EntriesOnDisk(s') && LiveRecordsOnDisk(s') && NoStrayRecords(s')
  {
    assert forall k :: !Replacing(s, k) && !Departing(s, k);
    NoStraysNow(s);
    hide NoStrayRecords;
    RenameContentStep(s, t);
    hide Step;
    hide Enabled;
    var s', r := Step(s, RenameContent(t)), PcOf(s, t).record;
    forall p | p in s'.mem.entries ensures EntryOnDisk(s', p.0, p.1) {
      assert EntryOnDisk(s, p.0, p.1) && IsLive(s, p.1.path);
    }
    forall p | p in s'.mem.entries && p.0 !in s'.ragged && !Replacing(s', p.0) ensures RecordLive(s', p.0, p.1) {
      assert RecordLive(s, p.0, p.1);
    }
    NoStraysLeft(s, s');
  }

  lemma NoStraysLeft(s: State, s': State)
    requires forall k | Metadata(k) in s.disk && k !in s.ragged :: LiveKey(s, k)
    requires s'.mem == s.mem && s'.ragged == s.ragged && forall k | Metadata(k) in s'.disk :: Metadata(k) in s.disk || Replacing(s', k)
    ensures NoStrayRecords(s')
  {
    hide Replacing;
    hide Departing;
    forall k ensures LiveKey(s', k) <==> LiveKey(s, k) {
    }
  }

  lemma RenameContentKeepsDirectory(s: State, t: Task)
    requires Inv(s) && Enabled(s, RenameContent(t)) && InvMemory(Step(s, RenameContent(t)))
    ensures InvDisk(Step(s, RenameContent(t)))
  {
    hide InvMemory;
    hide Step;
    hide Enabled;
    hide DeletionsHarmless;
    hide EntriesOnDisk;
    hide FilesFine;
    hide PublishersOk;
    hide DeletersOk;
    hide LiveRecordsOnDisk;
    hide NoStrayRecords;
    hide PublisherOk;
    RenameContentStep(s, t);
    RenameContentFacts(s, t);
    RenameContentKeepsTasks(s, t);
    RenameContentKeepsFiles(s, t);
    RenameContentKeepsRecords(s, t);
    SameLiveKeepsDeletionsHarmless(s, Step(s, RenameContent(t)));
  }

  lemma SameLiveKeepsDeletionsHarmless(s: State, s': State)
    requires DeletionsHarmless(s) && s'.mem == s.mem && s'.nextId == s.nextId && s'.failed == s.failed
    requires forall p | Condemned(s', p) :: Condemned(s, p)
    ensures DeletionsHarmless(s')
  {
    hide Condemned;
    forall p | Condemned(s', p) ensures Made(s', p) && !IsLive(s', p) {
      assert Condemned(s, p) && Made(s, p) && !IsLive(s, p);
    }
  }

  lemma RenameRecordStep(s: State, t: Task)
    requires Enabled(s, RenameRecord(t))
    ensures var s', pc := Step(s, RenameRecord(t)), PcOf(s, t);
      && PcOf(s', t) == pc.(stage := RecordRenamed) && (forall u: Task | u != t :: PcOf(s', u) == PcOf(s, u))
      && s'.disk == (s.disk - {RecordTempOf(pc.record)})[Metadata(pc.record.key) := s.disk[RecordTempOf(pc.record)]]
      && s'.mem == s.mem && s'.failed == s.failed && s'.nextId == s.nextId && s'.lim == s.lim && s'.ragged == s.ragged && s'.lock == s.lock
  {
  }

  lemma RenameRecordFacts(s: State, t: Task)
    requires Inv(s) && Enabled(s, RenameRecord(t))
    ensures PcOf(s, t).Publishing? && PcOf(s, t).stage.ContentRenamed?
    ensures PcOf(s, t).record.path.Content? && RecordTempOf(PcOf(s, t).record) in s.disk
    ensures TaskOk(s, t) && PublisherOk(s, t) && s.lock == Some(t) && FilesOk(s, ContentRenamed, PcOf(s, t).record, PcOf(s, t).data)
  {
    assert TaskOk(s, t) && PublisherOk(s, t) && (HoldsLock(PcOf(s, t)) <==> s.lock == Some(t));
    hide Inv;
    hide FilesOk;
  }

  lemma RenameRecordNames(s: State, t: Task, p: FileName)
    requires Inv(s) && Enabled(s, RenameRecord(t)) && Named(Step(s, RenameRecord(t)), p)
    ensures Named(s, p) || p == PcOf(s, t).record.path
  {
    RenameRecordStep(s, t);
    RenameRecordFacts(s, t);
    hide Step;
    hide Inv;
    hide Enabled;
    var s' := Step(s, RenameRecord(t));
    var k :| Metadata(k) in s'.disk && s'.disk[Metadata(k)].Json? && s'.disk[Metadata(k)].record.path == p;
    if k != PcOf(s, t).record.key {
      assert SameFile(s, s', Metadata(k));
    }
  }

  lemma RenamedRecordPublisherOk(s: State, s': State, t: Task)
    requires PublisherOk(s, t) && PcOf(s, t).Publishing? && PcOf(s, t).stage.ContentRenamed?
    requires PcOf(s', t) == PcOf(s, t).(stage := RecordRenamed) && forall u: Task | u != t :: PcOf(s', u) == PcOf(s, u)
    requires s'.mem == s.mem && forall p | Condemned(s', p) :: Condemned(s, p)
    requires var r := PcOf(s, t).record;
      && r.path.Content? && RecordTempOf(r) in s.disk
      && s'.disk == (s.disk - {RecordTempOf(r)})[Metadata(r.key) := s.disk[RecordTempOf(r)]]
    ensures PublisherOk(s', t)
  {
    hide Condemned;
    hide Named;
  }

  lemma RenameRecordKeepsTasks(s: State, t: Task)
    requires Inv(s) && Enabled(s, RenameRecord(t))
    ensures var s' := Step(s, RenameRecord(t));
      PublishersOk(s') && DeletersOk(s') && forall p | Condemned(s', p) :: Condemned(s, p)
  {
    hide Inv;
    RenameRecordStep(s, t);
    RenameRecordFacts(s, t);
    var s', r := Step(s, RenameRecord(t)), PcOf(s, t).record;
    forall p | Named(s', p) ensures Named(s, p) || p == r.path {
      RenameRecordNames(s, t, p);
    }
    hide Step;
    hide Enabled;
    hide Named;
    CondemnedFrame(s, s', t);
    RenamedRecordPublisherOk(s, s', t);
    hide PublisherOk;
    forall u: Task ensures PublisherOk(s', u) && DeleterOk(s', u) {
      InvDeleterOk(s, u);
      if u != t {
        RenameKeepsOthers(s, s', t, u);
      }
    }
  }

  lemma RenameRecordKeepsFiles(s: State, t: Task)
    requires Enabled(s, RenameRecord(t)) && FilesFine(s)
    requires PcOf(s, t).Publishing? && TaskOk(s, t) && FilesOk(s, ContentRenamed, PcOf(s, t).record, PcOf(s, t).data)
    ensures FilesFine(Step(s, RenameRecord(t)))
  {
    RenameRecordStep(s, t);
    hide Step;
    hide Enabled;
    var s', r := Step(s, RenameRecord(t)), PcOf(s, t).record;
    forall f | f in s'.disk ensures FileOk(s', f) {
      if f != Metadata(r.key) {
        assert FileOk(s, f);
      }
    }
  }

  lemma RenameRecordKeepsRecords(s: State, t: Task)
    requires Enabled(s, RenameRecord(t)) && EntriesOnDisk(s) && LiveRecordsOnDisk(s) && NoStrayRecords(s)
    requires s.lock == Some(t)
    ensures var s' := Step(s, RenameRecord(t)); EntriesOnDisk(s') && LiveRecordsOnDisk(s') && NoStrayRecords(s')
  {
    assert forall k :: !Replacing(s, k) && !Departing(s, k);
    NoStraysNow(s);
    hide NoStrayRecords;
    RenameRecordStep(s, t);
    assert PcOf(s, t).Publishing?;
    hide Step;
    hide Enabled;
    var s', r := Step(s, RenameRecord(t)), PcOf(s, t).record;
    assert Replacing(s', r.key);
    forall p | p in s'.mem.entries
      ensures EntryOnDisk(s', p.0, p.1) && (p.0 !in s'.ragged && !Replacing(s', p.0) ==> RecordLive(s', p.0, p.1))
    {
      assert EntryOnDisk(s, p.0, p.1) && SameFile(s, s', p.1.path);
    }
    NoStraysLeft(s, s');
  }

  lemma RenameRecordKeepsDirectory(s: State, t: Task)
    requires Inv(s) && Enabled(s, RenameRecord(t)) && InvMemory(Step(s, RenameRecord(t)))
    ensures InvDisk(Step(s, RenameRecord(t)))
  {
    hide InvMemory;
    hide Step;
    hide Enabled;
    hide DeletionsHarmless;
    hide EntriesOnDisk;
    hide FilesFine;
    hide PublishersOk;
    hide DeletersOk;
    hide LiveRecordsOnDisk;
    hide NoStrayRecords;
    hide PublisherOk;
    hide TaskOk;
    hide FilesOk;
    RenameRecordStep(s, t);
    RenameRecordFacts(s, t);
    RenameRecordKeepsTasks(s, t);
    RenameRecordKeepsFiles(s, t);
    RenameRecordKeepsRecords(s, t);
    SameLiveKeepsDeletionsHarmless(s, Step(s, RenameRecord(t)));
  }

  lemma TouchKeepsDirectory(s: State, key: Key)
    requires Inv(s) && InvMemory(Step(s, Touch(key)))
    ensures InvDisk(Step(s, Touch(key)))
  {
    var s' := Step(s, Touch(key));
    Lru.PromoteKeeps(s.mem.entries, key);
    assert s' == s.(mem := s.mem.(entries := s'.mem.entries));
    hide Step;
    SamePairsKeepDirectory(s, s');
  }

  /** Only the recency order has changed. */
  lemma SamePairsKeepDirectory(s: State, s': State)
    requires InvDisk(s) && s' == s.(mem := s.mem.(entries := s'.mem.entries))
    requires forall p :: p in s'.mem.entries <==> p in s.mem.entries
    ensures InvDisk(s')
  {
    SamePairsSameLive(s, s');
    forall p | Condemned(s', p) ensures Condemned(s, p) {
      if p !in s.failed {
        var t: Task :| CondemnedBy(PcOf(s', t), p);
        assert PcOf(s, t) == PcOf(s', t);
      }
    }
    forall u: Task ensures PublisherOk(s', u) && DeleterOk(s', u) {
      assert DeleterOk(s, u) && PublisherOk(s, u);
      NamedSame(s, s', if PcOf(s, u).Publishing? then PcOf(s, u).record.path else Legacy(""));
      assert forall v: Task :: PcOf(s', v) == PcOf(s, v);
    }
    forall p | p in s'.mem.entries
      ensures EntryOnDisk(s', p.0, p.1) && (p.0 !in s'.ragged && !Replacing(s', p.0) ==> RecordLive(s', p.0, p.1))
    {
      assert EntryOnDisk(s, p.0, p.1);
    }
    forall f | f in s'.disk ensures FileOk(s', f) {
      assert FileOk(s, f);
    }
    forall k | Metadata(k) in s'.disk && k !in s'.ragged && !LiveKey(s', k)
      ensures Replacing(s', k) || Departing(s', k)
    {
      assert !LiveKey(s, k);
    }
  }

  lemma SamePairsSameLive(s: State, s': State)
    requires forall p :: p in s'.mem.entries <==> p in s.mem.entries
    ensures forall k :: LiveKey(s', k) <==> LiveKey(s, k)
    ensures forall p :: IsLive(s', p) <==> IsLive(s, p)
  {
    forall k ensures LiveKey(s', k) <==> LiveKey(s, k) {
      if LiveKey(s, k) {
        assert (k, Lru.Find(s.mem.entries, k).value) in s'.mem.entries;
      }
      if LiveKey(s', k) {
        assert (k, Lru.Find(s'.mem.entries, k).value) in s.mem.entries;
      }
    }
  }

  /** A removal of one condemned content file, or of none, that condemns nothing new. */
  ghost predicate RemovesCondemned(s: State, s': State, t: Task, path: FileName) {
    && Condemned(s, path)
    && s'.lim == s.lim && s'.mem == s.mem && s'.ragged == s.ragged && s'.nextId == s.nextId
    && (s'.disk == s.disk || s'.disk == s.disk - {path})
    && (forall u: Task | u != t :: PcOf(s', u) == PcOf(s, u))
    && !PcOf(s', t).Publishing? && DeleterOk(s', t)
    && (forall k :: Replacing(s', k) <==> Replacing(s, k))
    && (forall k :: Departing(s, k) ==> Departing(s', k))
    && |s'.failed| <= QUEUE_LIMIT
    && (forall p | Condemned(s', p) :: Condemned(s, p))
  }

  lemma RemovalKeepsTasks(s: State, s': State, t: Task, path: FileName)
    requires Inv(s) && RemovesCondemned(s, s', t, path) && path.Content?
    ensures PublishersOk(s') && DeletersOk(s')
  {
    forall u: Task ensures PublisherOk(s', u) && DeleterOk(s', u) {
      assert DeleterOk(s, u) && PublisherOk(s, u) && TaskOk(s, u);
      if u != t && PcOf(s, u).Publishing? {
        var pc := PcOf(s, u);
        NamedSame(s, s', pc.record.path);
        SameFilesOk(s, s', pc.stage, pc.record, pc.data);
      }
    }
  }

  lemma RemovalKeepsFiles(s: State, s': State, t: Task, path: FileName)
    requires EntriesOnDisk(s) && FilesFine(s) && LiveRecordsOnDisk(s) && NoStrayRecords(s)
    requires RemovesCondemned(s, s', t, path) && path.Content? && !IsLive(s, path)
    ensures EntriesOnDisk(s') && FilesFine(s') && LiveRecordsOnDisk(s') && NoStrayRecords(s')
  {
    hide Condemned;
    hide Replacing;
    hide Departing;
    forall p | p in s'.mem.entries
      ensures EntryOnDisk(s', p.0, p.1) && (p.0 !in s'.ragged && !Replacing(s', p.0) ==> RecordLive(s', p.0, p.1))
    {
      assert EntryOnDisk(s, p.0, p.1) && IsLive(s, p.1.path);
    }
    forall f | f in s'.disk ensures FileOk(s', f) {
      assert FileOk(s, f);
    }
    forall k | Metadata(k) in s'.disk && k !in s'.ragged && !LiveKey(s', k)
      ensures Replacing(s', k) || Departing(s', k)
    {
      assert !LiveKey(s, k);
    }
  }

  lemma RemovalKeepsDirectory(s: State, s': State, t: Task, path: FileName)
    requires Inv(s) && RemovesCondemned(s, s', t, path)
    ensures InvDisk(s')
  {
    assert Made(s, path) && !IsLive(s, path);
    RemovalKeepsTasks(s, s', t, path);
    hide InvMemory;
    hide EntriesOnDisk;
    hide FilesFine;
    hide PublishersOk;
    hide DeletersOk;
    hide LiveRecordsOnDisk;
    hide NoStrayRecords;
    RemovalKeepsFiles(s, s', t, path);
    hide Condemned;
    forall p | Condemned(s', p) ensures Made(s', p) && !IsLive(s', p) {
      assert Condemned(s, p) && Made(s, p) && !IsLive(s, p);
    }
  }

  /** The list of doomed paths after its head's content was tried. */
  function AfterTry(ds: seq<Doomed>): seq<Doomed>
    requires ds != []
  {
    if ds[0].withRecord then [ds[0].(tried := true)] + ds[1..] else ds[1..]
  }

  lemma AfterTryKeeps(ds: seq<Doomed>)
    requires ds != []
    ensures forall p | DoomedPath(AfterTry(ds), p) :: DoomedPath(ds, p)
    ensures forall e | e in ds && e.withRecord :: e in AfterTry(ds) || e.(tried := true) in AfterTry(ds)
    ensures forall e | e in AfterTry(ds) :: e in ds || (e == ds[0].(tried := true) && e.withRecord)
  {
    assert ds == [ds[0]] + ds[1..];
    forall p | DoomedPath(AfterTry(ds), p) ensures DoomedPath(ds, p) {
      var e :| e in AfterTry(ds) && e.path == p;
      if e !in ds[1..] {
        assert ds[0] in ds && ds[0].path == p;
      } else {
        assert e in ds;
      }
    }
  }

  lemma DeleteContentStep(s: State, t: Task, ok: bool)
    requires Enabled(s, DeleteContent(t, ok))
    ensures var s', ds := Step(s, DeleteContent(t, ok)), PcOf(s, t).doomed;
      && PcOf(s', t) == Deleting(AfterTry(ds)) && (forall u: Task | u != t :: PcOf(s', u) == PcOf(s, u))
      && (if ok || ds[0].path !in s.disk then s'.disk == s.disk - {ds[0].path} && s'.failed == s.failed
          else s'.disk == s.disk && s'.failed == Pushed(s.failed, ds[0].path))
      && s'.mem == s.mem && s'.nextId == s.nextId && s'.lim == s.lim && s'.ragged == s.ragged && s'.lock == s.lock
  {
  }

  lemma DeleteContentKeepsDirectory(s: State, t: Task, ok: bool)
    requires Inv(s) && Enabled(s, DeleteContent(t, ok))
    ensures InvDisk(Step(s, DeleteContent(t, ok)))
  {
    hide Inv;
    InvReady(s, t);
    InvDeleterOk(s, t);
    DeleteContentStep(s, t, ok);
    hide Step;
    hide TaskOk;
    var s' := Step(s, DeleteContent(t, ok));
    var ds := PcOf(s, t).doomed;
    assert ds[0] in ds && CondemnedBy(PcOf(s, t), ds[0].path);
    hide Enabled;
    AfterTryKeeps(ds);
    CondemnedFrame(s, s', t);
    forall k | Departing(s, k) ensures Departing(s', k) {
      var e :| e in ds && e.withRecord && e.path.Content? && e.path.key == k;
      assert e in AfterTry(ds) || e.(tried := true) in AfterTry(ds);
    }
    assert DeleterOk(s', t);
    RemovalKeepsDirectory(s, s', t, ds[0].path);
  }

  lemma RetryOneStep(s: State, t: Task, ok: bool)
    requires Enabled(s, RetryOne(t, ok))
    ensures var s', pc := Step(s, RetryOne(t, ok)), PcOf(s, t);
      && PcOf(s', t).Retrying? && PcOf(s', t).todo == pc.todo[1..]
      && (PcOf(s', t).pending == pc.pending || PcOf(s', t).pending == pc.pending + [pc.todo[0]])
      && (forall u: Task | u != t :: PcOf(s', u) == PcOf(s, u))
      && (s'.disk == s.disk || s'.disk == s.disk - {pc.todo[0]})
      && s'.mem == s.mem && s'.failed == s.failed && s'.nextId == s.nextId && s'.lim == s.lim && s'.ragged == s.ragged && s'.lock == s.lock
  {
  }

  lemma RetryOneKeepsDirectory(s: State, t: Task, ok: bool)
    requires Inv(s) && Enabled(s, RetryOne(t, ok))
    ensures InvDisk(Step(s, RetryOne(t, ok)))
  {
    hide Inv;
    InvReady(s, t);
    RetryOneStep(s, t, ok);
    hide Step;
    hide TaskOk;
    var s' := Step(s, RetryOne(t, ok));
    var path := PcOf(s, t).todo[0];
    assert CondemnedBy(PcOf(s, t), path);
    hide Enabled;
    assert forall p | CondemnedBy(PcOf(s', t), p) :: CondemnedBy(PcOf(s, t), p);
    CondemnedFrame(s, s', t);
    RemovalKeepsDirectory(s, s', t, path);
  }

  lemma DeleteRecordStep(s: State, t: Task, ok: bool)
    requires Enabled(s, DeleteRecord(t, ok))
    ensures var s', ds := Step(s, DeleteRecord(t, ok)), PcOf(s, t).doomed;
      var k := KeyOf(ds[0].path);
      && ds[0].tried && PcOf(s', t) == Deleting(ds[1..]) && (forall u: Task | u != t :: PcOf(s', u) == PcOf(s, u))
      && (if ok || Metadata(k) !in s.disk then s'.disk == s.disk - {Metadata(k)} && s'.ragged == s.ragged
          else s'.disk == s.disk && s'.ragged == s.ragged + {k})
      && s'.mem == s.mem && s'.failed == s.failed && s'.nextId == s.nextId && s'.lim == s.lim && s'.lock == s.lock
  {
  }

  lemma DeleteRecordKeepsDirectory(s: State, t: Task, ok: bool)
    requires Inv(s) && Enabled(s, DeleteRecord(t, ok)) && InvMemory(Step(s, DeleteRecord(t, ok)))
    ensures InvDisk(Step(s, DeleteRecord(t, ok)))
  {
    DeleteRecordStep(s, t, ok);
    hide Step;
    hide Orderly;
    hide Coherent;
    hide TaskOk;
    var s' := Step(s, DeleteRecord(t, ok));
    assert DeleterOk(s, t) && (HoldsLock(PcOf(s, t)) <==> s.lock == Some(t));
    var ds := PcOf(s, t).doomed;
    var d := ds[0];
    assert d in ds && CondemnedBy(PcOf(s, t), d.path);
    var key := KeyOf(d.path);
    forall p | CondemnedBy(PcOf(s', t), p) ensures CondemnedBy(PcOf(s, t), p) {
      var e :| e in ds[1..] && e.path == p;
      assert e in ds;
    }
    CondemnedFrame(s, s', t);
    DeleteRecordFrame(s, t, ok);
    forall k | Metadata(k) in s'.disk && k !in s'.ragged && !LiveKey(s', k)
      ensures Replacing(s', k) || Departing(s', k)
    {
      assert !LiveKey(s, k) && k != key;
      assert Departing(s, k);
      var e :| e in ds && e.withRecord && e.path.Content? && e.path.key == k;
      assert e in ds[1..];
    }
    forall p | Condemned(s', p) ensures Made(s', p) && !IsLive(s', p) {
      assert Condemned(s, p) && Made(s, p) && !IsLive(s, p);
    }
  }

  /** With another task holding the publish lock, deleting a record does not disturb a publication. */
  lemma RecordGoneKeepsPublisher(s: State, s': State, t: Task, u: Task, key: Key)
    requires Inv(s) && t != u && s.lock == Some(t)
    requires s'.mem == s.mem && s'.failed == s.failed
    requires s'.disk == s.disk || s'.disk == s.disk - {Metadata(key)}
    requires forall v: Task | v != t :: PcOf(s', v) == PcOf(s, v)
    requires !PcOf(s', t).Publishing?
    requires forall p | Condemned(s', p) :: Condemned(s, p)
    ensures PublisherOk(s', u)
  {
    assert PublisherOk(s, u) && TaskOk(s, u) && (HoldsLock(PcOf(s, u)) <==> s.lock == Some(u));
    var pc := PcOf(s, u);
    if pc.Publishing? {
      forall p | Named(s', p) ensures Named(s, p) {
        var k :| Metadata(k) in s'.disk && s'.disk[Metadata(k)].Json? && s'.disk[Metadata(k)].record.path == p;
        assert Metadata(k) in s.disk;
      }
      SameFilesOk(s, s', pc.stage, pc.record, pc.data);
    }
  }

  lemma DeleteRecordFrame(s: State, t: Task, ok: bool)
    requires Inv(s) && Enabled(s, DeleteRecord(t, ok))
    requires forall p | Condemned(Step(s, DeleteRecord(t, ok)), p) :: Condemned(s, p)
    ensures var s' := Step(s, DeleteRecord(t, ok));
      EntriesOnDisk(s') && FilesFine(s') && PublishersOk(s') && DeletersOk(s') && LiveRecordsOnDisk(s')
  {
    DeleteRecordStep(s, t, ok);
    hide Step;
    hide Orderly;
    hide Coherent;
    var s' := Step(s, DeleteRecord(t, ok));
    assert DeleterOk(s, t) && (HoldsLock(PcOf(s, t)) <==> s.lock == Some(t));
    var ds := PcOf(s, t).doomed;
    assert ds[0] in ds && forall e | e in ds[1..] :: e in ds;
    var key := KeyOf(ds[0].path);
    assert !LiveKey(s, key);
    RecordGone(s, s', t, key);
    forall u: Task ensures PublisherOk(s', u) && DeleterOk(s', u) {
      assert DeleterOk(s, u);
      if u != t {
        RecordGoneKeepsPublisher(s, s', t, u, key);
      }
    }
  }

  lemma RecordGone(s: State, s': State, t: Task, key: Key)
    requires Inv(s) && !LiveKey(s, key) && s.lock == Some(t) && PcOf(s, t).Deleting?
    requires s'.mem == s.mem && s'.nextId == s.nextId && s'.lim == s.lim && s.ragged <= s'.ragged
    requires s'.disk == s.disk || s'.disk == s.disk - {Metadata(key)}
    ensures EntriesOnDisk(s') && FilesFine(s') && LiveRecordsOnDisk(s')
  {
    forall p | p in s'.mem.entries
      ensures EntryOnDisk(s', p.0, p.1) && (p.0 !in s'.ragged ==> RecordLive(s', p.0, p.1))
    {
      assert EntryOnDisk(s, p.0, p.1) && Lru.Holds(s.mem.entries, p.0);
    }
    forall f | f in s'.disk ensures FileOk(s', f) {
      assert FileOk(s, f);
    }
  }

  /**
   Entries leave memory, and at most one publication ends in an entry of its own: the frame for the two steps
   that change the entries. `gone` holds the paths newly condemned, each of them live before and not after.
   */
  lemma EntriesChange(s: State, s': State, t: Task, gone: set<FileName>)
    requires Inv(s)
    requires s'.disk == s.disk && s'.failed == s.failed && s'.nextId == s.nextId && s'.lim == s.lim
    requires forall u: Task | u != t :: PcOf(s', u) == PcOf(s, u)
    requires !PcOf(s, t).Deleting? && !PcOf(s, t).Retrying? && PcOf(s', t).Deleting?
    requires forall p | DoomedPath(PcOf(s', t).doomed, p) :: p in gone
    requires forall p | p in gone :: IsLive(s, p) && !IsLive(s', p)
    requires forall p | IsLive(s', p) :: IsLive(s, p) || (PcOf(s, t).Publishing? && p == PcOf(s, t).record.path)
    requires forall k | k in s.ragged && k !in s'.ragged && Metadata(k) in s.disk :: RecordOk(s, k)
    ensures FilesFine(s') && DeletionsHarmless(s') && PublishersOk(s')
  {
    forall p | Condemned(s', p) ensures Condemned(s, p) || p in gone {
      if p !in s'.failed {
        var u: Task :| CondemnedBy(PcOf(s', u), p);
        if u != t {
          assert CondemnedBy(PcOf(s, u), p);
        }
      }
    }
    forall u: Task ensures PublisherOk(s', u) {
      assert PublisherOk(s, u) && PublisherOk(s, t);
      if u != t && PcOf(s, u).Publishing? {
        var pc := PcOf(s, u);
        NamedSame(s, s', pc.record.path);
        SameFilesOk(s, s', pc.stage, pc.record, pc.data);
      }
    }
    forall f | f in s'.disk ensures FileOk(s', f) {
      assert FileOk(s, f);
    }
    forall p | Condemned(s', p) ensures Made(s', p) && !IsLive(s', p) {
      KnownPathsAreMade(s, p);
      assert PublisherOk(s, t);
    }
  }

  lemma TakingOutKeepsDirectory(s: State, t: Task)
    requires Inv(s) && Enabled(s, TakeOut(t)) && InvMemory(Step(s, TakeOut(t)))
    requires Holds(s.mem, PcOf(s, t).key, PcOf(s, t).condition)
    ensures InvDisk(Step(s, TakeOut(t)))
  {
    hide InvMemory;
    hide EntriesOnDisk;
    hide FilesFine;
    hide DeletionsHarmless;
    hide PublishersOk;
    hide DeletersOk;
    hide LiveRecordsOnDisk;
    hide NoStrayRecords;
    var s' := Step(s, TakeOut(t));
    var key := PcOf(s, t).key;
    var found := Lru.Find(s.mem.entries, key);
    TakenOutKeys(s, t);
    var gone := if found.Some? then {found.value.path} else {};
    assert s'.disk == s.disk && s'.failed == s.failed && s'.nextId == s.nextId && s'.lim == s.lim && s'.ragged == s.ragged;
    assert s'.lock == Some(t) && s.lock == None;
    assert forall u: Task | u != t :: PcOf(s', u) == PcOf(s, u);
    var ds := if found.Some? then [Doomed(found.value.path, false, true)] else [];
    assert PcOf(s', t).doomed == ds;
    assert forall p :: p in s'.mem.entries <==> p in s.mem.entries && p.0 != key;
    hide Step;
    TakenOutPaths(s, s', t, key, gone, ds);
    TakenOutRecords(s, s', t, key, ds);
  }

  lemma TakenOutPaths(s: State, s': State, t: Task, key: Key, gone: set<FileName>, ds: seq<Doomed>)
    requires Inv(s) && s.lock == None && PcOf(s, t).Removing?
    requires s'.ragged == s.ragged && s'.disk == s.disk && s'.failed == s.failed && s'.nextId == s.nextId && s'.lim == s.lim
    requires forall u: Task | u != t :: PcOf(s', u) == PcOf(s, u)
    requires var found := Lru.Find(s.mem.entries, key);
      && gone == (if found.Some? then {found.value.path} else {})
      && ds == (if found.Some? then [Doomed(found.value.path, false, true)] else [])
    requires PcOf(s', t) == Deleting(ds)
    requires forall p :: p in s'.mem.entries <==> p in s.mem.entries && p.0 != key
    requires !LiveKey(s', key)
    ensures FilesFine(s') && DeletionsHarmless(s') && PublishersOk(s') && DeletersOk(s') && EntriesOnDisk(s')
  {
    var found := Lru.Find(s.mem.entries, key);
    if found.Some? {
      assert (key, found.value) in s.mem.entries && EntryOnDisk(s, key, found.value);
      assert IsLive(s, found.value.path);
    }
    forall p | IsLive(s', p) ensures IsLive(s, p) && p !in gone {
      var q :| q in s'.mem.entries && q.1.path == p;
      assert q in s.mem.entries && q.0 != key && EntryOnDisk(s, q.0, q.1);
    }
    EntriesChange(s, s', t, gone);
    forall u: Task ensures DeleterOk(s', u) {
      assert HoldsLock(PcOf(s, u)) <==> s.lock == Some(u);
    }
    forall p | p in s'.mem.entries ensures EntryOnDisk(s', p.0, p.1) {
      assert EntryOnDisk(s, p.0, p.1);
    }
  }

  lemma TakenOutRecords(s: State, s': State, t: Task, key: Key, ds: seq<Doomed>)
    requires Inv(s) && s.lock == None
    requires s'.disk == s.disk && s'.ragged == s.ragged
    requires s'.lock == Some(t) && PcOf(s', t) == Deleting(ds)
    requires forall p :: p in s'.mem.entries <==> p in s.mem.entries && p.0 != key
    requires forall k :: LiveKey(s', k) <==> LiveKey(s, k) && k != key
    requires var found := Lru.Find(s.mem.entries, key);
      ds == (if found.Some? then [Doomed(found.value.path, false, true)] else [])
    ensures LiveRecordsOnDisk(s') && NoStrayRecords(s')
  {
    NoStraysNow(s);
    forall p | p in s'.mem.entries && p.0 !in s'.ragged ensures RecordLive(s', p.0, p.1) {
      assert RecordLive(s, p.0, p.1);
    }
    if LiveKey(s, key) {
      assert (key, Lru.Find(s.mem.entries, key).value) in s.mem.entries;
      assert EntryOnDisk(s, key, Lru.Find(s.mem.entries, key).value);
      assert ds[0] in ds && Departing(s', key);
    }
  }

  lemma TakenOutKeys(s: State, t: Task)
    requires InvMemory(s) && Enabled(s, TakeOut(t)) && Holds(s.mem, PcOf(s, t).key, PcOf(s, t).condition)
    ensures var s' := Step(s, TakeOut(t)); forall k :: LiveKey(s', k) <==> LiveKey(s, k) && k != PcOf(s, t).key
  {
    var s' := Step(s, TakeOut(t));
    var key := PcOf(s, t).key;
    forall k ensures LiveKey(s', k) <==> LiveKey(s, k) && k != key {
      if LiveKey(s', k) {
        assert (k, Lru.Find(s'.mem.entries, k).value) in s'.mem.entries;
        assert (k, Lru.Find(s'.mem.entries, k).value) in s.mem.entries;
      }
      if LiveKey(s, k) && k != key {
        assert (k, Lru.Find(s.mem.entries, k).value) in s'.mem.entries;
      }
    }
  }

  /** The insertion step, field by field, without its arithmetic. */
  lemma InsertStep(s: State, t: Task)
    requires Enabled(s, InsertEntry(t))
    ensures PcOf(s, t).Publishing? && PcOf(s, t).stage.RecordRenamed? && HoldsLock(PcOf(s, t))
    ensures var s', r := Step(s, InsertEntry(t)), PcOf(s, t).record;
      var ins := Insert(s.mem, s.lim, r.key, EntryOf(r), PcOf(s, t).guard);
      && s'.mem == ins.0 && PcOf(s', t) == Deleting(DoomAll(ins.1, false) + DoomAll(ins.2, true))
      && s'.lim == s.lim && s'.disk == s.disk && s'.lock == s.lock && s'.nextId == s.nextId && s'.failed == s.failed
      && s'.ragged == s.ragged - {r.key}
      && (forall u: Task | u != t :: PcOf(s', u) == PcOf(s, u))
  {
    hide Insert;
  }

  lemma InsertedKeys(s: State, t: Task)
    requires Inv(s) && Enabled(s, InsertEntry(t))
    ensures var s', r := Step(s, InsertEntry(t)), PcOf(s, t).record;
      && (forall p | p in s'.mem.entries :: p == (r.key, EntryOf(r)) || (p in s.mem.entries && p.0 != r.key))
      && (r.key, EntryOf(r)) in s'.mem.entries && LiveKey(s', r.key)
      && (forall k | LiveKey(s', k) :: LiveKey(s, k) || k == r.key)
  {
    InsertStep(s, t);
    hide Step;
    hide Insert;
    assert TaskOk(s, t);
    var s', r := Step(s, InsertEntry(t)), PcOf(s, t).record;
    CacheCoherence.InsertKeepsOnly(s.mem, s.lim, r.key, EntryOf(r), PcOf(s, t).guard);
    CacheCoherence.InsertKept(s, r.key, EntryOf(r), PcOf(s, t).guard);
    forall k | LiveKey(s', k) ensures LiveKey(s, k) || k == r.key {
      var v := Lru.Find(s'.mem.entries, k).value;
      assert (k, v) in s'.mem.entries;
    }
  }

  lemma DoomAllMeans(ps: seq<FileName>, withRecord: bool, d: Doomed)
    ensures d in DoomAll(ps, withRecord) <==> d.path in ps && !d.tried && d.withRecord == withRecord
  {
    var ds := DoomAll(ps, withRecord);
    if d.path in ps && !d.tried && d.withRecord == withRecord {
      var i :| 0 <= i < |ps| && ps[i] == d.path;
      assert ds[i] == d;
    }
  }

  lemma NotOwnPath(s: State, t: Task, p: (Key, Entry))
    requires Inv(s) && Enabled(s, InsertEntry(t)) && p in s.mem.entries
    ensures Lru.Distinct(s.mem.entries) && p.1.path != EntryOf(PcOf(s, t).record).path
  {
    assert PublisherOk(s, t) && IsLive(s, p.1.path);
  }

  /** An old entry that an insertion did not keep was superseded or evicted, and its path is doomed accordingly. */
  lemma InsertDooms(s: State, t: Task, p: (Key, Entry))
    requires Inv(s) && Enabled(s, InsertEntry(t))
    requires p in s.mem.entries && p !in Step(s, InsertEntry(t)).mem.entries
    ensures PcOf(Step(s, InsertEntry(t)), t).Deleting?
    ensures Doomed(p.1.path, false, p.0 != PcOf(s, t).record.key) in PcOf(Step(s, InsertEntry(t)), t).doomed
  {
    hide *;
    var pc := PcOf(s, t);
    InsertStep(s, t);
    NotOwnPath(s, t, p);
    InsertSupersedes(s.mem, s.lim, pc.record.key, EntryOf(pc.record), pc.guard);
    if p.0 != pc.record.key {
      InsertEvictsAll(s.mem, s.lim, pc.record.key, EntryOf(pc.record), pc.guard, p);
    }
    var ins := Insert(s.mem, s.lim, pc.record.key, EntryOf(pc.record), pc.guard);
    DoomAllMeans(ins.1, false, Doomed(p.1.path, false, false));
    DoomAllMeans(ins.2, true, Doomed(p.1.path, false, true));
  }

  /** Only such entries' paths are doomed. */
  lemma DoomedWereLive(s: State, t: Task, d: Doomed)
    requires Inv(s) && Enabled(s, InsertEntry(t))
    requires PcOf(Step(s, InsertEntry(t)), t).Deleting? && d in PcOf(Step(s, InsertEntry(t)), t).doomed
    ensures !d.tried
    ensures exists p :: p in s.mem.entries && p !in Step(s, InsertEntry(t)).mem.entries && p.1.path == d.path
                     && (d.withRecord ==> p.0 != PcOf(s, t).record.key)
  {
    InsertStep(s, t);
    hide Step;
    hide Insert;
    var s', r, guard := Step(s, InsertEntry(t)), PcOf(s, t).record, PcOf(s, t).guard;
    InsertedKeys(s, t);
    var (m, superseded, evicted) := Insert(s.mem, s.lim, r.key, EntryOf(r), guard);
    DoomAllMeans(superseded, false, d);
    DoomAllMeans(evicted, true, d);
    if d.path in evicted && d.withRecord {
      InsertEvicts(s.mem, s.lim, r.key, EntryOf(r), guard, d.path);
    } else {
      InsertSupersedes(s.mem, s.lim, r.key, EntryOf(r), guard);
      var p :| p in s.mem.entries && p.0 == r.key && p.1.path == d.path;
      assert p !in s'.mem.entries;
    }
  }

  /** No entry is left under the key of one that was dropped for another key's sake. */
  lemma DroppedKeyIsGone(s: State, t: Task, p: (Key, Entry))
    requires Inv(s) && Enabled(s, InsertEntry(t))
    requires p in s.mem.entries && p !in Step(s, InsertEntry(t)).mem.entries && p.0 != PcOf(s, t).record.key
    ensures !LiveKey(Step(s, InsertEntry(t)), p.0)
  {
    InsertStep(s, t);
    hide Step;
    hide Insert;
    var s' := Step(s, InsertEntry(t));
    InsertedKeys(s, t);
    if LiveKey(s', p.0) {
      var v := Lru.Find(s'.mem.entries, p.0).value;
      assert (p.0, v) in s.mem.entries;
      Lru.FindIn(s.mem.entries, p.0, v);
      Lru.FindIn(s.mem.entries, p.0, p.1);
    }
  }

  lemma InsertKeepsDirectory(s: State, t: Task)
    requires Inv(s) && Enabled(s, InsertEntry(t)) && InvMemory(Step(s, InsertEntry(t)))
    ensures InvDisk(Step(s, InsertEntry(t)))
  {
    InsertKeepsPaths(s, t);
    InsertKeepsRecords(s, t);
  }

  lemma PublishedFiles(s: State, t: Task)
    requires Inv(s) && Enabled(s, InsertEntry(t))
    ensures PcOf(s, t).Publishing? && TaskOk(s, t) && FilesOk(s, RecordRenamed, PcOf(s, t).record, PcOf(s, t).data)
  {
    hide TaskOk;
    hide FilesOk;
    assert TaskOk(s, t) && PublisherOk(s, t);
  }

  lemma PublishedRecordOk(s: State, t: Task)
    requires Inv(s) && Enabled(s, InsertEntry(t))
    ensures PcOf(s, t).Publishing? && RecordOk(s, PcOf(s, t).record.key)
  {
    hide Inv;
    PublishedFiles(s, t);
  }

  /** Every path an insertion dooms was live and is dead. */
  ghost predicate DoomsDead(s: State, s': State, d: Doomed) {
    IsLive(s, d.path) && !IsLive(s', d.path) && d.path.Content? && !d.tried && (d.withRecord ==> !LiveKey(s', d.path.key))
  }

  lemma InsertDoomsDead(s: State, t: Task)
    requires Inv(s) && Enabled(s, InsertEntry(t))
    ensures var s' := Step(s, InsertEntry(t));
      && PcOf(s', t).Deleting? && (forall d | d in PcOf(s', t).doomed :: DoomsDead(s, s', d))
      && (forall p | IsLive(s', p) :: IsLive(s, p) || (PcOf(s, t).Publishing? && p == PcOf(s, t).record.path))
  {
    InsertStep(s, t);
    InsertedKeys(s, t);
    hide Step;
    hide Insert;
    hide Inv;
    hide Enabled;
    var s', r := Step(s, InsertEntry(t)), PcOf(s, t).record;
    forall d | d in PcOf(s', t).doomed ensures DoomsDead(s, s', d) {
      DoomedPathIsDead(s, t, d);
    }
    forall p | IsLive(s', p) ensures IsLive(s, p) || p == r.path {
      var q :| q in s'.mem.entries && q.1.path == p;
      assert q == (r.key, EntryOf(r)) || q in s.mem.entries;
    }
  }

  lemma InsertKeepsPaths(s: State, t: Task)
    requires Inv(s) && Enabled(s, InsertEntry(t))
    ensures var s' := Step(s, InsertEntry(t));
      FilesFine(s') && DeletionsHarmless(s') && PublishersOk(s') && DeletersOk(s')
  {
    InsertStep(s, t);
    InsertDoomsDead(s, t);
    PublishedRecordOk(s, t);
    hide Step;
    hide Insert;
    hide IsLive;
    hide LiveKey;
    hide RecordOk;
    hide Inv;
    hide Enabled;
    var s' := Step(s, InsertEntry(t));
    var ds := PcOf(s', t).doomed;
    EntriesChange(s, s', t, set d | d in ds :: d.path);
    forall u: Task ensures DeleterOk(s', u) {
      if u != t {
        OnlyHolderDeletes(s, t, u);
      } else {
        assert forall d | d in ds :: DoomsDead(s, s', d);
      }
    }
  }

  lemma OnlyHolderDeletes(s: State, t: Task, u: Task)
    requires Inv(s) && HoldsLock(PcOf(s, t)) && u != t
    ensures !PcOf(s, u).Deleting?
  {
    assert (HoldsLock(PcOf(s, t)) <==> s.lock == Some(t)) && (HoldsLock(PcOf(s, u)) <==> s.lock == Some(u));
  }

  lemma DoomedPathIsDead(s: State, t: Task, d: Doomed)
    requires Inv(s) && Enabled(s, InsertEntry(t))
    requires PcOf(Step(s, InsertEntry(t)), t).Deleting? && d in PcOf(Step(s, InsertEntry(t)), t).doomed
    ensures DoomsDead(s, Step(s, InsertEntry(t)), d)
  {
    InsertStep(s, t);
    hide Step;
    hide Insert;
    var s', r := Step(s, InsertEntry(t)), PcOf(s, t).record;
    assert PublisherOk(s, t);
    InsertedKeys(s, t);
    DoomedWereLive(s, t, d);
    var p :| p in s.mem.entries && p !in s'.mem.entries && p.1.path == d.path && (d.withRecord ==> p.0 != r.key);
    assert EntryOnDisk(s, p.0, p.1);
    if p.0 != r.key {
      DroppedKeyIsGone(s, t, p);
    }
    forall q | q in s'.mem.entries ensures q.1.path != d.path {
      if q != (r.key, EntryOf(r)) {
        assert EntryOnDisk(s, q.0, q.1);
        if q.0 == p.0 {
          Lru.FindIn(s.mem.entries, p.0, p.1);
          Lru.FindIn(s.mem.entries, p.0, q.1);
        }
      }
    }
  }

  lemma InsertKeepsRecords(s: State, t: Task)
    requires Inv(s) && Enabled(s, InsertEntry(t))
    ensures var s' := Step(s, InsertEntry(t)); EntriesOnDisk(s') && LiveRecordsOnDisk(s') && NoStrayRecords(s')
  {
    InsertKeepsLive(s, t);
    InsertLeavesNoStrays(s, t);
  }

  lemma PublishedPairOnDisk(s: State, t: Task)
    requires Inv(s) && Enabled(s, InsertEntry(t))
    ensures var s', r := Step(s, InsertEntry(t)), PcOf(s, t).record; EntryOnDisk(s', r.key, EntryOf(r)) && RecordLive(s', r.key, EntryOf(r))
  {
    hide Inv;
    hide Step;
    hide Insert;
    InsertStep(s, t);
    PublishedFiles(s, t);
    hide Enabled;
  }

  lemma InsertKeepsPair(s: State, t: Task, p: (Key, Entry))
    requires Inv(s) && Enabled(s, InsertEntry(t)) && p in Step(s, InsertEntry(t)).mem.entries
    ensures var s' := Step(s, InsertEntry(t)); EntryOnDisk(s', p.0, p.1) && (p.0 !in s'.ragged ==> RecordLive(s', p.0, p.1))
  {
    PublishedPairOnDisk(s, t);
    InsertStep(s, t);
    hide Step;
    hide Insert;
    var r := PcOf(s, t).record;
    assert HoldsLock(PcOf(s, t)) <==> s.lock == Some(t);
    InsertedKeys(s, t);
    if p != (r.key, EntryOf(r)) {
      assert EntryOnDisk(s, p.0, p.1);
    }
  }

  lemma InsertKeepsLive(s: State, t: Task)
    requires Inv(s) && Enabled(s, InsertEntry(t))
    ensures var s' := Step(s, InsertEntry(t)); EntriesOnDisk(s') && LiveRecordsOnDisk(s')
  {
    hide Step;
    hide Inv;
    hide Enabled;
    hide EntryOnDisk;
    hide RecordLive;
    var s' := Step(s, InsertEntry(t));
    forall p | p in s'.mem.entries
      ensures EntryOnDisk(s', p.0, p.1) && (p.0 !in s'.ragged ==> RecordLive(s', p.0, p.1))
    {
      InsertKeepsPair(s, t, p);
    }
  }

  lemma InsertLeavesNoStrays(s: State, t: Task)
    requires Inv(s) && Enabled(s, InsertEntry(t))
    ensures NoStrayRecords(Step(s, InsertEntry(t)))
  {
    InsertStep(s, t);
    hide Step;
    hide Insert;
    var s', r := Step(s, InsertEntry(t)), PcOf(s, t).record;
    assert HoldsLock(PcOf(s, t)) <==> s.lock == Some(t);
    InsertedKeys(s, t);
    assert forall k :: !Departing(s, k);
    forall k | Metadata(k) in s'.disk && k !in s'.ragged && !LiveKey(s', k) ensures Departing(s', k) {
      assert k != r.key && LiveKey(s, k);
      var v := Lru.Find(s.mem.entries, k).value;
      assert (k, v) in s.mem.entries && EntryOnDisk(s, k, v);
      assert (k, v) in s'.mem.entries ==> Lru.Holds(s'.mem.entries, k);
      InsertDooms(s, t, (k, v));
    }
  }

  lemma QuietStepKeepsDirectory(s: State, a: Action)
    requires Inv(s) && Enabled(s, a) && InvMemory(Step(s, a)) && IsQuiet(s, a)
    ensures InvDisk(Step(s, a))
  {
    QuietStep(s, a);
    hide *;
    QuietKeepsDirectory(s, Step(s, a), a.t);
  }

  lemma StepKinds(s: State, a: Action)
    requires Enabled(s, a)
    ensures match a
            case TakeOut(t) => PcOf(s, t).Removing? && (IsQuiet(s, a) || Holds(s.mem, PcOf(s, t).key, PcOf(s, t).condition))
            case RenameContent(_) => !IsQuiet(s, a)
            case RenameRecord(_) => !IsQuiet(s, a)
            case InsertEntry(_) => !IsQuiet(s, a)
            case DeleteContent(_, _) => !IsQuiet(s, a)
            case DeleteRecord(_, _) => !IsQuiet(s, a)
            case RetryOne(_, _) => !IsQuiet(s, a)
            case Touch(_) => !IsQuiet(s, a)
            case _ => IsQuiet(s, a)
  {
    hide Holds;
  }

  lemma StepKeepsDirectory(s: State, a: Action)
    requires Inv(s) && Enabled(s, a) && InvMemory(Step(s, a))
    ensures InvDisk(Step(s, a))
  {
    hide *;
    StepKinds(s, a);
    if IsQuiet(s, a) {
      QuietStepKeepsDirectory(s, a);
    } else {
      match a
      case TakeOut(t) => TakingOutKeepsDirectory(s, t);
      case RenameContent(t) => RenameContentKeepsDirectory(s, t);
      case RenameRecord(t) => RenameRecordKeepsDirectory(s, t);
      case InsertEntry(t) => InsertKeepsDirectory(s, t);
      case DeleteContent(t, ok) => DeleteContentKeepsDirectory(s, t, ok);
      case DeleteRecord(t, ok) => DeleteRecordKeepsDirectory(s, t, ok);
      case Touch(key) => TouchKeepsDirectory(s, key);
      case RetryOne(t, ok) => RetryOneKeepsDirectory(s, t, ok);
      case _ =>
    }
  }
}
