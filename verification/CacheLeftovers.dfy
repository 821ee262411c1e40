/**
 What failed removals leave behind. A dropped key can come back after a crash only if both its record and the content
 the record names are still on disk: the history of failed removals, beside the machine, tells exactly when.
 */
module CacheLeftovers {
  import opened Basics
  import opened FileNames
  import opened CacheMemory
  import opened CacheStates
  import opened CacheProtocol
  import CacheCoherence
  import CacheDirectory
  import Lru

  /**
   History. Of the start: the directory as it was `found`, the least UUID not yet used (`base`), and the `spare` files,
   which are neither metadata nor a live entry's. Since then: for every key whose record could not be removed, the
   content dropped with it; and the contents that could not be removed.
   */
  datatype Trace = Trace(found: map<FileName, FileData>, base: nat, spare: set<FileName>,
                         dropped: map<Key, FileName>, stuck: set<FileName>)

  function NextTrace(h: Trace, s: State, a: Action): Trace
    requires Enabled(s, a)
  {
    match a
    case DeleteContent(t, ok) =>
      var path := PcOf(s, t).doomed[0].path;
      if !ok && path in s.disk then h.(stuck := h.stuck + {path}) else h
    case RetryOne(t, ok) =>
      var path := PcOf(s, t).todo[0];
      if !ok && path in s.disk then h.(stuck := h.stuck + {path}) else h
    case DeleteRecord(t, ok) =>
      var path := PcOf(s, t).doomed[0].path;
      if !ok && Metadata(KeyOf(path)) in s.disk then h.(dropped := h.dropped[KeyOf(path) := path]) else h
    case _ => h
  }

  /** The record on disk of the key names this content. */
  predicate RecordNames(s: State, k: Key, p: FileName) {
    Metadata(k) in s.disk && s.disk[Metadata(k)].Json? && s.disk[Metadata(k)].record.path == p
  }

  /** The key's metadata file is the one that was found, and content of the key that it names was spare. */
  ghost predicate AsFound(s: State, h: Trace, k: Key) {
    && Metadata(k) in h.found && Metadata(k) in s.disk && s.disk[Metadata(k)] == h.found[Metadata(k)]
    && (s.disk[Metadata(k)].Json? ==>
          var p := s.disk[Metadata(k)].record.path;
          p.Content? && p.key == k && p in h.found ==> p in h.spare)
  }

  /**
   A key whose metadata file could not be removed is dead. If that was in this run, its record is whole and still names
   the content that was dropped; otherwise the file is as it was found.
   */
  ghost predicate RaggedOk(s: State, h: Trace, k: Key) {
    && !LiveKey(s, k)
    && (if k in h.dropped then
          && h.dropped[k].Content? && (Replacing(s, k) || (RecordOk(s, k) && RecordNames(s, k, h.dropped[k])))
          && (h.dropped[k] in s.disk ==> h.dropped[k] in h.stuck)
        else Replacing(s, k) || AsFound(s, h, k))
  }

  ghost predicate DoomedOk(s: State, h: Trace, d: Doomed) {
    && d.path.Content? && (d.tried && d.path in s.disk ==> d.path in h.stuck)
    && (d.withRecord ==>
          d.path.key !in s.ragged && (Metadata(d.path.key) in s.disk ==> RecordNames(s, d.path.key, d.path)))
  }

  /** No key's record is doomed twice. */
  ghost predicate DoomedOnce(ds: seq<Doomed>) {
    forall i, j | 0 <= i < j < |ds| && ds[i].withRecord && ds[j].withRecord :: KeyOf(ds[i].path) != KeyOf(ds[j].path)
  }

  ghost predicate DoomedTracked(s: State, h: Trace, t: Task) {
    var pc := PcOf(s, t);
    pc.Deleting? ==> DoomedOnce(pc.doomed) && forall d | d in pc.doomed :: DoomedOk(s, h, d)
  }

  ghost predicate Tracked(s: State, h: Trace) {
    && (forall k | k in s.ragged :: RaggedOk(s, h, k))
    && (forall t :: DoomedTracked(s, h, t))
  }

  // ---- The steps that move neither entries nor records nor content ----

  /** Such a step. */
  ghost predicate Calm(s: State, s': State) {
    && s'.ragged == s.ragged && s'.lim == s.lim && s'.nextId >= s.nextId
    && (forall k :: LiveKey(s', k) <==> LiveKey(s, k))
    && (forall k :: Replacing(s', k) <==> Replacing(s, k))
    && (forall k :: Metadata(k) in s'.disk <==> Metadata(k) in s.disk)
    && (forall k | Metadata(k) in s.disk :: s'.disk[Metadata(k)] == s.disk[Metadata(k)])
    && (forall f | f in s'.disk && f.Content? :: f in s.disk && s'.disk[f] == s.disk[f])
    && (forall u: Task | PcOf(s', u).Deleting? :: PcOf(s', u) == PcOf(s, u))
  }

  /** The history of failed removals grows, but not by this key's record. */
  predicate Extends(h: Trace, h': Trace, k: Key) {
    && h'.found == h.found && h'.spare == h.spare && h.stuck <= h'.stuck
    && (k in h'.dropped <==> k in h.dropped) && (k in h.dropped ==> h'.dropped[k] == h.dropped[k])
  }

  lemma RaggedFrame(s: State, s': State, h: Trace, h': Trace, k: Key)
    requires RaggedOk(s, h, k) && Extends(h, h', k) && !LiveKey(s', k)
    requires s'.lim == s.lim && s'.nextId >= s.nextId
    requires Replacing(s', k) || (!Replacing(s, k) && CacheDirectory.SameFile(s, s', Metadata(k)))
    requires forall p: FileName | p.Content? && p in s'.disk ::
      (p in s.disk && s'.disk[p] == s.disk[p]) || (!Replacing(s, k) && !Named(s, p))
    ensures RaggedOk(s', h', k)
  {
    hide LiveKey;
    hide Replacing;
    if !Replacing(s, k) && Metadata(k) in s.disk && s.disk[Metadata(k)].Json? {
      assert Named(s, s.disk[Metadata(k)].record.path);
    }
  }

  lemma CalmKeepsTracked(s: State, s': State, h: Trace, h': Trace)
    requires Calm(s, s') && Tracked(s, h) && h' == h.(stuck := h'.stuck) && h.stuck <= h'.stuck
    ensures Tracked(s', h')
  {
    forall k | k in s'.ragged ensures RaggedOk(s', h', k) {
      assert CacheDirectory.SameFile(s, s', Metadata(k));
      RaggedFrame(s, s', h, h', k);
    }
    hide LiveKey;
    hide Replacing;
    hide RaggedOk;
    forall u: Task ensures DoomedTracked(s', h', u) {
      assert DoomedTracked(s, h, u);
      if PcOf(s', u).Deleting? {
        forall d | d in PcOf(s', u).doomed ensures DoomedOk(s', h', d) {
          assert DoomedOk(s, h, d);
        }
      }
    }
  }

  lemma LockFacts(s: State, t: Task)
    requires InvMemory(s)
    ensures HoldsLock(PcOf(s, t)) <==> s.lock == Some(t)
    ensures forall u: Task :: PcOf(s, u).Deleting? ==> s.lock == Some(u)
  {
    assert forall u: Task :: HoldsLock(PcOf(s, u)) <==> s.lock == Some(u);
  }

  lemma QuietIsCalm(s: State, s': State, t: Task)
    requires CacheDirectory.QuietOnDisk(s, s', t)
    ensures Calm(s, s')
  {
    hide Condemned;
    hide Replacing;
    hide Departing;
    hide CacheDirectory.GoesOn;
    assert forall k :: CacheDirectory.SameFile(s, s', Metadata(k));
    assert forall f: FileName | f.Content? :: CacheDirectory.SameFile(s, s', f);
  }

  lemma RetryIsCalm(s: State, t: Task, ok: bool)
    requires InvMemory(s) && Enabled(s, RetryOne(t, ok)) && PcOf(s, t).todo[0].Content?
    ensures Calm(s, Step(s, RetryOne(t, ok)))
  {
    LockFacts(s, t);
    CacheDirectory.RetryOneStep(s, t, ok);
    hide InvMemory;
    hide Step;
  }

  lemma TouchIsCalm(s: State, key: Key)
    requires InvMemory(s)
    ensures Calm(s, Step(s, Touch(key)))
  {
    var s' := Step(s, Touch(key));
    assert s' == s.(mem := s'.mem) && s'.mem.entries == Lru.Promote(s.mem.entries, key);
    assert Lru.Distinct(s.mem.entries);
    hide InvMemory;
    hide Step;
    Lru.PromoteKeeps(s.mem.entries, key);
    CacheDirectory.SamePairsSameLive(s, s');
    hide LiveKey;
  }

  // ---- Renaming, deleting, inserting, taking out ----

  /** No publication replaces a record while its task is still at its content, or while another task holds the lock. */
  lemma OnlyHolderWorks(s: State, t: Task)
    requires InvMemory(s) && s.lock == Some(t)
    ensures forall u: Task | u != t :: !PcOf(s, u).Deleting?
    ensures (PcOf(s, t).Publishing? && PcOf(s, t).stage.RecordRenamed?) || forall k :: !Replacing(s, k)
  {
    assert forall u: Task :: HoldsLock(PcOf(s, u)) <==> s.lock == Some(u);
  }

  lemma NobodyDeletes(s': State, h: Trace)
    requires forall k | k in s'.ragged :: RaggedOk(s', h, k)
    requires forall u: Task :: !PcOf(s', u).Deleting?
    ensures Tracked(s', h)
  {
  }

  lemma RenameContentKeepsTracked(s: State, t: Task, h: Trace)
    requires Inv(s) && Enabled(s, RenameContent(t)) && Tracked(s, h)
    ensures Tracked(Step(s, RenameContent(t)), h)
  {
    CacheDirectory.RenameContentStep(s, t);
    CacheDirectory.RenameContentFacts(s, t);
    assert PcOf(s, t).Publishing? && PcOf(s, t).stage.Checked?;
    OnlyHolderWorks(s, t);
    hide Inv;
    hide Step;
    hide Enabled;
    hide PublisherOk;
    hide Named;
    var s' := Step(s, RenameContent(t));
    forall k | k in s'.ragged ensures RaggedOk(s', h, k) {
      assert RaggedOk(s, h, k) && !LiveKey(s', k) && CacheDirectory.SameFile(s, s', Metadata(k));
      hide RaggedOk;
      RaggedFrame(s, s', h, h, k);
    }
    hide RaggedOk;
    NobodyDeletes(s', h);
  }

  lemma RenameRecordKeepsTracked(s: State, t: Task, h: Trace)
    requires Inv(s) && Enabled(s, RenameRecord(t)) && Tracked(s, h)
    ensures Tracked(Step(s, RenameRecord(t)), h)
  {
    hide InvMemory;
    hide InvDisk;
    CacheDirectory.RenameRecordStep(s, t);
    CacheDirectory.RenameRecordFacts(s, t);
    OnlyHolderWorks(s, t);
    hide Step;
    hide Enabled;
    hide PublisherOk;
    hide FilesOk;
    hide TaskOk;
    hide Named;
    var s', r := Step(s, RenameRecord(t)), PcOf(s, t).record;
    forall k | k in s'.ragged ensures RaggedOk(s', h, k) {
      assert RaggedOk(s, h, k) && !LiveKey(s', k);
      assert k == r.key ==> Replacing(s', k);
      assert k != r.key ==> CacheDirectory.SameFile(s, s', Metadata(k));
      hide RaggedOk;
      RaggedFrame(s, s', h, h, k);
    }
    hide RaggedOk;
    NobodyDeletes(s', h);
  }

  lemma DoomedOnceStays(ds: seq<Doomed>)
    requires ds != [] && DoomedOnce(ds)
    ensures DoomedOnce(ds[1..]) && DoomedOnce([ds[0].(tried := true)] + ds[1..])
  {
    var tail := ds[1..];
    assert forall i | 0 <= i < |tail| :: tail[i] == ds[i + 1];
  }

  lemma DeletingMoves(s: State, s': State, t: Task, h: Trace, h': Trace, ds: seq<Doomed>)
    requires forall u: Task | u != t :: !PcOf(s, u).Deleting? && PcOf(s', u) == PcOf(s, u)
    requires PcOf(s', t) == Deleting(ds) && DoomedOnce(ds) && forall d | d in ds :: DoomedOk(s', h', d)
    requires forall k | k in s'.ragged :: RaggedOk(s', h', k)
    ensures Tracked(s', h')
  {
    hide DoomedOk;
    hide RaggedOk;
    hide DoomedOnce;
  }

  /** The task holds the lock and has something to delete. */
  lemma HolderDeletes(s: State, h: Trace, t: Task)
    requires Inv(s) && Tracked(s, h) && PcOf(s, t).Deleting? && PcOf(s, t).doomed != []
    ensures var ds := PcOf(s, t).doomed;
      && DoomedOnce(ds) && (forall d | d in ds :: DoomedOk(s, h, d)) && ds[0].path.Content? && (ds[0].tried ==> ds[0].withRecord)
      && (ds[0].withRecord ==> !LiveKey(s, ds[0].path.key))
    ensures (forall u: Task | u != t :: !PcOf(s, u).Deleting?) && forall k :: !Replacing(s, k)
  {
    LockFacts(s, t);
    OnlyHolderWorks(s, t);
    assert DoomedTracked(s, h, t) && DeleterOk(s, t);
    assert PcOf(s, t).doomed[0] in PcOf(s, t).doomed;
    hide DoomedOk;
    hide Replacing;
    hide LiveKey;
    hide Inv;
  }

  lemma DeleteContentKeepsRagged(s: State, t: Task, ok: bool, h: Trace, k: Key)
    requires Inv(s) && Enabled(s, DeleteContent(t, ok)) && Tracked(s, h) && k in s.ragged
    ensures RaggedOk(Step(s, DeleteContent(t, ok)), NextTrace(h, s, DeleteContent(t, ok)), k)
  {
    hide Inv;
    HolderDeletes(s, h, t);
    CacheDirectory.DeleteContentStep(s, t, ok);
    var s', h' := Step(s, DeleteContent(t, ok)), NextTrace(h, s, DeleteContent(t, ok));
    assert h' == h.(stuck := h'.stuck) && h.stuck <= h'.stuck;
    hide Step;
    hide Enabled;
    hide NextTrace;
    assert RaggedOk(s, h, k) && !LiveKey(s', k) && CacheDirectory.SameFile(s, s', Metadata(k));
    hide RaggedOk;
    hide Tracked;
    RaggedFrame(s, s', h, h', k);
  }

  lemma DeleteContentKeepsDoomed(s: State, t: Task, ok: bool, h: Trace, d: Doomed)
    requires Inv(s) && Enabled(s, DeleteContent(t, ok)) && Tracked(s, h)
    requires d in CacheDirectory.AfterTry(PcOf(s, t).doomed)
    ensures DoomedOk(Step(s, DeleteContent(t, ok)), NextTrace(h, s, DeleteContent(t, ok)), d)
  {
    hide Inv;
    HolderDeletes(s, h, t);
    CacheDirectory.DeleteContentStep(s, t, ok);
    var ds := PcOf(s, t).doomed;
    var s', h' := Step(s, DeleteContent(t, ok)), NextTrace(h, s, DeleteContent(t, ok));
    assert ds[0].path in s'.disk ==> ds[0].path in h'.stuck;
    assert h.stuck <= h'.stuck;
    hide Step;
    hide Enabled;
    hide NextTrace;
    hide Tracked;
    assert forall e | e in ds[1..] :: e in ds;
    assert DoomedOk(s, h, ds[0]) && (d in ds ==> DoomedOk(s, h, d));
  }

  lemma DeleteContentKeepsTracked(s: State, t: Task, ok: bool, h: Trace)
    requires Inv(s) && Enabled(s, DeleteContent(t, ok)) && Tracked(s, h)
    ensures Tracked(Step(s, DeleteContent(t, ok)), NextTrace(h, s, DeleteContent(t, ok)))
  {
    HolderDeletes(s, h, t);
    CacheDirectory.DeleteContentStep(s, t, ok);
    var ds := PcOf(s, t).doomed;
    var s', h' := Step(s, DeleteContent(t, ok)), NextTrace(h, s, DeleteContent(t, ok));
    DoomedOnceStays(ds);
    hide Inv;
    hide Step;
    hide Enabled;
    hide NextTrace;
    hide DoomedOnce;
    hide Tracked;
    hide RaggedOk;
    hide DoomedOk;
    forall k | k in s'.ragged ensures RaggedOk(s', h', k) {
      DeleteContentKeepsRagged(s, t, ok, h, k);
    }
    forall d | d in PcOf(s', t).doomed ensures DoomedOk(s', h', d) {
      DeleteContentKeepsDoomed(s, t, ok, h, d);
    }
    DeletingMoves(s, s', t, h, h', PcOf(s', t).doomed);
  }

  /** The record that could not be removed is whole and names the content dropped with it. */
  lemma LeftRecord(s: State, t: Task, ok: bool, h: Trace)
    requires Inv(s) && Enabled(s, DeleteRecord(t, ok)) && Tracked(s, h)
    ensures var d := PcOf(s, t).doomed[0];
      Metadata(KeyOf(d.path)) in s.disk ==> RecordOk(s, KeyOf(d.path)) && RecordNames(s, KeyOf(d.path), d.path)
  {
    HolderDeletes(s, h, t);
    var d := PcOf(s, t).doomed[0];
    assert d.tried && DoomedOk(s, h, d);
    if Metadata(d.path.key) in s.disk {
      assert FileOk(s, Metadata(d.path.key));
    }
    hide Inv;
    hide Enabled;
    hide RecordOk;
  }

  /** The history of the step: a record that stays is noted with the content dropped with it. */
  lemma DeleteRecordTrace(s: State, t: Task, ok: bool, h: Trace)
    requires Enabled(s, DeleteRecord(t, ok))
    requires KeyOf(PcOf(s, t).doomed[0].path) !in s.ragged
    ensures var key, path := KeyOf(PcOf(s, t).doomed[0].path), PcOf(s, t).doomed[0].path;
      NextTrace(h, s, DeleteRecord(t, ok)) ==
        if key in Step(s, DeleteRecord(t, ok)).ragged then h.(dropped := h.dropped[key := path]) else h
  {
    CacheDirectory.DeleteRecordStep(s, t, ok);
    hide Step;
  }

  lemma DeleteRecordKeepsRagged(s: State, t: Task, ok: bool, h: Trace, k: Key)
    requires Inv(s) && Enabled(s, DeleteRecord(t, ok)) && Tracked(s, h) && k in Step(s, DeleteRecord(t, ok)).ragged
    ensures RaggedOk(Step(s, DeleteRecord(t, ok)), NextTrace(h, s, DeleteRecord(t, ok)), k)
  {
    hide Inv;
    HolderDeletes(s, h, t);
    LeftRecord(s, t, ok, h);
    CacheDirectory.DeleteRecordStep(s, t, ok);
    var d := PcOf(s, t).doomed[0];
    var key := KeyOf(d.path);
    assert DoomedOk(s, h, d);
    DeleteRecordTrace(s, t, ok, h);
    hide Step;
    hide Enabled;
    hide NextTrace;
    var s', h' := Step(s, DeleteRecord(t, ok)), NextTrace(h, s, DeleteRecord(t, ok));
    if k != key {
      assert RaggedOk(s, h, k) && !LiveKey(s', k) && CacheDirectory.SameFile(s, s', Metadata(k));
      hide Tracked;
      hide RaggedOk;
      RaggedFrame(s, s', h, h', k);
    }
  }

  lemma DeleteRecordKeepsDoomed(s: State, t: Task, ok: bool, h: Trace, d: Doomed)
    requires Inv(s) && Enabled(s, DeleteRecord(t, ok)) && Tracked(s, h) && d in PcOf(s, t).doomed[1..]
    ensures DoomedOk(Step(s, DeleteRecord(t, ok)), NextTrace(h, s, DeleteRecord(t, ok)), d)
  {
    hide Inv;
    HolderDeletes(s, h, t);
    CacheDirectory.DeleteRecordStep(s, t, ok);
    var ds := PcOf(s, t).doomed;
    assert NextTrace(h, s, DeleteRecord(t, ok)).stuck == h.stuck;
    hide Step;
    hide Enabled;
    hide NextTrace;
    hide Tracked;
    var i :| 0 <= i < |ds[1..]| && ds[1..][i] == d;
    assert ds[i + 1] == d && d in ds && DoomedOk(s, h, d);
  }

  lemma DeleteRecordKeepsTracked(s: State, t: Task, ok: bool, h: Trace)
    requires Inv(s) && Enabled(s, DeleteRecord(t, ok)) && Tracked(s, h)
    ensures Tracked(Step(s, DeleteRecord(t, ok)), NextTrace(h, s, DeleteRecord(t, ok)))
  {
    HolderDeletes(s, h, t);
    CacheDirectory.DeleteRecordStep(s, t, ok);
    var ds := PcOf(s, t).doomed;
    DoomedOnceStays(ds);
    hide Inv;
    hide Step;
    hide Enabled;
    hide NextTrace;
    hide Tracked;
    hide RaggedOk;
    hide DoomedOk;
    hide DoomedOnce;
    var s', h' := Step(s, DeleteRecord(t, ok)), NextTrace(h, s, DeleteRecord(t, ok));
    forall k | k in s'.ragged ensures RaggedOk(s', h', k) {
      DeleteRecordKeepsRagged(s, t, ok, h, k);
    }
    forall d | d in ds[1..] ensures DoomedOk(s', h', d) {
      DeleteRecordKeepsDoomed(s, t, ok, h, d);
    }
    DeletingMoves(s, s', t, h, h', ds[1..]);
  }

  /** The record of a live entry names its content, and it was not left behind by a failed removal. */
  lemma LiveIsNamed(s: State, h: Trace, k: Key, e: Entry)
    requires Inv(s) && Tracked(s, h) && (k, e) in s.mem.entries && !Replacing(s, k)
    ensures k !in s.ragged && e.path.Content? && e.path.key == k
    ensures Metadata(k) in s.disk ==> RecordNames(s, k, e.path)
  {
    assert Lru.Holds(s.mem.entries, k);
    assert k in s.ragged ==> RaggedOk(s, h, k);
    assert RecordLive(s, k, e) && EntryOnDisk(s, k, e);
  }

  lemma TakingOutStep(s: State, t: Task)
    requires Enabled(s, TakeOut(t)) && Holds(s.mem, PcOf(s, t).key, PcOf(s, t).condition)
    ensures var s', found := Step(s, TakeOut(t)), Lru.Find(s.mem.entries, PcOf(s, t).key);
      && PcOf(s', t) == Deleting(if found.Some? then [Doomed(found.value.path, false, true)] else [])
      && (forall u: Task | u != t :: PcOf(s', u) == PcOf(s, u))
      && s.lock == None && s'.lock == Some(t) && s'.disk == s.disk && s'.ragged == s.ragged
      && s'.lim == s.lim && s'.nextId == s.nextId
  {
    hide Holds;
    hide Bump;
    hide Lru.Without;
  }

  lemma TakingOutKeepsTracked(s: State, t: Task, h: Trace)
    requires Inv(s) && Enabled(s, TakeOut(t)) && Tracked(s, h) && Holds(s.mem, PcOf(s, t).key, PcOf(s, t).condition)
    ensures Tracked(Step(s, TakeOut(t)), h)
  {
    hide InvMemory;
    hide InvDisk;
    CacheDirectory.TakenOutKeys(s, t);
    LockFacts(s, t);
    TakingOutStep(s, t);
    var s', key := Step(s, TakeOut(t)), PcOf(s, t).key;
    var found := Lru.Find(s.mem.entries, key);
    hide Step;
    hide Holds;
    hide Enabled;
    if found.Some? {
      assert (key, found.value) in s.mem.entries;
      LiveIsNamed(s, h, key, found.value);
    }
    hide Lru.Find;
    forall k | k in s'.ragged ensures RaggedOk(s', h, k) {
      assert RaggedOk(s, h, k) && CacheDirectory.SameFile(s, s', Metadata(k));
      hide RaggedOk;
      RaggedFrame(s, s', h, h, k);
    }
    hide RaggedOk;
    DeletingMoves(s, s', t, h, h, PcOf(s', t).doomed);
  }

  /** What an insertion evicts are old entries of different keys. */
  lemma EvictedTail(s: State, t: Task)
    requires Inv(s) && Enabled(s, InsertEntry(t))
    ensures var r := PcOf(s, t).record;
      var (m, _, evicted) := Insert(s.mem, s.lim, r.key, EntryOf(r), PcOf(s, t).guard);
      var all := [(r.key, EntryOf(r))] + Lru.Without(s.mem.entries, r.key);
      && m.entries != [] && |m.entries| <= |all| && Lru.Distinct(all) && evicted == PathsFromEnd(all[|m.entries|..])
  {
    var r, guard := PcOf(s, t).record, PcOf(s, t).guard;
    assert TaskOk(s, t);
    CacheCoherence.InsertKept(s, r.key, EntryOf(r), guard);
    InsertSplits(s.mem, s.lim, r.key, EntryOf(r), guard);
    Lru.PushFrontDistinct(s.mem.entries, r.key, EntryOf(r));
    hide Insert;
  }

  lemma OldPathsAreTheirKeys(s: State, p: (Key, Entry))
    requires Inv(s) && p in s.mem.entries
    ensures KeyOf(p.1.path) == p.0
  {
    assert EntryOnDisk(s, p.0, p.1);
  }

  /** The evicted paths are of different keys, one each. */
  lemma EvictedDistinct(s: State, t: Task)
    requires Inv(s) && Enabled(s, InsertEntry(t))
    ensures var r := PcOf(s, t).record;
      var evicted := Insert(s.mem, s.lim, r.key, EntryOf(r), PcOf(s, t).guard).2;
      forall i, j | 0 <= i < j < |evicted| :: KeyOf(evicted[i]) != KeyOf(evicted[j])
  {
    hide *;
    CacheDirectory.InsertStep(s, t);
    EvictedTail(s, t);
    var r, guard := PcOf(s, t).record, PcOf(s, t).guard;
    var w := Lru.Without(s.mem.entries, r.key);
    var all := [(r.key, EntryOf(r))] + w;
    var (m, _, evicted) := Insert(s.mem, s.lim, r.key, EntryOf(r), guard);
    var n := |m.entries|;
    forall i | n <= i < |all| ensures KeyOf(all[i].1.path) == all[i].0 {
      assert all[i] == w[i - 1] && all[i] in w;
      OldPathsAreTheirKeys(s, all[i]);
    }
    TailDistinct(all, n);
  }

  lemma TailDistinct(all: Entries, n: nat)
    requires Lru.Distinct(all) && n <= |all| && forall i | n <= i < |all| :: KeyOf(all[i].1.path) == all[i].0
    ensures var evicted := PathsFromEnd(all[n..]);
      forall i, j | 0 <= i < j < |evicted| :: KeyOf(evicted[i]) != KeyOf(evicted[j])
  {
    hide KeyOf;
    hide PathsFromEnd;
    var tail, evicted := all[n..], PathsFromEnd(all[n..]);
    forall i, j | 0 <= i < j < |evicted| ensures KeyOf(evicted[i]) != KeyOf(evicted[j]) {
      EvictedPair(tail, i, j);
      var a, b := |all| - 1 - i, |all| - 1 - j;
      assert tail[|tail| - 1 - i] == all[a] && tail[|tail| - 1 - j] == all[b] && b < a;
    }
  }

  lemma EvictedPair(tail: Entries, i: nat, j: nat)
    requires i < j < |PathsFromEnd(tail)|
    ensures |PathsFromEnd(tail)| == |tail|
    ensures PathsFromEnd(tail)[i] == tail[|tail| - 1 - i].1.path && PathsFromEnd(tail)[j] == tail[|tail| - 1 - j].1.path
  {
    PathsFromEndLength(tail);
    PathsFromEndAt(tail, i);
    PathsFromEndAt(tail, j);
  }

  lemma InsertDoomsOnce(s: State, t: Task)
    requires Inv(s) && Enabled(s, InsertEntry(t))
    ensures PcOf(Step(s, InsertEntry(t)), t).Deleting? && DoomedOnce(PcOf(Step(s, InsertEntry(t)), t).doomed)
  {
    hide Inv;
    EvictedDistinct(s, t);
    CacheDirectory.InsertStep(s, t);
    hide Step;
    hide Insert;
    hide Enabled;
    var r := PcOf(s, t).record;
    var ins := Insert(s.mem, s.lim, r.key, EntryOf(r), PcOf(s, t).guard);
    var ds := PcOf(Step(s, InsertEntry(t)), t).doomed;
    var n := |ins.1|;
    assert ds == DoomAll(ins.1, false) + DoomAll(ins.2, true);
    forall i, j | 0 <= i < j < |ds| && ds[i].withRecord && ds[j].withRecord ensures KeyOf(ds[i].path) != KeyOf(ds[j].path) {
      assert i >= n && j >= n && ds[i].path == ins.2[i - n] && ds[j].path == ins.2[j - n];
    }
  }

  lemma OldEntryOnDisk(s: State, p: (Key, Entry))
    requires Inv(s) && p in s.mem.entries
    ensures EntryOnDisk(s, p.0, p.1)
  {
  }

  lemma InsertDoomedOk(s: State, t: Task, h: Trace, d: Doomed)
    requires Inv(s) && Enabled(s, InsertEntry(t)) && Tracked(s, h)
    requires PcOf(Step(s, InsertEntry(t)), t).Deleting? && d in PcOf(Step(s, InsertEntry(t)), t).doomed
    ensures DoomedOk(Step(s, InsertEntry(t)), h, d)
  {
    hide InvMemory;
    hide InvDisk;
    hide Tracked;
    CacheDirectory.DoomedWereLive(s, t, d);
    CacheDirectory.InsertStep(s, t);
    LockFacts(s, t);
    hide Step;
    hide Insert;
    hide Enabled;
    var s', r := Step(s, InsertEntry(t)), PcOf(s, t).record;
    var p :| p in s.mem.entries && p !in s'.mem.entries && p.1.path == d.path && (d.withRecord ==> p.0 != r.key);
    OldEntryOnDisk(s, p);
    if d.withRecord {
      assert !Replacing(s, p.0);
      LiveIsNamed(s, h, p.0, p.1);
    }
  }

  lemma InsertKeepsRagged(s: State, t: Task, h: Trace, k: Key)
    requires Inv(s) && Enabled(s, InsertEntry(t)) && Tracked(s, h) && k in Step(s, InsertEntry(t)).ragged
    ensures RaggedOk(Step(s, InsertEntry(t)), h, k)
  {
    CacheDirectory.InsertStep(s, t);
    CacheDirectory.InsertedKeys(s, t);
    LockFacts(s, t);
    hide Step;
    hide Insert;
    hide Inv;
    hide Enabled;
    var s', r := Step(s, InsertEntry(t)), PcOf(s, t).record;
    assert k != r.key && RaggedOk(s, h, k) && !Replacing(s, k) && !LiveKey(s', k);
    assert CacheDirectory.SameFile(s, s', Metadata(k));
    hide RaggedOk;
    hide LiveKey;
    RaggedFrame(s, s', h, h, k);
  }

  lemma InsertKeepsTracked(s: State, t: Task, h: Trace)
    requires Inv(s) && Enabled(s, InsertEntry(t)) && Tracked(s, h)
    ensures Tracked(Step(s, InsertEntry(t)), h)
  {
    CacheDirectory.InsertStep(s, t);
    InsertDoomsOnce(s, t);
    LockFacts(s, t);
    var s' := Step(s, InsertEntry(t));
    hide Step;
    hide Insert;
    hide Inv;
    hide Enabled;
    hide Tracked;
    hide DoomedOk;
    hide RaggedOk;
    hide DoomedOnce;
    forall d | d in PcOf(s', t).doomed ensures DoomedOk(s', h, d) {
      InsertDoomedOk(s, t, h, d);
    }
    forall k | k in s'.ragged ensures RaggedOk(s', h, k) {
      InsertKeepsRagged(s, t, h, k);
    }
    DeletingMoves(s, s', t, h, h, PcOf(s', t).doomed);
  }

  // ---- Every step ----

  lemma CalmStepKeepsTracked(s: State, a: Action, h: Trace)
    requires Enabled(s, a) && Tracked(s, h) && Calm(s, Step(s, a)) && !a.DeleteRecord?
    ensures Tracked(Step(s, a), NextTrace(h, s, a))
  {
    var h' := NextTrace(h, s, a);
    assert h' == h.(stuck := h'.stuck) && h.stuck <= h'.stuck;
    hide *;
    CalmKeepsTracked(s, Step(s, a), h, h');
  }

  lemma RetriedIsMade(s: State, t: Task, ok: bool)
    requires Inv(s) && Enabled(s, RetryOne(t, ok))
    ensures PcOf(s, t).Retrying? && PcOf(s, t).todo != [] && Condemned(s, PcOf(s, t).todo[0]) && PcOf(s, t).todo[0].Content?
  {
    assert CondemnedBy(PcOf(s, t), PcOf(s, t).todo[0]);
    assert Condemned(s, PcOf(s, t).todo[0]);
  }

  lemma QuietStepIsCalm(s: State, a: Action)
    requires Inv(s) && Enabled(s, a) && CacheDirectory.IsQuiet(s, a)
    ensures Calm(s, Step(s, a)) && !a.DeleteRecord?
  {
    CacheDirectory.QuietStep(s, a);
    hide Inv;
    hide Step;
    hide Enabled;
    QuietIsCalm(s, Step(s, a), a.t);
    hide Calm;
    hide CacheDirectory.QuietOnDisk;
  }

  lemma OtherTrace(h: Trace, s: State, a: Action)
    requires Enabled(s, a) && !a.DeleteContent? && !a.DeleteRecord? && !a.RetryOne?
    ensures NextTrace(h, s, a) == h
  {
  }

  lemma StepKeepsTracked(s: State, a: Action, h: Trace)
    requires Inv(s) && Enabled(s, a) && Tracked(s, h)
    ensures Tracked(Step(s, a), NextTrace(h, s, a))
  {
    hide *;
    CacheDirectory.StepKinds(s, a);
    if !a.DeleteContent? && !a.DeleteRecord? && !a.RetryOne? {
      OtherTrace(h, s, a);
    }
    if CacheDirectory.IsQuiet(s, a) {
      QuietStepIsCalm(s, a);
      CalmStepKeepsTracked(s, a, h);
    } else {
      InvIsBoth(s);
      match a
      case RenameContent(t) => RenameContentKeepsTracked(s, t, h);
      case RenameRecord(t) => RenameRecordKeepsTracked(s, t, h);
      case InsertEntry(t) => InsertKeepsTracked(s, t, h);
      case DeleteContent(t, ok) => DeleteContentKeepsTracked(s, t, ok, h);
      case DeleteRecord(t, ok) => DeleteRecordKeepsTracked(s, t, ok, h);
      case TakeOut(t) => TakingOutKeepsTracked(s, t, h);
      case RetryOne(t, ok) =>
        RetriedIsMade(s, t, ok);
        RetryIsCalm(s, t, ok);
        CalmStepKeepsTracked(s, a, h);
      case Touch(key) =>
        TouchIsCalm(s, key);
        CalmStepKeepsTracked(s, a, h);
      case _ =>
    }
  }

  lemma InvIsBoth(s: State)
    requires Inv(s)
    ensures InvMemory(s) && InvDisk(s)
  {
  }
}
