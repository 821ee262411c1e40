/**
 What a start leaves to the run after it. Recovery may have left files it could not remove: damaged metadata, records
 that claim other content, pairs beyond the limits, temporary files. The running cache touches none of them, except that
 a publication replaces the metadata file of its own key.
 */
module CacheInheritance {
  import opened Basics
  import opened FileNames
  import opened CacheMemory
  import opened CacheStates
  import opened CacheProtocol
  import opened CacheLeftovers
  import CacheCoherence
  import CacheDirectory
  import Lru

  /** A file made, or a record written, with a UUID from `base` on. */
  predicate Newer(f: FileName, data: FileData, base: nat) {
    match f
    case Content(_, id) => id >= base
    case ContentTemp(_, id) => id >= base
    case MetadataTemp(_, id) => id >= base
    case Metadata(k) => data.Json? && data.record.key == k && data.record.path.Content? && data.record.path.id >= base
    case _ => false
  }

  /** No UUID from `base` on is used by a file, or by a record in one. */
  predicate NameKnown(f: FileName, data: FileData, base: nat) {
    && ClaimKnown(data, base)
    && (match f
        case Content(_, id) => id < base
        case ContentTemp(_, id) => id < base
        case MetadataTemp(_, id) => id < base
        case _ => true)
  }

  predicate AllKnown(files: map<FileName, FileData>, base: nat) {
    forall f | f in files :: NameKnown(f, files[f], base)
  }

  /** The file is as it was found. */
  predicate StillThere(s: State, h: Trace, f: FileName) {
    f in h.found && f in s.disk && s.disk[f] == h.found[f]
  }

  /** Nothing is under way against the file. */
  ghost predicate LeftAlone(s: State, f: FileName) {
    f in s.disk && !IsLive(s, f) && !Condemned(s, f)
  }

  ghost predicate PublishesNewer(s: State, base: nat) {
    forall t: Task | PcOf(s, t).Publishing? :: PcOf(s, t).record.path.Content? && PcOf(s, t).record.path.id >= base
  }

  /** Every file is as it was found or newer than the start, and spare files are left alone. */
  ghost predicate Inherits(s: State, h: Trace) {
    && AllKnown(h.found, h.base) && h.base <= s.nextId && PublishesNewer(s, h.base)
    && (forall f | f in h.spare :: f in h.found && !f.Metadata? && LeftAlone(s, f))
    && (forall f | f in s.disk :: StillThere(s, h, f) || Newer(f, s.disk[f], h.base))
  }

  /** What every step keeps to, for the files that carry a UUID below `base`. */
  ghost predicate SparesOld(s: State, s': State, base: nat) {
    && s'.lim == s.lim && s'.nextId >= s.nextId && PublishesNewer(s', base)
    && (forall f | f in s'.disk && !(f in s.disk && s'.disk[f] == s.disk[f]) :: Newer(f, s'.disk[f], base))
    && (forall f | f in s.disk && f !in s'.disk :: f.Metadata? || Condemned(s, f) || Newer(f, s.disk[f], base))
    && (forall p | IsLive(s', p) :: IsLive(s, p) || (p.Content? && p.id >= base))
    && (forall p | Condemned(s', p) :: Condemned(s, p) || IsLive(s, p))
  }

  lemma SparesOldKeepsInherits(s: State, s': State, h: Trace)
    requires Inherits(s, h) && SparesOld(s, s', h.base)
    ensures Inherits(s', h)
  {
    hide IsLive;
    hide Condemned;
    hide PublishesNewer;
    forall f | f in h.spare ensures LeftAlone(s', f) {
      assert LeftAlone(s, f) && NameKnown(f, h.found[f], h.base) && (StillThere(s, h, f) || Newer(f, s.disk[f], h.base));
    }
    forall f | f in s'.disk ensures StillThere(s', h, f) || Newer(f, s'.disk[f], h.base) {
      if f in s.disk && s'.disk[f] == s.disk[f] {
        assert StillThere(s, h, f) || Newer(f, s.disk[f], h.base);
      }
    }
  }

  lemma SameLivePaths(s: State, s': State)
    requires s'.mem == s.mem
    ensures forall p :: IsLive(s', p) <==> IsLive(s, p)
  {
  }

  lemma QuietSparesOld(s: State, s': State, t: Task, base: nat)
    requires CacheDirectory.QuietOnDisk(s, s', t) && PublishesNewer(s, base) && base <= s.nextId
    ensures SparesOld(s, s', base)
  {
    hide Condemned;
    hide Replacing;
    hide Departing;
    forall f: FileName
      ensures CacheDirectory.SameFile(s, s', f) || (Newer(f, Special, base) && !f.Metadata?)
    {
      assert CacheDirectory.OwnTemp(s, t, f) || CacheDirectory.SameFile(s, s', f);
    }
    forall f | f in s'.disk && !(f in s.disk && s'.disk[f] == s.disk[f]) ensures Newer(f, s'.disk[f], base) {
      assert !CacheDirectory.SameFile(s, s', f);
    }
    forall f | f in s.disk && f !in s'.disk ensures Newer(f, s.disk[f], base) {
      assert !CacheDirectory.SameFile(s, s', f);
    }
    forall u: Task | PcOf(s', u).Publishing? ensures PcOf(s', u).record.path.Content? && PcOf(s', u).record.path.id >= base {
      assert u != t ==> PcOf(s', u) == PcOf(s, u);
    }
    forall p | IsLive(s', p) ensures IsLive(s, p) {
      var q :| q in s'.mem.entries && q.1.path == p;
      assert q in s.mem.entries;
    }
  }

  lemma RenameContentSparesOld(s: State, t: Task, base: nat)
    requires Inv(s) && Enabled(s, RenameContent(t)) && PublishesNewer(s, base)
    ensures SparesOld(s, Step(s, RenameContent(t)), base)
  {
    CacheDirectory.RenameContentStep(s, t);
    CacheDirectory.RenameContentKeepsTasks(s, t);
    hide Inv;
    hide Step;
    hide PublishersOk;
    hide DeletersOk;
    hide Condemned;
    assert PcOf(s, t).Publishing?;
    hide Enabled;
    var s' := Step(s, RenameContent(t));
    SameLivePaths(s, s');
    hide IsLive;
  }

  lemma RenameRecordSparesOld(s: State, t: Task, base: nat)
    requires Inv(s) && Enabled(s, RenameRecord(t)) && PublishesNewer(s, base)
    ensures SparesOld(s, Step(s, RenameRecord(t)), base)
  {
    CacheDirectory.RenameRecordStep(s, t);
    CacheDirectory.RenameRecordFacts(s, t);
    CacheDirectory.RenameRecordKeepsTasks(s, t);
    hide Inv;
    hide Step;
    hide Enabled;
    hide PublishersOk;
    hide DeletersOk;
    hide PublisherOk;
    hide TaskOk;
    hide Condemned;
    var s' := Step(s, RenameRecord(t));
    SameLivePaths(s, s');
    hide IsLive;
  }

  /** Removing a condemned content file, or one metadata file, and condemning nothing new. */
  lemma RemovalSparesOld(s: State, s': State, t: Task, f: FileName, base: nat)
    requires PublishesNewer(s, base) && s'.mem == s.mem && s'.nextId == s.nextId && s'.lim == s.lim
    requires s'.disk == s.disk || s'.disk == s.disk - {f}
    requires f.Metadata? || Condemned(s, f)
    requires !PcOf(s', t).Publishing? && forall u: Task | u != t :: PcOf(s', u) == PcOf(s, u)
    requires forall p | p in s'.failed || CondemnedBy(PcOf(s', t), p) :: Condemned(s, p)
    ensures SparesOld(s, s', base)
  {
    CacheDirectory.CondemnedFrame(s, s', t);
    hide Condemned;
    SameLivePaths(s, s');
    hide IsLive;
    forall u: Task ensures PcOf(s', u).Publishing? ==> PcOf(s', u) == PcOf(s, u) {
    }
  }

  lemma DeleteContentSparesOld(s: State, t: Task, ok: bool, base: nat)
    requires Enabled(s, DeleteContent(t, ok)) && PublishesNewer(s, base)
    ensures SparesOld(s, Step(s, DeleteContent(t, ok)), base)
  {
    CacheDirectory.DeleteContentStep(s, t, ok);
    var ds := PcOf(s, t).doomed;
    assert ds[0] in ds && DoomedPath(ds, ds[0].path) && CondemnedBy(PcOf(s, t), ds[0].path);
    CacheDirectory.AfterTryKeeps(ds);
    hide Step;
    hide Enabled;
    hide CacheDirectory.AfterTry;
    hide DoomedPath;
    hide PublishesNewer;
    RemovalSparesOld(s, Step(s, DeleteContent(t, ok)), t, ds[0].path, base);
  }

  lemma DeleteRecordSparesOld(s: State, t: Task, ok: bool, base: nat)
    requires Enabled(s, DeleteRecord(t, ok)) && PublishesNewer(s, base)
    ensures SparesOld(s, Step(s, DeleteRecord(t, ok)), base)
  {
    CacheDirectory.DeleteRecordStep(s, t, ok);
    var ds := PcOf(s, t).doomed;
    hide Step;
    hide Enabled;
    hide PublishesNewer;
    forall p | DoomedPath(ds[1..], p) ensures CondemnedBy(PcOf(s, t), p) {
      var d :| d in ds[1..] && d.path == p;
      assert d in ds;
    }
    RemovalSparesOld(s, Step(s, DeleteRecord(t, ok)), t, Metadata(KeyOf(ds[0].path)), base);
  }

  lemma RetryOneSparesOld(s: State, t: Task, ok: bool, base: nat)
    requires Enabled(s, RetryOne(t, ok)) && PublishesNewer(s, base)
    ensures SparesOld(s, Step(s, RetryOne(t, ok)), base)
  {
    CacheDirectory.RetryOneStep(s, t, ok);
    var todo := PcOf(s, t).todo;
    assert CondemnedBy(PcOf(s, t), todo[0]);
    hide Step;
    hide Enabled;
    hide PublishesNewer;
    assert forall p | p in todo[1..] :: p in todo;
    RemovalSparesOld(s, Step(s, RetryOne(t, ok)), t, todo[0], base);
  }

  lemma TouchSparesOld(s: State, key: Key, base: nat)
    requires InvMemory(s) && PublishesNewer(s, base)
    ensures SparesOld(s, Step(s, Touch(key)), base)
  {
    var s' := Step(s, Touch(key));
    assert s' == s.(mem := s'.mem) && s'.mem.entries == Lru.Promote(s.mem.entries, key);
    assert Lru.Distinct(s.mem.entries);
    hide InvMemory;
    hide Step;
    Lru.PromoteKeeps(s.mem.entries, key);
    CacheDirectory.SamePairsSameLive(s, s');
    hide IsLive;
    hide LiveKey;
    forall u: Task ensures PcOf(s', u) == PcOf(s, u) {
    }
    forall p | Condemned(s', p) ensures Condemned(s, p) {
      if p !in s.failed {
        var t: Task :| CondemnedBy(PcOf(s', t), p);
        assert PcOf(s, t) == PcOf(s', t);
      }
    }
  }

  /** The two steps that change the entries: no file moves, and what they condemn was live. */
  lemma EntriesSpareOld(s: State, s': State, t: Task, base: nat)
    requires PublishesNewer(s, base) && s'.disk == s.disk && s'.nextId == s.nextId && s'.failed == s.failed && s'.lim == s.lim
    requires PcOf(s', t).Deleting? && forall u: Task | u != t :: PcOf(s', u) == PcOf(s, u)
    requires forall d | d in PcOf(s', t).doomed :: IsLive(s, d.path)
    requires forall p | IsLive(s', p) :: IsLive(s, p) || (PcOf(s, t).Publishing? && p == PcOf(s, t).record.path)
    ensures SparesOld(s, s', base)
  {
    hide IsLive;
    forall p | Condemned(s', p) ensures Condemned(s, p) || IsLive(s, p) {
      if p !in s'.failed {
        var u: Task :| CondemnedBy(PcOf(s', u), p);
        if u != t {
          assert CondemnedBy(PcOf(s, u), p);
        }
      }
    }
    hide Condemned;
    forall u: Task ensures PcOf(s', u).Publishing? ==> PcOf(s', u) == PcOf(s, u) {
    }
  }

  lemma InsertSparesOld(s: State, t: Task, base: nat)
    requires Inv(s) && Enabled(s, InsertEntry(t)) && PublishesNewer(s, base)
    ensures SparesOld(s, Step(s, InsertEntry(t)), base)
  {
    CacheDirectory.InsertStep(s, t);
    CacheDirectory.InsertDoomsDead(s, t);
    hide Step;
    hide Insert;
    hide Inv;
    hide Enabled;
    hide IsLive;
    hide PublishesNewer;
    var s' := Step(s, InsertEntry(t));
    forall d | d in PcOf(s', t).doomed ensures IsLive(s, d.path) {
      assert CacheDirectory.DoomsDead(s, s', d);
    }
    EntriesSpareOld(s, s', t, base);
  }

  lemma TakingOutSparesOld(s: State, t: Task, base: nat)
    requires InvMemory(s) && Enabled(s, TakeOut(t)) && Holds(s.mem, PcOf(s, t).key, PcOf(s, t).condition) && PublishesNewer(s, base)
    ensures SparesOld(s, Step(s, TakeOut(t)), base)
  {
    TakingOutStep(s, t);
    CacheCoherence.TakingOutMoves(s, t);
    var s', key := Step(s, TakeOut(t)), PcOf(s, t).key;
    assert Lru.Distinct(s.mem.entries);
    hide InvMemory;
    hide Step;
    hide Holds;
    hide Enabled;
    hide PublishesNewer;
    Lru.WithoutDistinct(s.mem.entries, key);
    if Lru.Find(s.mem.entries, key).Some? {
      assert (key, Lru.Find(s.mem.entries, key).value) in s.mem.entries;
      assert IsLive(s, Lru.Find(s.mem.entries, key).value.path);
    }
    forall p | IsLive(s', p) ensures IsLive(s, p) {
      var q :| q in s'.mem.entries && q.1.path == p;
      assert q in s.mem.entries;
    }
    hide IsLive;
    EntriesSpareOld(s, s', t, base);
  }

  lemma QuietStepSparesOld(s: State, a: Action, base: nat)
    requires Inv(s) && Enabled(s, a) && CacheDirectory.IsQuiet(s, a) && PublishesNewer(s, base) && base <= s.nextId
    ensures SparesOld(s, Step(s, a), base)
  {
    CacheDirectory.QuietStep(s, a);
    hide *;
    QuietSparesOld(s, Step(s, a), a.t, base);
  }

  lemma StepSparesOld(s: State, a: Action, base: nat)
    requires Inv(s) && Enabled(s, a) && PublishesNewer(s, base) && base <= s.nextId
    ensures SparesOld(s, Step(s, a), base)
  {
    hide *;
    CacheDirectory.StepKinds(s, a);
    if CacheDirectory.IsQuiet(s, a) {
      QuietStepSparesOld(s, a, base);
    } else {
      InvIsBoth(s);
      match a
      case RenameContent(t) => RenameContentSparesOld(s, t, base);
      case RenameRecord(t) => RenameRecordSparesOld(s, t, base);
      case InsertEntry(t) => InsertSparesOld(s, t, base);
      case DeleteContent(t, ok) => DeleteContentSparesOld(s, t, ok, base);
      case DeleteRecord(t, ok) => DeleteRecordSparesOld(s, t, ok, base);
      case TakeOut(t) => TakingOutSparesOld(s, t, base);
      case RetryOne(t, ok) => RetryOneSparesOld(s, t, ok, base);
      case Touch(key) => TouchSparesOld(s, key, base);
      case _ =>
    }
  }

  lemma StartIsConstant(s: State, a: Action, h: Trace)
    requires Enabled(s, a)
    ensures var h' := NextTrace(h, s, a); h'.found == h.found && h'.base == h.base && h'.spare == h.spare
  {
  }

  lemma SameStartInherits(s: State, h: Trace, h': Trace)
    requires Inherits(s, h) && h'.found == h.found && h'.base == h.base && h'.spare == h.spare
    ensures Inherits(s, h')
  {
    hide PublishesNewer;
    hide LeftAlone;
    hide Newer;
    hide AllKnown;
  }

  lemma StepKeepsInherits(s: State, a: Action, h: Trace)
    requires Inv(s) && Enabled(s, a) && Inherits(s, h)
    ensures Inherits(Step(s, a), NextTrace(h, s, a)) && Step(s, a).lim == s.lim
  {
    hide Step;
    hide Enabled;
    hide NextTrace;
    hide Inv;
    hide PublishesNewer;
    hide AllKnown;
    hide LeftAlone;
    StepSparesOld(s, a, h.base);
    StartIsConstant(s, a, h);
    SparesOldKeepsInherits(s, Step(s, a), h);
    hide Inherits;
    SameStartInherits(Step(s, a), h, NextTrace(h, s, a));
  }
}
