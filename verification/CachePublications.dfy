/**
 What is stored is what was given: every entry and record carries the key, the content, the content type and date and
 the time of the call that published it, over every run; so recovery ranks publications by their times.
 */
module CachePublications {
  import opened Basics
  import opened FileNames
  import opened CacheMemory
  import opened CacheStates
  import opened CacheProtocol
  import opened CacheRecovery
  import opened CacheCrash
  import CacheCoherence
  import CacheDirectory
  import CacheInheritance
  import CacheLeftovers
  import CacheRestarts
  import Lru

  /** The arguments of a publication. */
  datatype Given = Given(key: Key, data: Bytes, info: Info, now: nat)

  /** History: by the UUID of its files, what every publication was given. */
  function NextGiven(g: map<nat, Given>, s: State, a: Action): map<nat, Given>
    requires Enabled(s, a)
  {
    match a
    case ReaderPublish(t, info, now) =>
      var pc := PcOf(s, t);
      if |pc.data| <= s.lim.maxBytes then g[s.nextId := Given(pc.key, pc.data, info, now)] else g
    case MutatorPublish(t, info, now) =>
      var pc := PcOf(s, t);
      g[s.nextId := Given(pc.key, pc.after.value, info, now)]
    case _ => g
  }

  function GivenOver(g: map<nat, Given>, s: State, actions: seq<Action>): map<nat, Given>
    requires CacheCoherence.Run(s, actions).Some?
    decreases |actions|
  {
    if actions == [] then g else GivenOver(NextGiven(g, s, actions[0]), Step(s, actions[0]), actions[1..])
  }

  /** The record that belongs to a publication. */
  predicate RecordsIt(r: Record, id: nat, v: Given) {
    && r.version == 1 && r.key == v.key && r.path == Content(v.key, id) && r.size == |v.data| && r.digest == Sha256(v.data)
    && r.info == v.info && r.cachedAt == v.now
  }

  /** The entry that belongs to it. */
  predicate HoldsIt(p: (Key, Entry), id: nat, v: Given) {
    p.0 == v.key && p.1.path == Content(v.key, id) && p.1.size == |v.data| && p.1.digest == Sha256(v.data) && p.1.info == v.info
  }

  ghost predicate PublishersDated(s: State, g: map<nat, Given>) {
    forall t: Task | PcOf(s, t).Publishing? ::
      var r := PcOf(s, t).record;
      r.path.Content? && r.path.id in g && RecordsIt(r, r.path.id, g[r.path.id])
  }

  ghost predicate EntriesDated(s: State, g: map<nat, Given>, base: nat, first: Entries) {
    forall p | p in s.mem.entries ::
      p in first || (p.1.path.Content? && p.1.path.id >= base && p.1.path.id in g && HoldsIt(p, p.1.path.id, g[p.1.path.id]))
  }

  ghost predicate RecordsDated(s: State, g: map<nat, Given>, base: nat, found: Files) {
    forall k | Metadata(k) in s.disk ::
      || (Metadata(k) in found && s.disk[Metadata(k)] == found[Metadata(k)])
      || (s.disk[Metadata(k)].Json? &&
          var r := s.disk[Metadata(k)].record;
          r.key == k && r.path.Content? && r.path.id >= base && r.path.id in g && RecordsIt(r, r.path.id, g[r.path.id]))
  }

  ghost predicate Dated(s: State, g: map<nat, Given>, base: nat, start: State) {
    && base <= s.nextId && (forall id | id in g :: base <= id < s.nextId)
    && PublishersDated(s, g) && EntriesDated(s, g, base, start.mem.entries) && RecordsDated(s, g, base, start.disk)
  }

  // ---- Steps that start no publication ----

  /** The publications go on or end as they are; only the one of `t` may have become an entry or a record. */
  ghost predicate Follows(s: State, s': State, t: Task) {
    && s'.nextId >= s.nextId
    && (forall u: Task | PcOf(s', u).Publishing? :: PcOf(s, u).Publishing? && PcOf(s', u).record == PcOf(s, u).record)
    && (forall p | p in s'.mem.entries ::
          p in s.mem.entries || (PcOf(s, t).Publishing? && p == (PcOf(s, t).record.key, EntryOf(PcOf(s, t).record))))
    && (forall k | Metadata(k) in s'.disk ::
          || (Metadata(k) in s.disk && s'.disk[Metadata(k)] == s.disk[Metadata(k)])
          || (PcOf(s, t).Publishing? && k == PcOf(s, t).record.key && s'.disk[Metadata(k)] == Json(PcOf(s, t).record)))
  }

  lemma FollowsKeepsDated(s: State, s': State, t: Task, g: map<nat, Given>, base: nat, start: State)
    requires Dated(s, g, base, start) && Follows(s, s', t)
    ensures Dated(s', g, base, start)
  {
    forall p | p in s'.mem.entries
      ensures p in start.mem.entries
        || (p.1.path.Content? && p.1.path.id >= base && p.1.path.id in g && HoldsIt(p, p.1.path.id, g[p.1.path.id]))
    {
      if p in s.mem.entries {
      } else {
        assert PcOf(s, t).Publishing?;
      }
    }
  }

  lemma QuietFollows(s: State, s': State, t: Task)
    requires CacheDirectory.QuietOnDisk(s, s', t) && (PcOf(s', t).Publishing? ==> PcOf(s, t).Publishing?)
    ensures Follows(s, s', t)
  {
    hide Condemned;
    hide Replacing;
    hide Departing;
    hide FilesOk;
    assert forall k :: CacheDirectory.SameFile(s, s', Metadata(k));
  }

  /** No other quiet step starts a publication. */
  lemma OnlyCallersPublish(s: State, a: Action)
    requires Enabled(s, a) && CacheDirectory.IsQuiet(s, a) && !a.ReaderPublish? && !a.MutatorPublish?
    ensures PcOf(Step(s, a), a.t).Publishing? ==> PcOf(s, a.t).Publishing?
  {
    hide Generation;
    hide PushedAll;
    hide Holds;
  }

  lemma QuietStepFollows(s: State, a: Action)
    requires Inv(s) && Enabled(s, a) && CacheDirectory.IsQuiet(s, a) && !a.ReaderPublish? && !a.MutatorPublish?
    ensures Follows(s, Step(s, a), a.t)
  {
    CacheDirectory.QuietStep(s, a);
    OnlyCallersPublish(s, a);
    hide *;
    QuietFollows(s, Step(s, a), a.t);
  }

  lemma RenameContentFollows(s: State, t: Task)
    requires Enabled(s, RenameContent(t)) && PublishersNamed(s)
    ensures Follows(s, Step(s, RenameContent(t)), t)
  {
    CacheDirectory.RenameContentStep(s, t);
    assert PcOf(s, t).Publishing?;
    hide Step;
    hide Enabled;
  }

  /** Publications are of content files. */
  ghost predicate PublishersNamed(s: State) {
    forall t: Task | PcOf(s, t).Publishing? :: PcOf(s, t).record.path.Content?
  }

  lemma RenameRecordFollows(s: State, t: Task)
    requires Inv(s) && Enabled(s, RenameRecord(t))
    ensures Follows(s, Step(s, RenameRecord(t)), t)
  {
    CacheDirectory.RenameRecordStep(s, t);
    CacheDirectory.RenameRecordFacts(s, t);
    hide Inv;
    hide Step;
    hide Enabled;
    hide PublisherOk;
    hide TaskOk;
  }

  lemma InsertFollows(s: State, t: Task)
    requires Inv(s) && Enabled(s, InsertEntry(t))
    ensures Follows(s, Step(s, InsertEntry(t)), t)
  {
    CacheDirectory.InsertStep(s, t);
    CacheDirectory.InsertedKeys(s, t);
    hide Inv;
    hide Step;
    hide Insert;
    hide Enabled;
    hide LiveKey;
  }

  /** Files go, and no task publishes that did not. */
  lemma RemovalFollows(s: State, s': State, t: Task)
    requires s'.nextId >= s.nextId && !PcOf(s', t).Publishing? && forall u: Task | u != t :: PcOf(s', u) == PcOf(s, u)
    requires forall p | p in s'.mem.entries :: p in s.mem.entries
    requires forall f | f in s'.disk :: f in s.disk && s'.disk[f] == s.disk[f]
    ensures Follows(s, s', t)
  {
  }

  lemma DeletionFollows(s: State, a: Action)
    requires Enabled(s, a) && (a.DeleteContent? || a.DeleteRecord? || a.RetryOne?)
    ensures Follows(s, Step(s, a), a.t)
  {
    if a.DeleteContent? {
      CacheDirectory.DeleteContentStep(s, a.t, a.ok);
    } else if a.DeleteRecord? {
      CacheDirectory.DeleteRecordStep(s, a.t, a.ok);
    } else {
      CacheDirectory.RetryOneStep(s, a.t, a.ok);
    }
    hide Step;
    hide Enabled;
    RemovalFollows(s, Step(s, a), a.t);
  }

  lemma TakingOutFollows(s: State, t: Task)
    requires Enabled(s, TakeOut(t)) && Holds(s.mem, PcOf(s, t).key, PcOf(s, t).condition)
    ensures Follows(s, Step(s, TakeOut(t)), t)
  {
    CacheLeftovers.TakingOutStep(s, t);
    CacheCoherence.TakingOutMoves(s, t);
    hide Step;
    hide Holds;
    hide Enabled;
    RemovalFollows(s, Step(s, TakeOut(t)), t);
  }

  lemma TouchFollows(s: State, key: Key, t: Task)
    requires InvMemory(s)
    ensures Follows(s, Step(s, Touch(key)), t)
  {
    CacheCoherence.TouchStep(s, key);
    assert Lru.Distinct(s.mem.entries);
    hide InvMemory;
    hide Step;
    Lru.PromoteKeeps(s.mem.entries, key);
    forall u: Task ensures PcOf(Step(s, Touch(key)), u) == PcOf(s, u) {
    }
  }

  /** The task that a step is of. */
  function TaskOf(a: Action): Task {
    if a.Touch? then 0 else a.t
  }

  lemma StepFollows(s: State, a: Action)
    requires Inv(s) && Enabled(s, a) && PublishersNamed(s) && !a.ReaderPublish? && !a.MutatorPublish?
    ensures Follows(s, Step(s, a), TaskOf(a))
  {
    hide Inv;
    hide Step;
    hide Enabled;
    hide Follows;
    hide PublishersNamed;
    hide CacheDirectory.IsQuiet;
    CacheDirectory.StepKinds(s, a);
    if CacheDirectory.IsQuiet(s, a) {
      if !a.Touch? {
        QuietStepFollows(s, a);
      }
    } else {
      CacheLeftovers.InvIsBoth(s);
      match a
      case RenameContent(t) => RenameContentFollows(s, t);
      case RenameRecord(t) => RenameRecordFollows(s, t);
      case InsertEntry(t) => InsertFollows(s, t);
      case DeleteContent(_, _) => DeletionFollows(s, a);
      case DeleteRecord(_, _) => DeletionFollows(s, a);
      case RetryOne(_, _) => DeletionFollows(s, a);
      case TakeOut(t) => TakingOutFollows(s, t);
      case Touch(key) => TouchFollows(s, key, 0);
      case _ =>
    }
  }

  // ---- Steps that start one ----

  /** What a publication starts with is what it was given. */
  lemma StartsAsGiven(s: State, a: Action, g: map<nat, Given>)
    requires Enabled(s, a) && (a.ReaderPublish? || a.MutatorPublish?)
    ensures var s', g' := Step(s, a), NextGiven(g, s, a);
      if PcOf(s', a.t).Publishing? then
        && s'.nextId == s.nextId + 1 && s.nextId in g' && g' == g[s.nextId := g'[s.nextId]]
        && g'[s.nextId].info == a.info && g'[s.nextId].now == a.now
        && RecordsIt(PcOf(s', a.t).record, s.nextId, g'[s.nextId])
      else g' == g && s'.nextId == s.nextId
  {
  }

  /** Only `t` may start to publish, as it was given; nothing stored changes. */
  ghost predicate Begins(s: State, s': State, t: Task, g: map<nat, Given>, g': map<nat, Given>) {
    && s'.mem == s.mem && s'.disk == s.disk && s.nextId <= s'.nextId
    && (forall u: Task | u != t :: PcOf(s', u) == PcOf(s, u))
    && (forall id | id in g :: id < s.nextId ==> id in g' && g'[id] == g[id])
    && (forall id | id in g' :: id in g || s.nextId <= id < s'.nextId)
    && (PcOf(s', t).Publishing? ==>
          var r := PcOf(s', t).record; r.path.Content? && r.path.id in g' && RecordsIt(r, r.path.id, g'[r.path.id]))
  }

  lemma CallerBegins(s: State, a: Action, g: map<nat, Given>)
    requires Inv(s) && Enabled(s, a) && (a.ReaderPublish? || a.MutatorPublish?)
    ensures Begins(s, Step(s, a), a.t, g, NextGiven(g, s, a))
  {
    CacheDirectory.QuietStep(s, a);
    StartsAsGiven(s, a, g);
    CacheCoherence.CallerStep(s, a);
    hide Inv;
    hide Step;
    hide Enabled;
    hide NextGiven;
  }

  lemma BeginsKeepsDated(s: State, s': State, t: Task, g: map<nat, Given>, g': map<nat, Given>, base: nat, start: State)
    requires Dated(s, g, base, start) && Begins(s, s', t, g, g')
    ensures Dated(s', g', base, start)
  {
    forall u: Task | PcOf(s', u).Publishing?
      ensures var r := PcOf(s', u).record; r.path.Content? && r.path.id in g' && RecordsIt(r, r.path.id, g'[r.path.id])
    {
      if u != t {
        assert PcOf(s', u) == PcOf(s, u) && PcOf(s, u).record.path.id in g;
      }
    }
  }

  lemma CallerKeepsDated(s: State, a: Action, g: map<nat, Given>, base: nat, start: State)
    requires Inv(s) && Enabled(s, a) && (a.ReaderPublish? || a.MutatorPublish?) && Dated(s, g, base, start)
    ensures Dated(Step(s, a), NextGiven(g, s, a), base, start)
  {
    hide *;
    CallerBegins(s, a, g);
    BeginsKeepsDated(s, Step(s, a), a.t, g, NextGiven(g, s, a), base, start);
  }

  // ---- Over whole runs ----

  lemma StepKeepsDated(s: State, a: Action, g: map<nat, Given>, base: nat, start: State)
    requires Inv(s) && Enabled(s, a) && Dated(s, g, base, start)
    ensures Dated(Step(s, a), NextGiven(g, s, a), base, start)
  {
    if a.ReaderPublish? || a.MutatorPublish? {
      hide *;
      CallerKeepsDated(s, a, g, base, start);
    } else {
      assert NextGiven(g, s, a) == g && PublishersNamed(s);
      hide *;
      StepFollows(s, a);
      FollowsKeepsDated(s, Step(s, a), TaskOf(a), g, base, start);
    }
  }

  lemma {:induction false} RunKeepsDated(s: State, actions: seq<Action>, g: map<nat, Given>, base: nat, start: State)
    requires Inv(s) && Dated(s, g, base, start) && CacheCoherence.Run(s, actions).Some?
    ensures Dated(CacheCoherence.Run(s, actions).value, GivenOver(g, s, actions), base, start)
    decreases |actions|
  {
    hide Step;
    hide Enabled;
    hide NextGiven;
    hide Inv;
    hide Dated;
    if actions != [] {
      StepKeepsInv(s, actions[0]);
      StepKeepsDated(s, actions[0], g, base, start);
      RunKeepsDated(Step(s, actions[0]), actions[1..], NextGiven(g, s, actions[0]), base, start);
    }
  }

  lemma StartIsDated(s: State)
    requires FreshStart(s)
    ensures Inv(s) && Dated(s, map[], s.nextId, s)
  {
    CacheCoherence.InitialHoldsMemory(s);
    NothingUnderWay(s);
    hide InvMemory;
    hide InvDisk;
    hide CacheCoherence.Initial;
  }

  /**
   Over every run: an entry in memory that the start did not have is of a publication of this run, and carries the
   content, content type and date it was given; a record on disk that the start did not find, its time as well.
   */
  lemma StoredAsGiven(s: State, actions: seq<Action>, k: Key)
    requires FreshStart(s) && CacheCoherence.Run(s, actions).Some?
    ensures var z, g := CacheCoherence.Run(s, actions).value, GivenOver(map[], s, actions);
      && (forall e | (k, e) in z.mem.entries && (k, e) !in s.mem.entries ::
            exists id :: id in g && g[id].key == k && e == Entry(Content(k, id), |g[id].data|, Sha256(g[id].data), g[id].info))
      && (Metadata(k) in z.disk && (Metadata(k) !in s.disk || z.disk[Metadata(k)] != s.disk[Metadata(k)]) ==>
            exists id :: id in g && g[id].key == k && z.disk[Metadata(k)] ==
              Json(Record(1, k, Content(k, id), |g[id].data|, Sha256(g[id].data), g[id].info, g[id].now)))
  {
    StartIsDated(s);
    RunKeepsDated(s, actions, map[], s.nextId, s);
    var z, g := CacheCoherence.Run(s, actions).value, GivenOver(map[], s, actions);
    hide FreshStart;
    hide GivenOver;
    hide CacheCoherence.Run;
    hide Inv;
    forall e | (k, e) in z.mem.entries && (k, e) !in s.mem.entries
      ensures exists id :: id in g && g[id].key == k && e == Entry(Content(k, id), |g[id].data|, Sha256(g[id].data), g[id].info)
    {
      assert HoldsIt((k, e), e.path.id, g[e.path.id]);
    }
    if Metadata(k) in z.disk && (Metadata(k) !in s.disk || z.disk[Metadata(k)] != s.disk[Metadata(k)]) {
      var r := z.disk[Metadata(k)].record;
      assert r.path.id in g && RecordsIt(r, r.path.id, g[r.path.id]);
    }
  }

  /** Of two publications of the run, the one that began later has the later time. */
  predicate TimesIncrease(g: map<nat, Given>) {
    forall i, j | i in g && j in g && i < j :: g[i].now < g[j].now
  }

  /** The pair on disk is of this publication. */
  ghost predicate PairIsOf(s: State, k: Key, id: nat) {
    ValidPair(s.lim, s.disk, k) && s.disk[Metadata(k)].record.path == Content(k, id)
  }

  /**
   When the times of a run's publications increase, recovery ranks a later published pair before an earlier one: it never
   gives up the later one of two for the earlier.
   */
  lemma LaterRanksFirst(s: State, actions: seq<Action>, listing: seq<FileName>, j: Key, k: Key, earlier: nat, later: nat)
    requires FreshStart(s) && CacheCoherence.Run(s, actions).Some?
    requires var z := CacheCoherence.Run(s, actions).value;
      && Lists(listing, z.disk) && s.nextId <= earlier < later && PairIsOf(z, j, earlier) && PairIsOf(z, k, later)
    requires TimesIncrease(GivenOver(map[], s, actions))
    ensures var z := CacheCoherence.Run(s, actions).value;
      Lru.Find(Recovered(z.lim, z.disk, listing), j).Some? ==> Lru.Find(Recovered(z.lim, z.disk, listing), k).Some?
  {
    StartIsDated(s);
    RunKeepsDated(s, actions, map[], s.nextId, s);
    var z, g := CacheCoherence.Run(s, actions).value, GivenOver(map[], s, actions);
    assert CacheInheritance.AllKnown(s.disk, s.nextId);
    hide FreshStart;
    hide GivenOver;
    hide CacheCoherence.Run;
    hide Inv;
    PairTime(s, z, g, j, earlier);
    PairTime(s, z, g, k, later);
    hide Dated;
    RankedByTime(z.lim, z.disk, listing, j, k);
  }

  /** The time on disk is the one that was given. */
  lemma PairTime(s: State, z: State, g: map<nat, Given>, k: Key, id: nat)
    requires Dated(z, g, s.nextId, s) && CacheInheritance.AllKnown(s.disk, s.nextId) && s.nextId <= id && PairIsOf(z, k, id)
    ensures id in g && CacheRestarts.TimeOf(z.disk, k) == g[id].now && ValidPair(z.lim, z.disk, k)
  {
    var r := z.disk[Metadata(k)].record;
    assert Metadata(k) in s.disk ==> CacheInheritance.NameKnown(Metadata(k), s.disk[Metadata(k)], s.nextId);
    assert RecordsIt(r, r.path.id, g[r.path.id]);
  }

  lemma RankedByTime(lim: Limits, files: Files, listing: seq<FileName>, j: Key, k: Key)
    requires Lists(listing, files) && ValidPair(lim, files, j) && ValidPair(lim, files, k)
    requires CacheRestarts.TimeOf(files, j) < CacheRestarts.TimeOf(files, k)
    ensures Lru.Find(Recovered(lim, files, listing), j).Some? ==> Lru.Find(Recovered(lim, files, listing), k).Some?
  {
    var all := CacheRestarts.RecoveredIsNewest(lim, files, listing);
    var r := Recovered(lim, files, listing);
    var p := (k, CandidateOf(files[Metadata(k)].record).entry);
    assert CacheRestarts.IsPair(lim, files, p);
    assert p in all;
    hide Recovered;
    hide ValidPair;
    hide CacheRestarts.IsPair;
    hide Lists;
    if Lru.Find(r, j).Some? {
      hide Lru.Find;
      var n :| 0 <= n < |r| && r[n].0 == j;
      NewerIsKept(files, all, r, n, p);
      assert Lru.Holds(r, k);
    }
  }

  /** A prefix of a list by falling times has every pair of a later time than one it has. */
  lemma NewerIsKept(files: Files, all: Entries, r: Entries, n: nat, p: (Key, Entry))
    requires r <= all && n < |r| && p in all && CacheRestarts.TimeOf(files, r[n].0) < CacheRestarts.TimeOf(files, p.0)
    requires forall i, j | 0 <= i < j < |all| :: CacheRestarts.TimeOf(files, all[j].0) <= CacheRestarts.TimeOf(files, all[i].0)
    ensures p in r
  {
    hide CacheRestarts.TimeOf;
    var m :| 0 <= m < |all| && all[m] == p;
    assert all[n] == r[n] && m < n;
    assert r[m] == p;
  }
}
