/**
 The disk cache under concurrency: any number of tasks that read through the cache, change S3 objects, drop
 entries and retry deletions, interleaved at every lock acquisition and every file operation. The critical
 sections are the functions of `CacheMemory`, which `CacheState` implements.

 Premise, which the source leaves to its callers: mutations of one key do not overlap (`busy`). Nothing is
 assumed about readers.
 */
module CacheProtocol {
  import opened Basics
  import opened FileNames
  import opened CacheMemory
  import opened CacheStates
  import Lru

  type Task = nat

  /** How far a publication has come. From `Locked` on, the task holds the publish lock. */
  datatype Stage = Started | ContentWritten | BothWritten | Locked | Checked | ContentRenamed | RecordRenamed

  /** A path on its way out, whether its content removal was tried, and whether its metadata goes too. */
  datatype Doomed = Doomed(path: FileName, tried: bool, withRecord: bool)

  datatype Pc =
    | Idle
    | Captured(key: Key, generation: nat)
    | Fetched(key: Key, generation: nat, data: Bytes)
    | Mutated(key: Key, after: Option<Bytes>)
    | Publishing(stage: Stage, record: Record, data: Bytes, guard: Guard)
    | Removing(key: Key, condition: Condition)
    | Deleting(doomed: seq<Doomed>)
    | Retrying(todo: seq<FileName>, pending: seq<FileName>)

  /**
   `bumps` counts the generation bumps of a key without wrapping, and `stale` holds the keys whose S3 object
   changed after their last bump; both are history, as is `ragged`: the keys without an entry whose metadata file may
   remain on disk, because its removal failed in this run or in the recovery before it. `nextId` supplies fresh UUIDs.
   */
  datatype State = State(
    lim: Limits,
    s3: map<Key, Bytes>,
    busy: map<Key, Task>,
    stale: set<Key>,
    mem: Memory,
    bumps: map<Key, nat>,
    lock: Option<Task>,
    pcs: map<Task, Pc>,
    disk: map<FileName, FileData>,
    nextId: nat,
    failed: seq<FileName>,
    ragged: set<Key>)

  datatype Action =
    | Capture(t: Task, key: Key)
    | Fetch(t: Task)
    | ReaderPublish(t: Task, info: Info, now: nat)
    | Mutate(t: Task, key: Key, after: Option<Bytes>)
    | MutatorPublish(t: Task, info: Info, now: nat)
    | MutatorRemove(t: Task)
    | Drop(t: Task, key: Key, condition: Condition)
    | WriteContent(t: Task)
    | WriteRecord(t: Task)
    | Acquire(t: Task)
    | Check(t: Task, contentRemoved: bool, recordRemoved: bool)
    | RenameContent(t: Task)
    | RenameRecord(t: Task)
    | InsertEntry(t: Task)
    | TakeOut(t: Task)
    | DeleteContent(t: Task, ok: bool)
    | DeleteRecord(t: Task, ok: bool)
    | Release(t: Task)
    | Touch(key: Key)
    | StartRetry(t: Task, count: nat)
    | RetryOne(t: Task, ok: bool)
    | FinishRetry(t: Task)
    | Abandon(t: Task, partial: Option<Bytes>)

  function PcOf(s: State, t: Task): Pc {
    if t in s.pcs then s.pcs[t] else Idle
  }

  function BumpsOf(s: State, k: Key): nat {
    if k in s.bumps then s.bumps[k] else 0
  }

  predicate HoldsLock(pc: Pc) {
    match pc
    case Publishing(stage, _, _, _) => stage.Locked? || stage.Checked? || stage.ContentRenamed? || stage.RecordRenamed?
    case Deleting(_) => true
    case _ => false
  }

  function Go(s: State, t: Task, pc: Pc): State {
    s.(pcs := s.pcs[t := pc])
  }

  /** The task is done: it frees the publish lock and the keys it was mutating. */
  function Finish(s: State, t: Task): State {
    s.(pcs := s.pcs[t := Idle],
       lock := if s.lock == Some(t) then None else s.lock,
       busy := map k | k in s.busy && s.busy[k] != t :: s.busy[k])
  }

  function RecordFor(s: State, key: Key, data: Bytes, info: Info, now: nat): Record {
    Record(1, key, Content(key, s.nextId), |data|, Sha256(data), info, now)
  }

  function IdOf(p: FileName): nat {
    if p.Content? then p.id else 0
  }

  function KeyOf(p: FileName): Key {
    if p.Foreign? then "" else p.key
  }

  function TempOf(r: Record): FileName {
    ContentTemp(r.key, IdOf(r.path))
  }

  function RecordTempOf(r: Record): FileName {
    MetadataTemp(r.key, IdOf(r.path))
  }

  function EntryOf(r: Record): Entry {
    Entry(r.path, r.size, r.digest, r.info)
  }

  function DoomAll(ps: seq<FileName>, withRecord: bool): seq<Doomed> {
    seq(|ps|, i requires 0 <= i < |ps| => Doomed(ps[i], false, withRecord))
  }

  predicate Enabled(s: State, a: Action) {
    match a
    case Capture(t, _) => PcOf(s, t).Idle?
    case Fetch(t) => PcOf(s, t).Captured?
    case ReaderPublish(t, _, _) => PcOf(s, t).Fetched?
    case Mutate(t, key, _) => PcOf(s, t).Idle? && key !in s.busy
    case MutatorPublish(t, _, _) =>
      var pc := PcOf(s, t); pc.Mutated? && pc.after.Some? && |pc.after.value| <= s.lim.maxBytes
    case MutatorRemove(t) => PcOf(s, t).Mutated?
    case Drop(t, _, _) => PcOf(s, t).Idle?
    case WriteContent(t) => PcOf(s, t).Publishing? && PcOf(s, t).stage.Started?
    case WriteRecord(t) => PcOf(s, t).Publishing? && PcOf(s, t).stage.ContentWritten?
    case Acquire(t) => PcOf(s, t).Publishing? && PcOf(s, t).stage.BothWritten? && s.lock.None?
    case Check(t, _, _) => PcOf(s, t).Publishing? && PcOf(s, t).stage.Locked?
    case RenameContent(t) => PcOf(s, t).Publishing? && PcOf(s, t).stage.Checked? && TempOf(PcOf(s, t).record) in s.disk
    case RenameRecord(t) =>
      PcOf(s, t).Publishing? && PcOf(s, t).stage.ContentRenamed? && RecordTempOf(PcOf(s, t).record) in s.disk
    case InsertEntry(t) => PcOf(s, t).Publishing? && PcOf(s, t).stage.RecordRenamed?
    case TakeOut(t) => PcOf(s, t).Removing? && s.lock.None?
    case DeleteContent(t, _) => var pc := PcOf(s, t); pc.Deleting? && pc.doomed != [] && !pc.doomed[0].tried
    case DeleteRecord(t, _) => var pc := PcOf(s, t); pc.Deleting? && pc.doomed != [] && pc.doomed[0].tried
    case Release(t) => PcOf(s, t).Deleting? && PcOf(s, t).doomed == []
    case Touch(_) => true
    case StartRetry(t, n) => PcOf(s, t).Idle? && n <= |s.failed| && n <= RETRIES_PER_TICK
    case RetryOne(t, _) => PcOf(s, t).Retrying? && PcOf(s, t).todo != []
    case FinishRetry(t) => PcOf(s, t).Retrying? && PcOf(s, t).todo == []
    case Abandon(t, _) =>
      // An error return. After the second rename, and while deleting, the source has none left.
      var pc := PcOf(s, t);
      !pc.Idle? && !pc.Deleting? && !pc.Retrying? && !(pc.Publishing? && pc.stage.RecordRenamed?)
  }

  function Publish(s: State, t: Task, key: Key, data: Bytes, guard: Guard, info: Info, now: nat): State {
    Go(s, t, Publishing(Started, RecordFor(s, key, data, info, now), data, guard)).(nextId := s.nextId + 1)
  }

  function Advance(s: State, t: Task, stage: Stage): State
    requires PcOf(s, t).Publishing?
  {
    Go(s, t, PcOf(s, t).(stage := stage))
  }

  /** `insert`, then the deletions it leaves: superseded content alone, evicted entries with their record. */
  function AfterInsert(s: State, t: Task): State
    requires PcOf(s, t).Publishing?
  {
    var Publishing(_, r, _, guard) := PcOf(s, t);
    var (m, superseded, evicted) := Insert(s.mem, s.lim, r.key, EntryOf(r), guard);
    var s1 := Go(s, t, Deleting(DoomAll(superseded, false) + DoomAll(evicted, true)))
              .(mem := m, ragged := s.ragged - {r.key});
    if guard.Unconditional? then Bumped(s1, r.key) else s1
  }

  /** The history of a bump. */
  function Bumped(s: State, key: Key): State {
    s.(bumps := s.bumps[key := BumpsOf(s, key) + 1], stale := s.stale - {key})
  }

  function AfterTakeOut(s: State, t: Task): State
    requires PcOf(s, t).Removing?
  {
    var Removing(key, condition) := PcOf(s, t);
    if Holds(s.mem, key, condition) then
      var (m, gone) := Remove(s.mem, key);
      Bumped(Go(s, t, Deleting(DoomAll(gone, true))).(mem := m, lock := Some(t)), key)
    else Finish(s, t)
  }

  function AfterCheck(s: State, t: Task, contentRemoved: bool, recordRemoved: bool): State
    requires PcOf(s, t).Publishing?
  {
    var Publishing(_, r, _, guard) := PcOf(s, t);
    if guard.IfGeneration? && Generation(s.mem.generations, r.key) != guard.expected then
      var gone := (if contentRemoved then {TempOf(r)} else {})
                + (if recordRemoved then {RecordTempOf(r)} else {});
      Finish(s, t).(disk := s.disk - gone)
    else Advance(s, t, Checked)
  }

  /** An error may leave part of a temporary file behind. */
  function AfterAbandon(s: State, t: Task, partial: Option<Bytes>): State {
    var pc := PcOf(s, t);
    var leftover :=
      if partial.Some? && pc.Publishing? then
        (if pc.stage.Started? then map[TempOf(pc.record) := Plain(partial.value)]
         else if pc.stage.ContentWritten? then map[RecordTempOf(pc.record) := Plain(partial.value)]
         else map[])
      else map[];
    Finish(s, t).(disk := s.disk + leftover)
  }

  function AfterDeleteContent(s: State, t: Task, ok: bool): State
    requires PcOf(s, t).Deleting? && PcOf(s, t).doomed != []
  {
    var ds := PcOf(s, t).doomed;
    var d := ds[0];
    var rest := if d.withRecord then [d.(tried := true)] + ds[1..] else ds[1..];
    if ok || d.path !in s.disk then Go(s, t, Deleting(rest)).(disk := s.disk - {d.path})
    else Go(s, t, Deleting(rest)).(failed := Pushed(s.failed, d.path))
  }

  function AfterDeleteRecord(s: State, t: Task, ok: bool): State
    requires PcOf(s, t).Deleting? && PcOf(s, t).doomed != []
  {
    var ds := PcOf(s, t).doomed;
    var k := KeyOf(ds[0].path);
    if ok || Metadata(k) !in s.disk then Go(s, t, Deleting(ds[1..])).(disk := s.disk - {Metadata(k)})
    else Go(s, t, Deleting(ds[1..])).(ragged := s.ragged + {k})
  }

  function AfterRetryOne(s: State, t: Task, ok: bool): State
    requires PcOf(s, t).Retrying? && PcOf(s, t).todo != []
  {
    var Retrying(todo, pending) := PcOf(s, t);
    if ok || todo[0] !in s.disk then Go(s, t, Retrying(todo[1..], pending)).(disk := s.disk - {todo[0]})
    else Go(s, t, Retrying(todo[1..], pending + [todo[0]]))
  }

  function Step(s: State, a: Action): State
    requires Enabled(s, a)
  {
    match a
    case Capture(t, key) => Go(s, t, Captured(key, Generation(s.mem.generations, key)))
    case Fetch(t) =>
      var Captured(key, g) := PcOf(s, t);
      if key in s.s3 then Go(s, t, Fetched(key, g, s.s3[key])) else Finish(s, t)
    case ReaderPublish(t, info, now) =>
      var Fetched(key, g, data) := PcOf(s, t);
      if |data| <= s.lim.maxBytes then Publish(s, t, key, data, IfGeneration(g), info, now)
      else Go(s, t, Removing(key, AtGeneration(g)))
    case Mutate(t, key, after) =>
      Go(s, t, Mutated(key, after))
      .(s3 := if after.Some? then s.s3[key := after.value] else s.s3 - {key},
        busy := s.busy[key := t], stale := s.stale + {key})
    case MutatorPublish(t, info, now) =>
      Publish(s, t, PcOf(s, t).key, PcOf(s, t).after.value, Unconditional, info, now)
    case MutatorRemove(t) => Go(s, t, Removing(PcOf(s, t).key, Always))
    case Drop(t, key, condition) => Go(s, t, Removing(key, condition))
    case WriteContent(t) =>
      var pc := PcOf(s, t);
      Advance(s, t, ContentWritten).(disk := s.disk[TempOf(pc.record) := Plain(pc.data)])
    case WriteRecord(t) =>
      var pc := PcOf(s, t);
      Advance(s, t, BothWritten).(disk := s.disk[RecordTempOf(pc.record) := Json(pc.record)])
    case Acquire(t) => Advance(s, t, Locked).(lock := Some(t))
    case Check(t, c, r) => AfterCheck(s, t, c, r)
    case RenameContent(t) =>
      var r := PcOf(s, t).record;
      Advance(s, t, ContentRenamed).(disk := (s.disk - {TempOf(r)})[r.path := s.disk[TempOf(r)]])
    case RenameRecord(t) =>
      var r := PcOf(s, t).record;
      Advance(s, t, RecordRenamed).(disk := (s.disk - {RecordTempOf(r)})[Metadata(r.key) := s.disk[RecordTempOf(r)]])
    case InsertEntry(t) => AfterInsert(s, t)
    case TakeOut(t) => AfterTakeOut(s, t)
    case DeleteContent(t, ok) => AfterDeleteContent(s, t, ok)
    case DeleteRecord(t, ok) => AfterDeleteRecord(s, t, ok)
    case Release(t) => Finish(s, t)
    case Touch(key) => s.(mem := s.mem.(entries := Lru.Promote(s.mem.entries, key)))
    case StartRetry(t, n) => Go(s, t, Retrying(s.failed[..n], [])).(failed := s.failed[n..])
    case RetryOne(t, ok) => AfterRetryOne(s, t, ok)
    case FinishRetry(t) => Finish(s, t).(failed := PushedAll(s.failed, PcOf(s, t).pending))
    case Abandon(t, partial) => AfterAbandon(s, t, partial)
  }

  // ---- The invariant on memory and S3 ----

  /** A read of `data` under generation `g` that nothing has overtaken saw the present object. */
  ghost predicate StillCurrent(s: State, k: Key, g: nat, data: Bytes) {
    BumpsOf(s, k) < TWO_64 && g == BumpsOf(s, k) && k !in s.stale ==> k in s.s3 && s.s3[k] == data
  }

  ghost predicate NotAhead(s: State, k: Key, g: nat) {
    BumpsOf(s, k) < TWO_64 ==> g <= BumpsOf(s, k)
  }

  predicate PastCheck(stage: Stage) {
    stage.Checked? || stage.ContentRenamed? || stage.RecordRenamed?
  }

  ghost predicate TaskOk(s: State, t: Task) {
    match PcOf(s, t)
    case Captured(k, g) => NotAhead(s, k, g)
    case Fetched(k, g, data) => NotAhead(s, k, g) && StillCurrent(s, k, g, data)
    case Mutated(k, after) =>
      && k in s.busy && s.busy[k] == t
      && (if after.Some? then k in s.s3 && s.s3[k] == after.value else k !in s.s3)
    case Publishing(stage, r, data, guard) =>
      && r.version == 1 && r.size == |data| <= s.lim.maxBytes && r.digest == Sha256(data)
      && r.path.Content? && r.path.key == r.key && r.path.id < s.nextId
      && (match guard
          case Unconditional => r.key in s.busy && s.busy[r.key] == t && r.key in s.s3 && s.s3[r.key] == data
          case IfGeneration(g) =>
            && NotAhead(s, r.key, g) && StillCurrent(s, r.key, g, data)
            && (PastCheck(stage) ==> Generation(s.mem.generations, r.key) == g))
    case _ => true
  }

  /** Coherence: an entry whose key no mutation has left behind is the present S3 object. */
  ghost predicate Coherent(s: State) {
    forall p | p in s.mem.entries ::
      BumpsOf(s, p.0) < TWO_64 && p.0 !in s.stale ==>
        p.0 in s.s3 && p.1.digest == Sha256(s.s3[p.0]) && p.1.size == |s.s3[p.0]|
  }

  ghost predicate InvMemory(s: State) {
    && AnyLimits(s.lim)
    && Orderly(s.mem, s.lim)
    && (forall k :: Generation(s.mem.generations, k) == BumpsOf(s, k) % TWO_64)
    && (forall t: Task :: HoldsLock(PcOf(s, t)) <==> s.lock == Some(t))
    && (forall t :: TaskOk(s, t))
    && Coherent(s)
  }

  // ---- The invariant on the directory ----

  ghost predicate DoomedPath(ds: seq<Doomed>, p: FileName) {
    exists d :: d in ds && d.path == p
  }

  /** The path is queued for deletion, being deleted, or being retried. */
  ghost predicate Condemned(s: State, p: FileName) {
    p in s.failed || exists t :: CondemnedBy(PcOf(s, t), p)
  }

  ghost predicate CondemnedBy(pc: Pc, p: FileName) {
    match pc
    case Deleting(ds) => DoomedPath(ds, p)
    case Retrying(todo, pending) => p in todo || p in pending
    case _ => false
  }

  ghost predicate IsLive(s: State, p: FileName) {
    exists q :: q in s.mem.entries && q.1.path == p
  }

  ghost predicate LiveKey(s: State, k: Key) {
    Lru.Find(s.mem.entries, k).Some?
  }

  /** A content path the cache made for a key at some earlier time. */
  predicate Made(s: State, p: FileName) {
    p.Content? && p.id < s.nextId
  }

  ghost predicate EntryOnDisk(s: State, k: Key, e: Entry) {
    && Made(s, e.path) && e.path.key == k
    && e.digest.Sha256? && e.size == |e.digest.of|
    && e.path in s.disk && s.disk[e.path] == Plain(e.digest.of)
  }

  /** A record on disk is whole, its own key's, and whatever content it names is the content it describes. */
  ghost predicate RecordOk(s: State, k: Key) {
    && Metadata(k) in s.disk && s.disk[Metadata(k)].Json?
    && var r := s.disk[Metadata(k)].record;
    && r.version == 1 && r.key == k && Made(s, r.path) && r.path.key == k
    && r.digest.Sha256? && r.size == |r.digest.of| <= s.lim.maxBytes
    && (r.path in s.disk ==> s.disk[r.path] == Plain(r.digest.of))
  }

  /** The file names no content with a UUID still to come. */
  predicate ClaimKnown(data: FileData, nextId: nat) {
    data.Json? && data.record.path.Content? ==> data.record.path.id < nextId
  }

  /** A metadata file of a key without an entry, which may be damaged: recovery met it and could not remove it. */
  ghost predicate Leftover(s: State, k: Key) {
    Metadata(k) in s.disk && k in s.ragged && ClaimKnown(s.disk[Metadata(k)], s.nextId)
  }

  ghost predicate FileOk(s: State, f: FileName) {
    match f
    case Content(_, id) => id < s.nextId
    case ContentTemp(_, id) => id < s.nextId
    case MetadataTemp(_, id) => id < s.nextId
    case Metadata(k) => RecordOk(s, k) || Leftover(s, k)
    case _ => true
  }

  ghost predicate Named(s: State, p: FileName) {
    exists k :: Metadata(k) in s.disk && s.disk[Metadata(k)].Json? && s.disk[Metadata(k)].record.path == p
  }

  /** A path being published is nobody else's, and its files are as far along as the task. */
  ghost predicate PublisherOk(s: State, t: Task) {
    var pc := PcOf(s, t);
    pc.Publishing? ==>
      && !IsLive(s, pc.record.path) && !Condemned(s, pc.record.path)
      && (!pc.stage.RecordRenamed? ==> !Named(s, pc.record.path))
      && (forall u | u != t && PcOf(s, u).Publishing? :: PcOf(s, u).record.path != pc.record.path)
      && FilesOk(s, pc.stage, pc.record, pc.data)
  }

  ghost predicate FilesOk(s: State, stage: Stage, r: Record, data: Bytes) {
    var ct, mt := TempOf(r), RecordTempOf(r);
    match stage
    case Started => true
    case ContentWritten => ct in s.disk && s.disk[ct] == Plain(data)
    case BothWritten => ct in s.disk && s.disk[ct] == Plain(data) && mt in s.disk && s.disk[mt] == Json(r)
    case Locked => ct in s.disk && s.disk[ct] == Plain(data) && mt in s.disk && s.disk[mt] == Json(r)
    case Checked => ct in s.disk && s.disk[ct] == Plain(data) && mt in s.disk && s.disk[mt] == Json(r)
    case ContentRenamed => r.path in s.disk && s.disk[r.path] == Plain(data) && mt in s.disk && s.disk[mt] == Json(r)
    case RecordRenamed =>
      && r.path in s.disk && s.disk[r.path] == Plain(data)
      && Metadata(r.key) in s.disk && s.disk[Metadata(r.key)] == Json(r)
  }

  /** An entry on its way out with its record is no longer in memory. */
  ghost predicate DeleterOk(s: State, t: Task) {
    var pc := PcOf(s, t);
    pc.Deleting? ==> forall d | d in pc.doomed ::
      d.path.Content? && (d.tried ==> d.withRecord) && (d.withRecord ==> !LiveKey(s, d.path.key))
  }

  /** The holder of the publish lock is replacing the record of `k`. */
  ghost predicate Replacing(s: State, k: Key) {
    s.lock.Some? &&
    var pc := PcOf(s, s.lock.value);
    pc.Publishing? && pc.stage.RecordRenamed? && pc.record.key == k
  }

  /** The holder of the publish lock has still to delete the record of `k`. */
  ghost predicate Departing(s: State, k: Key) {
    s.lock.Some? &&
    var pc := PcOf(s, s.lock.value);
    pc.Deleting? && exists d :: d in pc.doomed && d.withRecord && d.path.Content? && d.path.key == k
  }

  /** Memory's record of a live entry is the one on disk. */
  ghost predicate RecordLive(s: State, k: Key, e: Entry) {
    Metadata(k) in s.disk && s.disk[Metadata(k)].Json? && EntryOf(s.disk[Metadata(k)].record) == e
  }

  ghost predicate EntriesOnDisk(s: State) {
    forall p | p in s.mem.entries :: EntryOnDisk(s, p.0, p.1)
  }

  ghost predicate FilesFine(s: State) {
    forall f | f in s.disk :: FileOk(s, f)
  }

  /** Deletions, their queue and their retries are harmless: they never concern a live entry's content. */
  ghost predicate DeletionsHarmless(s: State) {
    |s.failed| <= QUEUE_LIMIT && forall p | Condemned(s, p) :: Made(s, p) && !IsLive(s, p)
  }

  ghost predicate PublishersOk(s: State) {
    forall t :: PublisherOk(s, t)
  }

  ghost predicate DeletersOk(s: State) {
    forall t :: DeleterOk(s, t)
  }

  ghost predicate LiveRecordsOnDisk(s: State) {
    forall p | p in s.mem.entries && p.0 !in s.ragged && !Replacing(s, p.0) :: RecordLive(s, p.0, p.1)
  }

  ghost predicate NoStrayRecords(s: State) {
    forall k | Metadata(k) in s.disk && k !in s.ragged && !LiveKey(s, k) :: Replacing(s, k) || Departing(s, k)
  }

  ghost predicate InvDisk(s: State) {
    && EntriesOnDisk(s) && FilesFine(s) && DeletionsHarmless(s) && PublishersOk(s) && DeletersOk(s)
    && LiveRecordsOnDisk(s) && NoStrayRecords(s)
  }

  ghost predicate Inv(s: State) {
    InvMemory(s) && InvDisk(s)
  }
}
