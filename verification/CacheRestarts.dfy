/**
 Recovery and the running cache, one after the other: a start on what recovery left, whatever became of its removals;
 a recovery that stopped half-way; and any number of lives, each ended by a crash.
 */
module CacheRestarts {
  import opened Basics
  import opened FileNames
  import opened CacheMemory
  import opened CacheStates
  import opened CacheProtocol
  import opened CacheRecovery
  import opened CacheInheritance
  import opened CacheCrash
  import CacheCoherence
  import Lru

  predicate FewerFiles(before: Files, now: Files) {
    forall f | f in now :: f in before && now[f] == before[f]
  }

  /**
   The cache as `new` makes it on a directory: the recovered entries, no task, empty queue and counters. Of the removals
   of the recovery any may have failed. UUIDs are not used twice, and nothing is claimed of how S3 changed meanwhile.
   */
  ghost predicate StartsOn(before: Files, listing: seq<FileName>, s: State) {
    && Lists(listing, before) && FewerFiles(before, s.disk)
    && s.mem.entries == Recovered(s.lim, before, listing) && s.mem.currentBytes == SizeOf(s.mem.entries)
    && (forall f | Stands(s.mem.entries, f) :: f in s.disk)
    && s.mem.generations == map[] && s.bumps == map[] && s.failed == []
    && s.lock == None && s.pcs == map[] && s.busy == map[] && Coherent(s)
    && AllKnown(s.disk, s.nextId)
    && forall k :: k in s.ragged <==> Metadata(k) in s.disk && !LiveKey(s, k)
  }

  lemma RecoveredPair(before: Files, listing: seq<FileName>, s: State, p: (Key, Entry))
    requires Lists(listing, before) && s.mem.entries == Recovered(s.lim, before, listing) && p in s.mem.entries
    ensures ValidPair(s.lim, before, p.0) && p.1 == CandidateOf(before[Metadata(p.0)].record).entry
    ensures Stands(s.mem.entries, p.1.path) && Stands(s.mem.entries, Metadata(p.0))
  {
    var all := Newest(SortByTime(Candidates(s.lim, before, listing)));
    SortedCandidates(s.lim, before, listing);
    TrimIsLongest(all, s.lim);
    hide Candidates;
    hide SortByTime;
    hide Newest;
    hide Trim;
    hide ValidPair;
    var n :| 0 <= n < |s.mem.entries| && s.mem.entries[n] == p;
    assert all[n] == p && p in all && p == (p.0, p.1);
  }

  lemma RecoveredFits(before: Files, listing: seq<FileName>, lim: Limits)
    requires Lists(listing, before)
    ensures Lru.Distinct(Recovered(lim, before, listing)) && Fits(Recovered(lim, before, listing), lim)
  {
    var all := Newest(SortByTime(Candidates(lim, before, listing)));
    SortedCandidates(lim, before, listing);
    TrimIsLongest(all, lim);
    Lru.PrefixDistinct(all, |Recovered(lim, before, listing)|);
  }

  lemma RecoveredPairStands(before: Files, listing: seq<FileName>, s: State, p: (Key, Entry))
    requires StartsOn(before, listing, s) && p in s.mem.entries
    ensures EntryOnDisk(s, p.0, p.1) && RecordLive(s, p.0, p.1) && RecordOk(s, p.0)
  {
    RecoveredPair(before, listing, s, p);
    assert p.1.path in s.disk && Metadata(p.0) in s.disk;
    assert NameKnown(p.1.path, s.disk[p.1.path], s.nextId);
    hide Recovered;
    hide Stands;
    hide Coherent;
  }

  /** What `CacheProtocol` asks of a directory when nothing is under way. */
  lemma IdleDirectory(s: State)
    requires s.pcs == map[] && s.lock == None && s.failed == []
    requires forall p | p in s.mem.entries :: EntryOnDisk(s, p.0, p.1) && RecordLive(s, p.0, p.1)
    requires forall f | f in s.disk :: FileOk(s, f)
    requires forall k | Metadata(k) in s.disk && !LiveKey(s, k) :: k in s.ragged
    ensures InvDisk(s)
  {
    forall t: Task ensures PcOf(s, t) == Idle && PublisherOk(s, t) && DeleterOk(s, t) {
    }
    hide EntryOnDisk;
    hide RecordLive;
    hide FileOk;
  }

  lemma StartedFileOk(before: Files, listing: seq<FileName>, s: State, f: FileName)
    requires StartsOn(before, listing, s) && f in s.disk
    ensures FileOk(s, f)
  {
    assert NameKnown(f, s.disk[f], s.nextId);
    if f.Metadata? && LiveKey(s, f.key) {
      assert (f.key, Lru.Find(s.mem.entries, f.key).value) in s.mem.entries;
      RecoveredPairStands(before, listing, s, (f.key, Lru.Find(s.mem.entries, f.key).value));
    }
  }

  /**
   Every start on a sound directory is fresh: whatever crashes left in it, and whichever removals of the recovery
   failed, the running cache begins with its invariant, and no leftover record claims the content of a valid pair.
   */
  lemma StartFromRecovery(before: Files, listing: seq<FileName>, s: State)
    requires AnyLimits(s.lim) && Sound(s.lim, before) && StartsOn(before, listing, s)
    ensures FreshStart(s)
  {
    FewerFilesAreSound(s.lim, before, s.disk);
    RecoveredFits(before, listing, s.lim);
    hide Sound;
    forall p | p in s.mem.entries ensures EntryOnDisk(s, p.0, p.1) && RecordLive(s, p.0, p.1) {
      RecoveredPairStands(before, listing, s, p);
    }
    forall f | f in s.disk ensures FileOk(s, f) {
      StartedFileOk(before, listing, s, f);
    }
    hide Recovered;
    hide Fits;
    hide EntryOnDisk;
    hide RecordLive;
    hide FileOk;
    IdleDirectory(s);
    assert Unclaimed(s.lim, s.disk) by {
      assert Sound(s.lim, s.disk);
      SoundIsUnclaimed(s.lim, s.disk);
    }
  }

  lemma SoundIsUnclaimed(lim: Limits, files: Files)
    requires Sound(lim, files)
    ensures Unclaimed(lim, files)
  {
  }

  /** The keys whose metadata file is there though they have no entry. */
  function Unlisted(files: Files, entries: Entries): set<Key> {
    set f | f in files && f.Metadata? && Lru.Find(entries, f.key).None? :: f.key
  }

  lemma UnlistedMeans(files: Files, entries: Entries, k: Key)
    ensures k in Unlisted(files, entries) <==> Metadata(k) in files && Lru.Find(entries, k).None?
  {
    assert Metadata(k).key == k;
  }

  /** `S3DiskCache::new` up to the state it begins with. */
  method Start(disk: Disk, lim: Limits, listing: seq<FileName>, s3: map<Key, Bytes>, nextId: nat) returns (s: State)
    requires AnyLimits(lim) && Lists(listing, disk.files) && AllKnown(disk.files, nextId)
    modifies disk
    ensures s.lim == lim && s.s3 == s3 && s.disk == disk.files
    ensures FewerFiles(old(disk.files), disk.files) && forall f | f in old(disk.files) && !Owned(f) :: f in disk.files
    ensures Sound(lim, old(disk.files)) ==> StartsOn(old(disk.files), listing, s) && FreshStart(s)
  {
    ghost var before := disk.files;
    var entries, clean := RecoverEntries(disk, lim, listing);
    var bytes := 0;
    for i := |entries| downto 0
      invariant bytes == SizeOf(entries[i..])
    {
      assert entries[i..][0] == entries[i] && entries[i..][1..] == entries[i + 1..];
      bytes := entries[i].1.size + bytes;
    }
    assert entries[0..] == entries;
    var stale := set p | p in entries :: p.0;
    s := State(lim, s3, map[], stale, Memory(entries, bytes, map[]), map[], None, map[], disk.files, nextId, [],
               Unlisted(disk.files, entries));
    if Sound(lim, before) {
      StartedAsIs(before, listing, s);
      StartFromRecovery(before, listing, s);
    }
  }

  lemma StartedAsIs(before: Files, listing: seq<FileName>, s: State)
    requires Lists(listing, before) && FewerFiles(before, s.disk) && AllKnown(before, s.nextId)
    requires s.mem.entries == Recovered(s.lim, before, listing) && forall f | Stands(s.mem.entries, f) :: f in s.disk
    requires s.mem == Memory(s.mem.entries, SizeOf(s.mem.entries), map[]) && s.ragged == Unlisted(s.disk, s.mem.entries)
    requires s.bumps == map[] && s.failed == [] && s.lock == None && s.pcs == map[] && s.busy == map[]
    requires s.stale == set p | p in s.mem.entries :: p.0
    ensures StartsOn(before, listing, s)
  {
    forall k ensures k in s.ragged <==> Metadata(k) in s.disk && !LiveKey(s, k) {
      UnlistedMeans(s.disk, s.mem.entries, k);
    }
    hide Unlisted;
    hide Recovered;
    hide Stands;
    hide NameKnown;
  }

  // ---- A recovery that stopped half-way ----

  function TimeOf(files: Files, k: Key): nat {
    if Metadata(k) in files && files[Metadata(k)].Json? then files[Metadata(k)].record.cachedAt else 0
  }

  /** No other valid pair has been published at the same time. */
  ghost predicate OwnTime(lim: Limits, files: Files, k: Key) {
    forall j | ValidPair(lim, files, j) && j != k :: TimeOf(files, j) != TimeOf(files, k)
  }

  /** The entry that the valid pair of a key makes. */
  ghost predicate IsPair(lim: Limits, files: Files, p: (Key, Entry)) {
    ValidPair(lim, files, p.0) && p.1 == CandidateOf(files[Metadata(p.0)].record).entry
  }

  /** The entries of the valid pairs, one each, newest first. */
  ghost predicate NewestFirst(lim: Limits, files: Files, all: Entries) {
    && Lru.Distinct(all) && (forall p :: p in all <==> IsPair(lim, files, p))
    && (forall i, j | 0 <= i < j < |all| :: TimeOf(files, all[j].0) <= TimeOf(files, all[i].0))
  }

  lemma CandidatesInOrder(files: Files, c: seq<Candidate>, all: Entries)
    requires all == Newest(c) && DistinctKeys(c) && Ordered(c) && forall x | x in c :: TimeOf(files, x.key) == x.cachedAt
    ensures forall i, j | 0 <= i < j < |all| :: TimeOf(files, all[j].0) <= TimeOf(files, all[i].0)
  {
    NewestMeans(c);
    hide Newest;
    hide TimeOf;
    forall i, j | 0 <= i < j < |all| ensures TimeOf(files, all[j].0) <= TimeOf(files, all[i].0) {
      var x, y := c[|c| - 1 - i], c[|c| - 1 - j];
      assert x in c && y in c && all[i].0 == x.key && all[j].0 == y.key;
    }
  }

  lemma CandidateTime(lim: Limits, files: Files, x: Candidate)
    requires ValidPair(lim, files, x.key) && x == CandidateOf(files[Metadata(x.key)].record)
    ensures TimeOf(files, x.key) == x.cachedAt
  {
  }

  lemma CandidatesAreNewestFirst(lim: Limits, files: Files, listing: seq<FileName>)
    requires Lists(listing, files)
    ensures NewestFirst(lim, files, Newest(SortByTime(Candidates(lim, files, listing))))
  {
    hide *;
    SortedCandidates(lim, files, listing);
    var c := SortByTime(Candidates(lim, files, listing));
    forall x | x in c ensures TimeOf(files, x.key) == x.cachedAt {
      CandidateTime(lim, files, x);
    }
    var all := Newest(c);
    CandidatesInOrder(files, c, all);
    PairsAre(lim, files, all);
  }

  lemma PairsAre(lim: Limits, files: Files, all: Entries)
    requires forall k, e :: (k, e) in all <==> ValidPair(lim, files, k) && e == CandidateOf(files[Metadata(k)].record).entry
    requires Lru.Distinct(all) && forall i, j | 0 <= i < j < |all| :: TimeOf(files, all[j].0) <= TimeOf(files, all[i].0)
    ensures NewestFirst(lim, files, all)
  {
    hide ValidPair;
    hide TimeOf;
    hide CandidateOf;
    forall p ensures p in all <==> IsPair(lim, files, p) {
      assert p == (p.0, p.1);
    }
  }

  /** Recovery keeps as many of them as fit. */
  lemma RecoveredIsNewest(lim: Limits, files: Files, listing: seq<FileName>) returns (all: Entries)
    requires Lists(listing, files)
    ensures NewestFirst(lim, files, all)
    ensures var r := Recovered(lim, files, listing);
      r <= all && Fits(r, lim) && forall n | |r| < n <= |all| :: !Fits(all[..n], lim)
  {
    CandidatesAreNewestFirst(lim, files, listing);
    all := Newest(SortByTime(Candidates(lim, files, listing)));
    TrimIsLongest(all, lim);
  }

  lemma SamePairs(lim: Limits, before: Files, now: Files, p: (Key, Entry))
    requires FewerFiles(before, now) && IsPair(lim, now, p)
    ensures IsPair(lim, before, p) && TimeOf(before, p.0) == TimeOf(now, p.0)
  {
  }

  /** What precedes an entry in the list of the directory as it is now preceded it before. */
  lemma PrecededBefore(lim: Limits, before: Files, now: Files, all: Entries, all': Entries, i: nat, j: nat, n: nat)
    requires FewerFiles(before, now) && NewestFirst(lim, before, all) && NewestFirst(lim, now, all')
    requires i < |all| && n <= j < |all'| && all[i] == all'[j] && OwnTime(lim, before, all[i].0)
    ensures exists m :: 0 <= m <= i && all[m] == all'[n]
  {
    var p, q := all'[n], all'[j];
    assert p in all' && q in all';
    SamePairs(lim, before, now, p);
    SamePairs(lim, before, now, q);
    assert p in all;
    if n < j {
      assert TimeOf(now, q.0) <= TimeOf(now, p.0) && p.0 != q.0;
      var m :| 0 <= m < |all| && all[m] == p;
      assert i < m ==> TimeOf(before, p.0) <= TimeOf(before, q.0);
    }
  }

  /**
   A recovery may stop at any removal; it takes no file that an entry it would return stands on, see `RecoverEntries`.
   The next one still returns every such entry, unless another pair was published at the very same time: then the order
   of the listing decides between them.
   */
  lemma RestartKeepsEntries(lim: Limits, before: Files, listing: seq<FileName>, now: Files, listing': seq<FileName>, p: (Key, Entry))
    requires Lists(listing, before) && Lists(listing', now) && FewerFiles(before, now)
    requires p in Recovered(lim, before, listing) && OwnTime(lim, before, p.0)
    requires forall f | Stands(Recovered(lim, before, listing), f) :: f in now
    ensures p in Recovered(lim, now, listing')
  {
    assert Stands(Recovered(lim, before, listing), p.1.path) && Stands(Recovered(lim, before, listing), Metadata(p.0));
    hide Stands;
    var all := RecoveredIsNewest(lim, before, listing);
    var all' := RecoveredIsNewest(lim, now, listing');
    var r, r' := Recovered(lim, before, listing), Recovered(lim, now, listing');
    hide Recovered;
    var i :| 0 <= i < |r| && r[i] == p;
    assert all[i] == p && p in all;
    assert IsPair(lim, now, p);
    hide IsPair;
    var j :| 0 <= j < |all'| && all'[j] == p;
    forall n | 0 <= n <= j ensures all'[n] in r {
      PrecededBefore(lim, before, now, all, all', i, j, n);
      var m :| 0 <= m <= i && all[m] == all'[n];
      assert r[m] == all'[n];
    }
    hide OwnTime;
    hide NewestFirst;
    FirstFit(lim, r, all, all', j + 1);
    KeptIfFits(lim, r', all', j + 1);
    assert r'[j] == p;
  }

  lemma KeptIfFits(lim: Limits, r: Entries, all: Entries, n: nat)
    requires n <= |all| && Fits(all[..n], lim) && forall m | |r| < m <= |all| :: !Fits(all[..m], lim)
    ensures n <= |r|
  {
  }

  /** The first entries of a list fit when they are all in a list that fits. */
  lemma FirstFit(lim: Limits, r: Entries, all: Entries, all': Entries, n: nat)
    requires r <= all && Fits(r, lim) && Lru.Distinct(all) && Lru.Distinct(all')
    requires n <= |all'| && forall i | 0 <= i < n :: all'[i] in r
    ensures Fits(all'[..n], lim)
  {
    Lru.PrefixDistinct(all, |r|);
    Lru.PrefixDistinct(all', n);
    assert all[..|r|] == r;
    FewerPairsSmaller(all'[..n], r);
  }

  /** A record of an empty object. */
  function EmptyRecord(k: Key): Record {
    Record(1, k, Content(k, 0), 0, Sha256([]), Info(None, None), 0)
  }

  function EmptyEntry(k: Key): (Key, Entry) {
    (k, CandidateOf(EmptyRecord(k)).entry)
  }

  /** Two pairs published at the same time. */
  function Tied(): Files {
    map[Metadata("a") := Json(EmptyRecord("a")), Metadata("b") := Json(EmptyRecord("b")),
        Content("a", 0) := Plain([]), Content("b", 0) := Plain([])]
  }

  lemma TiedAreValid(lim: Limits)
    ensures ValidPair(lim, Tied(), "a") && ValidPair(lim, Tied(), "b")
  {
    assert "a"[0] != "b"[0];
  }

  function ListedLast(x: Key, y: Key): seq<FileName> {
    [Content(x, 0), Content(y, 0), Metadata(x), Metadata(y)]
  }

  lemma TiedRecords(lim: Limits, x: Key)
    requires x in {"a", "b"}
    ensures ValidPair(lim, Tied(), x) && Metadata(x) in Tied() && Tied()[Metadata(x)] == Json(EmptyRecord(x))
  {
    TiedAreValid(lim);
    assert "a"[0] != "b"[0];
    hide ValidPair;
    hide EmptyRecord;
  }

  lemma TiedCandidates(lim: Limits, x: Key, y: Key)
    requires {x, y} == {"a", "b"}
    ensures Candidates(lim, Tied(), ListedLast(x, y)) == [CandidateOf(EmptyRecord(x)), CandidateOf(EmptyRecord(y))]
  {
    assert x in {"a", "b"} && y in {"a", "b"};
    hide ValidPair;
    hide Tied;
    hide Candidates;
    hide EmptyRecord;
    hide CandidateOf;
    TiedRecords(lim, x);
    TiedRecords(lim, y);
    var l := ListedLast(x, y);
    NoCandidates(lim, Tied());
    CandidatesStep(lim, Tied(), l, 0);
    CandidatesStep(lim, Tied(), l, 1);
    CandidatesStep(lim, Tied(), l, 2);
    CandidatesStep(lim, Tied(), l, 3);
    assert l[..4] == l && l[..0] == [];
  }

  lemma NoCandidates(lim: Limits, files: Files)
    ensures Candidates(lim, files, []) == []
  {
  }

  lemma SameTimeStays(x: Candidate, y: Candidate)
    requires x.cachedAt <= y.cachedAt
    ensures SortByTime([x, y]) == [x, y] && Newest([x, y]) == [(y.key, y.entry), (x.key, x.entry)]
  {
    assert [x, y][..1] == [x] && [x][..0] == [];
    assert SortByTime([x]) == [x] && Newest([x]) == [(x.key, x.entry)];
  }

  /** Of two such pairs with room for one, recovery keeps the one that is listed last. */
  lemma TiedKeepsLast(x: Key, y: Key)
    requires {x, y} == {"a", "b"}
    ensures Recovered(Limits(1, 1), Tied(), ListedLast(x, y)) == [EmptyEntry(y)]
  {
    var lim := Limits(1, 1);
    TiedCandidates(lim, x, y);
    SameTimeStays(CandidateOf(EmptyRecord(x)), CandidateOf(EmptyRecord(y)));
    var all := [EmptyEntry(y), EmptyEntry(x)];
    assert all[..1] == [EmptyEntry(y)] && SizeOf([EmptyEntry(y)]) == 0 by {
      assert [EmptyEntry(y)][1..] == [];
    }
    hide Candidates;
    hide SortByTime;
    hide Newest;
    assert Trim(all, lim) == Trim(all[..1], lim);
  }

  lemma TiedIsListed(x: Key, y: Key)
    requires {x, y} == {"a", "b"}
    ensures Lists(ListedLast(x, y), Tied())
  {
    assert x != y && x in {"a", "b"} && y in {"a", "b"};
    var l := ListedLast(x, y);
    forall f ensures f in l <==> f in Tied() {
      assert f in l <==> f == l[0] || f == l[1] || f == l[2] || f == l[3];
    }
  }

  /** So the condition on times is needed: though nothing was removed, another listing makes recovery keep the other pair. */
  lemma TiesDependOnListing()
    ensures var lim := Limits(1, 1);
      && Lists(ListedLast("a", "b"), Tied()) && Lists(ListedLast("b", "a"), Tied())
      && EmptyEntry("b") in Recovered(lim, Tied(), ListedLast("a", "b"))
      && EmptyEntry("b") !in Recovered(lim, Tied(), ListedLast("b", "a"))
  {
    assert "a"[0] != "b"[0];
    assert {"b", "a"} == {"a", "b"};
    hide Recovered;
    hide Lists;
    hide Tied;
    hide ListedLast;
    TiedIsListed("a", "b");
    TiedIsListed("b", "a");
    TiedKeepsLast("a", "b");
    TiedKeepsLast("b", "a");
  }

  // ---- Any number of lives ----

  /** One life of the cache, from its start to a crash. */
  datatype Life = Life(start: State, actions: seq<Action>)

  ghost predicate Lives(l: Life) {
    CacheCoherence.Run(l.start, l.actions).Some?
  }

  function DiskAfter(l: Life): Files
    requires Lives(l)
  {
    CacheCoherence.Run(l.start, l.actions).value.disk
  }

  /** Recoveries that stopped half-way may have taken files before one reached its end. */
  ghost predicate FollowsOn(l: Life, s: State)
    requires Lives(l)
  {
    s.lim == l.start.lim && exists before, listing :: FewerFiles(DiskAfter(l), before) && StartsOn(before, listing, s)
  }

  /** A crash at any moment leaves a sound directory. */
  lemma CrashLeavesSound(l: Life)
    requires FreshStart(l.start) && Lives(l) && ValidLimits(l.start.lim)
    ensures Sound(l.start.lim, DiskAfter(l))
  {
    hide FreshStart;
    StartIsReached(l.start);
    RunKeepsReached(l.start, StartTrace(l.start), l.actions);
    NoFalseClaims(CacheCoherence.Run(l.start, l.actions).value, TraceOf(StartTrace(l.start), l.start, l.actions));
    hide Reached;
    hide Unclaimed;
  }

  /**
   Every life starts fresh: after any number of lives, each ended by a crash at any moment and followed by recoveries
   any removals of which failed and any of which stopped half-way. So what `CacheCrash` proves of one life holds of all.
   */
  lemma {:induction false} EveryLifeStartsFresh(lives: seq<Life>, n: nat)
    requires n < |lives| && forall l | l in lives :: Lives(l)
    requires FreshStart(lives[0].start) && ValidLimits(lives[0].start.lim)
    requires forall i | 0 < i < |lives| :: FollowsOn(lives[i - 1], lives[i].start)
    ensures FreshStart(lives[n].start) && lives[n].start.lim == lives[0].start.lim
  {
    hide FreshStart;
    if n > 0 {
      EveryLifeStartsFresh(lives, n - 1);
      CrashLeavesSound(lives[n - 1]);
      assert FollowsOn(lives[n - 1], lives[n].start);
      NextLifeIsFresh(lives[n - 1], lives[n].start);
    }
  }

  lemma NextLifeIsFresh(l: Life, s: State)
    requires Lives(l) && FollowsOn(l, s) && ValidLimits(s.lim) && Sound(s.lim, DiskAfter(l))
    ensures FreshStart(s)
  {
    hide FreshStart;
    hide StartsOn;
    hide Sound;
    var before, listing :| FewerFiles(DiskAfter(l), before) && StartsOn(before, listing, s);
    FewerFilesAreSound(s.lim, DiskAfter(l), before);
    StartFromRecovery(before, listing, s);
  }
}
