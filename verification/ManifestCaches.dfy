/**
 The per-repository cache of manifest listings: the object behind its lock, and any number of listings (read page
 by page) and mutations interleaved around it.
 */
module ManifestCaches {
  import opened Basics
  import Lru

  type Repository = nat

  type Key = string

  datatype Info = Info(size: nat, modified: nat)

  /** The manifests of a repository. Filtering and sorting are functions of it. */
  type Listing = map<Key, Info>

  datatype Cached = Cached(items: Listing, expires: nat)

  const CAPACITY: nat := 256
  /** 30 s, in milliseconds */
  const TTL: nat := 30_000

  datatype Cache = Cache(entries: seq<(Repository, Cached)>, generations: map<Repository, nat>)

  function Generation(g: map<Repository, nat>, r: Repository): nat {
    if r in g then g[r] else 0
  }

  // ---- What the critical sections do ----

  function Served(c: Cache, r: Repository, now: nat): Option<Listing> {
    var found := Lru.Find(c.entries, r);
    if found.Some? && found.value.expires > now then Some(found.value.items) else None
  }

  function AfterGet(c: Cache, r: Repository, now: nat): Cache {
    var found := Lru.Find(c.entries, r);
    if found.Some? && found.value.expires <= now then c.(entries := Lru.Without(Lru.Promote(c.entries, r), r))
    else c.(entries := Lru.Promote(c.entries, r))
  }

  function Inserted(c: Cache, r: Repository, items: Listing, now: nat): Cache {
    c.(entries := Lru.Put(c.entries, CAPACITY, r, Cached(items, now + TTL)))
  }

  function InsertedIf(c: Cache, r: Repository, items: Listing, now: nat, generation: nat): Cache {
    if Generation(c.generations, r) == generation then Inserted(c, r, items, now) else c
  }

  function Invalidated(c: Cache, r: Repository): Cache {
    Cache(Lru.Without(c.entries, r), c.generations[r := if r in c.generations then (c.generations[r] + 1) % TWO_64 else 1])
  }

  ghost predicate Sound(c: Cache) {
    Lru.Distinct(c.entries) && |c.entries| <= CAPACITY
  }

  /** A lookup takes an unexpired listing to the front, and drops an expired one. */
  lemma AfterGetFound(c: Cache, r: Repository, now: nat, i: nat)
    requires Sound(c) && i < |c.entries| && c.entries[i].0 == r
    ensures AfterGet(c, r, now).generations == c.generations
    ensures if c.entries[i].1.expires > now then
              && Served(c, r, now) == Some(c.entries[i].1.items)
              && AfterGet(c, r, now).entries == [c.entries[i]] + c.entries[..i] + c.entries[i + 1..]
            else Served(c, r, now) == None && AfterGet(c, r, now).entries == c.entries[..i] + c.entries[i + 1..]
  {
    Lru.DistinctFind(c.entries, i);
    hide Lru.Promote;
    hide Lru.Without;
    Lru.PromoteMoves(c.entries, r, i);
    Lru.PromoteThenPop(c.entries, r, i);
  }

  /** Of a repository without a listing it serves nothing and changes nothing. */
  lemma AfterGetMissing(c: Cache, r: Repository, now: nat)
    requires forall i | 0 <= i < |c.entries| :: c.entries[i].0 != r
    ensures Served(c, r, now) == None && AfterGet(c, r, now) == c
  {
    Lru.PromoteMisses(c.entries, r);
  }

  /** A listing put in stands first and expires after 30 s; the old one of its repository goes. */
  lemma InsertedReplaces(c: Cache, r: Repository, items: Listing, now: nat, i: nat)
    requires Sound(c) && i < |c.entries| && c.entries[i].0 == r
    ensures Inserted(c, r, items, now).generations == c.generations
    ensures Inserted(c, r, items, now).entries == [(r, Cached(items, now + 30_000))] + c.entries[..i] + c.entries[i + 1..]
  {
    Lru.PutReplaces(c.entries, CAPACITY, r, Cached(items, now + TTL), i);
  }

  /** Of another repository, the last listing of a full cache goes. */
  lemma InsertedAdds(c: Cache, r: Repository, items: Listing, now: nat)
    requires Sound(c) && forall i | 0 <= i < |c.entries| :: c.entries[i].0 != r
    ensures Inserted(c, r, items, now).generations == c.generations
    ensures Inserted(c, r, items, now).entries ==
      [(r, Cached(items, now + 30_000))] + (if |c.entries| == 256 then c.entries[..255] else c.entries)
  {
    Lru.PutAdds(c.entries, CAPACITY, r, Cached(items, now + TTL));
  }

  class ManifestCache {
    var entries: seq<(Repository, Cached)>
    var generations: map<Repository, nat>

    ghost function Value(): Cache
      reads this
    {
      Cache(entries, generations)
    }

    ghost predicate Valid()
      reads this
    {
      Sound(Value())
    }

    constructor ()
      ensures Valid() && Value() == Cache([], map[])
    {
      entries, generations := [], map[];
    }

    method Get(r: Repository, now: nat) returns (items: Option<Listing>)
      requires Valid()
      modifies this`entries
      ensures Valid() && Value() == AfterGet(old(Value()), r, now)
      ensures items == Served(old(Value()), r, now)
      ensures items.Some? ==> exists i | 0 <= i < |old(entries)| ::
        && old(entries)[i].0 == r && old(entries)[i].1.items == items.value && now < old(entries)[i].1.expires
        && entries == [old(entries)[i]] + old(entries)[..i] + old(entries)[i + 1..]
      ensures items.None? ==> forall e | e in entries :: e in old(entries) && e.0 != r
      ensures items.None? ==> forall e | e in old(entries) :: e in entries || (e.0 == r && e.1.expires <= now)
    {
      if Lru.Find(entries, r).Some? {
        ghost var i :| 0 <= i < |entries| && entries[i] == (r, Lru.Find(entries, r).value);
        AfterGetFound(Value(), r, now, i);
      }
      Lru.PromoteKeeps(entries, r);
      Lru.WithoutDistinct(Lru.Promote(entries, r), r);
      var found := Lru.Find(entries, r);
      if found.None? {
        return None;
      }
      entries := Lru.Promote(entries, r);
      if found.value.expires <= now {
        entries := Lru.Without(entries, r);
        return None;
      }
      items := Some(found.value.items);
    }

    method Insert(r: Repository, items: Listing, now: nat)
      requires Valid()
      modifies this`entries
      ensures Valid() && Value() == Inserted(old(Value()), r, items, now)
      ensures entries != [] && entries[0] == (r, Cached(items, now + 30_000)) && |entries| <= 256
      ensures forall e | e in entries && e != entries[0] :: e in old(entries) && e.0 != r
    {
      Lru.PutKeeps(entries, CAPACITY, r, Cached(items, now + TTL));
      entries := Lru.Put(entries, CAPACITY, r, Cached(items, now + TTL));
    }

    method InsertIfGeneration(r: Repository, items: Listing, now: nat, generation: nat)
      requires Valid()
      modifies this`entries
      ensures Valid() && Value() == InsertedIf(old(Value()), r, items, now, generation)
      ensures if (if r in generations then generations[r] else 0) == generation
              then entries != [] && entries[0] == (r, Cached(items, now + 30_000))
              else entries == old(entries)
    {
      if Generation(generations, r) == generation {
        Insert(r, items, now);
      }
    }

    method Invalidate(r: Repository)
      requires Valid()
      modifies this
      ensures Valid() && Value() == Invalidated(old(Value()), r)
      ensures generations == old(generations)[r := ((if r in old(generations) then old(generations)[r] else 0) + 1) % TWO_64]
      ensures forall e :: e in entries <==> e in old(entries) && e.0 != r
    {
      Lru.WithoutDistinct(entries, r);
      generations := generations[r := if r in generations then (generations[r] + 1) % TWO_64 else 1];
      entries := Lru.Without(entries, r);
    }
  }

  // ---- Listings and mutations, interleaved ----

  type Task = nat

  /** A listing reads pages at different moments: `covered` are the keys read so far, `collected` what was there. */
  datatype Pc =
    | Idle
    | Loading(r: Repository, generation: nat, begun: nat, covered: set<Key>, collected: Listing)
    | Loaded(r: Repository, generation: nat, begun: nat, items: Listing)
    | Changed(r: Repository)

  /**
   History: `bumps` counts the completed invalidations of a repository, `stale` holds the repositories whose objects
   changed since the last one, and `begun` says at which count the cached listing began.
   */
  datatype State = State(
    objects: map<Repository, Listing>,
    cache: Cache,
    pcs: map<Task, Pc>,
    bumps: map<Repository, nat>,
    stale: set<Repository>,
    begun: map<Repository, nat>)

  datatype Action =
    | Serve(r: Repository, now: nat)
    | BeginLoad(t: Task, r: Repository)
    | ReadPage(t: Task, keys: set<Key>)
    | ReadLastPage(t: Task)
    | Keep(t: Task, now: nat)
    | GiveUp(t: Task)
    | Change(t: Task, r: Repository, key: Key, after: Option<Info>)
    | Invalidate(t: Task)

  function PcOf(s: State, t: Task): Pc {
    if t in s.pcs then s.pcs[t] else Idle
  }

  function BumpsOf(s: State, r: Repository): nat {
    if r in s.bumps then s.bumps[r] else 0
  }

  /** What listing the repository from S3 would give now. */
  function Fresh(s: State, r: Repository): Listing {
    if r in s.objects then s.objects[r] else map[]
  }

  function Within(l: Listing, keys: set<Key>): Listing {
    map k | k in l && k in keys :: l[k]
  }

  predicate Enabled(s: State, a: Action) {
    match a
    case Serve(_, _) => true
    case BeginLoad(t, _) => PcOf(s, t).Idle?
    case ReadPage(t, _) => PcOf(s, t).Loading?
    case ReadLastPage(t) => PcOf(s, t).Loading?
    case Keep(t, _) => PcOf(s, t).Loaded?
    case GiveUp(t) => PcOf(s, t).Loading?
    // One operation may change several objects before it invalidates.
    case Change(t, r, _, _) => PcOf(s, t).Idle? || PcOf(s, t) == Changed(r)
    case Invalidate(t) => PcOf(s, t).Changed?
  }

  function Go(s: State, t: Task, pc: Pc): State {
    s.(pcs := s.pcs[t := pc])
  }

  function Step(s: State, a: Action): State
    requires Enabled(s, a)
  {
    match a
    case Serve(r, now) => s.(cache := AfterGet(s.cache, r, now))
    case BeginLoad(t, r) => Go(s, t, Loading(r, Generation(s.cache.generations, r), BumpsOf(s, r), {}, map[]))
    case ReadPage(t, keys) =>
      var pc := PcOf(s, t);
      Go(s, t, pc.(covered := pc.covered + keys, collected := pc.collected + Within(Fresh(s, pc.r), keys - pc.covered)))
    case ReadLastPage(t) =>
      var pc := PcOf(s, t);
      Go(s, t, Loaded(pc.r, pc.generation, pc.begun, pc.collected + (Fresh(s, pc.r) - pc.covered)))
    case Keep(t, now) =>
      var pc := PcOf(s, t);
      var s1 := Go(s, t, Idle).(cache := InsertedIf(s.cache, pc.r, pc.items, now, pc.generation));
      if Generation(s.cache.generations, pc.r) == pc.generation then s1.(begun := s.begun[pc.r := pc.begun]) else s1
    case GiveUp(t) => Go(s, t, Idle)
    case Change(t, r, key, after) =>
      Go(s, t, Changed(r))
      .(objects := s.objects[r := if after.Some? then Fresh(s, r)[key := after.value] else Fresh(s, r) - {key}],
        stale := s.stale + {r})
    case Invalidate(t) =>
      var r := PcOf(s, t).r;
      Go(s, t, Idle).(cache := Invalidated(s.cache, r), bumps := s.bumps[r := BumpsOf(s, r) + 1], stale := s.stale - {r})
  }

  /** The counter has not wrapped, and nothing changed since the last invalidation, the `at`-th. */
  ghost predicate Settled(s: State, r: Repository, at: nat) {
    BumpsOf(s, r) < TWO_64 && at == BumpsOf(s, r) && r !in s.stale
  }

  ghost predicate EntryOk(s: State, e: (Repository, Cached)) {
    && (Settled(s, e.0, BumpsOf(s, e.0)) ==> e.1.items == Fresh(s, e.0))
    && (BumpsOf(s, e.0) < TWO_64 ==> e.0 in s.begun && s.begun[e.0] == BumpsOf(s, e.0))
  }

  ghost predicate PcOk(s: State, pc: Pc) {
    match pc
    case Loading(r, g, begun, covered, collected) =>
      g == begun % TWO_64 && begun <= BumpsOf(s, r) && (Settled(s, r, begun) ==> collected == Within(Fresh(s, r), covered))
    case Loaded(r, g, begun, items) =>
      g == begun % TWO_64 && begun <= BumpsOf(s, r) && (Settled(s, r, begun) ==> items == Fresh(s, r))
    case _ => true
  }

  ghost predicate Inv(s: State) {
    && Sound(s.cache)
    && (forall r :: Generation(s.cache.generations, r) == BumpsOf(s, r) % TWO_64)
    && (forall e | e in s.cache.entries :: EntryOk(s, e))
    && (forall t :: PcOk(s, PcOf(s, t)))
  }

  lemma GetKeeps(c: Cache, r: Repository, now: nat)
    requires Sound(c)
    ensures Sound(AfterGet(c, r, now)) && forall e | e in AfterGet(c, r, now).entries :: e in c.entries
  {
    Lru.PromoteKeeps(c.entries, r);
    Lru.WithoutDistinct(Lru.Promote(c.entries, r), r);
  }

  lemma InsertKeeps(c: Cache, r: Repository, items: Listing, now: nat)
    requires Sound(c)
    ensures Sound(Inserted(c, r, items, now))
    ensures forall e | e in Inserted(c, r, items, now).entries :: e == (r, Cached(items, now + TTL)) || (e in c.entries && e.0 != r)
  {
    Lru.PutKeeps(c.entries, CAPACITY, r, Cached(items, now + TTL));
  }

  lemma InvalidateKeeps(c: Cache, r: Repository)
    requires Sound(c)
    ensures Sound(Invalidated(c, r)) && forall e | e in Invalidated(c, r).entries :: e in c.entries && e.0 != r
  {
    Lru.WithoutDistinct(c.entries, r);
  }

  /** Pages of an unchanged repository make up its listing. */
  lemma PagesJoin(l: Listing, covered: set<Key>, keys: set<Key>)
    ensures Within(l, covered) + Within(l, keys - covered) == Within(l, covered + keys)
    ensures Within(l, covered) + (l - covered) == l
    ensures Within(l, {}) == map[]
  {
  }

  lemma ServeKeeps(s: State, r: Repository, now: nat)
    requires Inv(s)
    ensures Inv(Step(s, Serve(r, now)))
  {
    var z := Step(s, Serve(r, now));
    GetKeeps(s.cache, r, now);
    hide AfterGet;
    forall e | e in z.cache.entries ensures EntryOk(z, e) {
      assert EntryOk(s, e);
    }
    forall t ensures PcOk(z, PcOf(z, t)) {
      assert PcOk(s, PcOf(s, t));
    }
  }

  lemma LoadKeeps(s: State, a: Action)
    requires Inv(s) && Enabled(s, a) && (a.BeginLoad? || a.ReadPage? || a.ReadLastPage? || a.GiveUp?)
    ensures Inv(Step(s, a))
  {
    var z := Step(s, a);
    forall e | e in z.cache.entries ensures EntryOk(z, e) {
      assert EntryOk(s, e);
    }
    forall t ensures PcOk(z, PcOf(z, t)) {
      assert PcOk(s, PcOf(s, t));
      if t == a.t {
        LoadingStepOk(s, a);
      }
    }
  }

  lemma LoadingStepOk(s: State, a: Action)
    requires Inv(s) && Enabled(s, a) && (a.BeginLoad? || a.ReadPage? || a.ReadLastPage? || a.GiveUp?)
    ensures PcOk(Step(s, a), PcOf(Step(s, a), a.t))
  {
    var pc := PcOf(s, a.t);
    assert PcOk(s, pc);
    match a
    case BeginLoad(t, r) => PagesJoin(Fresh(s, r), {}, {});
    case ReadPage(t, keys) => PagesJoin(Fresh(s, pc.r), pc.covered, keys);
    case ReadLastPage(t) => PagesJoin(Fresh(s, pc.r), pc.covered, {});
    case GiveUp(t) =>
  }

  /** The entry that was there before, under what the step adds to the history. */
  lemma OldEntryStaysOk(s: State, z: State, e: (Repository, Cached), r: Repository)
    requires EntryOk(s, e) && e.0 != r
    requires z.objects == s.objects && z.bumps == s.bumps && z.stale == s.stale && z.begun - {r} == s.begun - {r}
    ensures EntryOk(z, e)
  {
    assert e.0 in s.begun ==> e.0 in s.begun - {r} && (s.begun - {r})[e.0] == s.begun[e.0];
    assert e.0 in z.begun - {r} ==> (z.begun - {r})[e.0] == z.begun[e.0];
  }

  lemma KeptEntryOk(s: State, t: Task, now: nat, e: (Repository, Cached))
    requires Inv(s) && Enabled(s, Keep(t, now)) && e in Step(s, Keep(t, now)).cache.entries
    ensures EntryOk(Step(s, Keep(t, now)), e)
  {
    var pc, z := PcOf(s, t), Step(s, Keep(t, now));
    assert PcOk(s, pc);
    InsertKeeps(s.cache, pc.r, pc.items, now);
    assert e in s.cache.entries ==> EntryOk(s, e);
    assert Generation(s.cache.generations, pc.r) == BumpsOf(s, pc.r) % TWO_64;
    hide Inserted;
    hide Inv;
    hide Generation;
    if Generation(s.cache.generations, pc.r) == pc.generation && e in s.cache.entries && e.0 != pc.r {
      hide EntryOk;
      OldEntryStaysOk(s, z, e, pc.r);
    }
  }

  lemma KeepKeeps(s: State, t: Task, now: nat)
    requires Inv(s) && Enabled(s, Keep(t, now))
    ensures Inv(Step(s, Keep(t, now)))
  {
    var z := Step(s, Keep(t, now));
    InsertKeeps(s.cache, PcOf(s, t).r, PcOf(s, t).items, now);
    hide Inserted;
    forall u ensures PcOk(z, PcOf(z, u)) {
      assert PcOk(s, PcOf(s, u));
    }
    hide EntryOk;
    hide PcOk;
    forall e | e in z.cache.entries ensures EntryOk(z, e) {
      KeptEntryOk(s, t, now, e);
    }
  }

  lemma ChangeKeeps(s: State, a: Action)
    requires Inv(s) && Enabled(s, a) && a.Change?
    ensures Inv(Step(s, a))
  {
    var z := Step(s, a);
    forall e | e in z.cache.entries ensures EntryOk(z, e) {
      assert EntryOk(s, e);
    }
    forall u ensures PcOk(z, PcOf(z, u)) {
      assert PcOk(s, PcOf(s, u));
    }
  }

  lemma InvalidateCounts(s: State, t: Task)
    requires Inv(s) && Enabled(s, Invalidate(t))
    ensures var z := Step(s, Invalidate(t)); forall q :: Generation(z.cache.generations, q) == BumpsOf(z, q) % TWO_64
  {
    var r := PcOf(s, t).r;
    var z := Step(s, Invalidate(t));
    hide EntryOk;
    hide PcOk;
    hide Sound;
    assert Generation(s.cache.generations, r) == BumpsOf(s, r) % TWO_64;
    WrappingAdd(BumpsOf(s, r), 1);
    assert Generation(z.cache.generations, r) == (Generation(s.cache.generations, r) + 1) % TWO_64;
    forall q ensures Generation(z.cache.generations, q) == BumpsOf(z, q) % TWO_64 {
      assert q != r ==> Generation(z.cache.generations, q) == Generation(s.cache.generations, q) && BumpsOf(z, q) == BumpsOf(s, q);
    }
  }

  lemma InvalidateStepKeeps(s: State, t: Task)
    requires Inv(s) && Enabled(s, Invalidate(t))
    ensures Inv(Step(s, Invalidate(t)))
  {
    var r := PcOf(s, t).r;
    var z := Step(s, Invalidate(t));
    InvalidateKeeps(s.cache, r);
    InvalidateCounts(s, t);
    hide Invalidated;
    hide Sound;
    hide Generation;
    forall e | e in z.cache.entries ensures EntryOk(z, e) {
      assert EntryOk(s, e);
    }
    forall u ensures PcOk(z, PcOf(z, u)) {
      assert PcOk(s, PcOf(s, u));
    }
  }

  lemma StepKeepsInv(s: State, a: Action)
    requires Inv(s) && Enabled(s, a)
    ensures Inv(Step(s, a))
  {
    hide Inv;
    hide Step;
    match a
    case Serve(r, now) => ServeKeeps(s, r, now);
    case Keep(t, now) => KeepKeeps(s, t, now);
    case Change(_, _, _, _) => ChangeKeeps(s, a);
    case Invalidate(t) => InvalidateStepKeeps(s, t);
    case _ => LoadKeeps(s, a);
  }

  predicate Possible(s: State, run: seq<Action>)
    decreases |run|
  {
    run == [] || (Enabled(s, run[0]) && Possible(Step(s, run[0]), run[1..]))
  }

  function Run(s: State, run: seq<Action>): State
    requires Possible(s, run)
    decreases |run|
  {
    if run == [] then s else Run(Step(s, run[0]), run[1..])
  }

  function Initial(objects: map<Repository, Listing>): State {
    State(objects, Cache([], map[]), map[], map[], {}, map[])
  }

  /** A change not yet followed by an invalidation is in flight. */
  ghost predicate InFlight(s: State, r: Repository) {
    exists t :: PcOf(s, t) == Changed(r)
  }

  ghost predicate StaleInFlight(s: State) {
    forall r | r in s.stale :: InFlight(s, r)
  }

  lemma StaleStaysInFlight(s: State, a: Action)
    requires Enabled(s, a) && StaleInFlight(s)
    ensures StaleInFlight(Step(s, a))
  {
    var z := Step(s, a);
    forall r | r in z.stale ensures InFlight(z, r) {
      if a.Change? && a.r == r {
        assert PcOf(z, a.t) == Changed(r);
      } else {
        var t :| PcOf(s, t) == Changed(r);
        assert PcOf(z, t) == Changed(r);
      }
    }
  }

  lemma {:induction false} RunKeepsInv(s: State, run: seq<Action>)
    requires Inv(s) && StaleInFlight(s) && Possible(s, run)
    ensures Inv(Run(s, run)) && StaleInFlight(Run(s, run))
    decreases |run|
  {
    hide Inv;
    hide StaleInFlight;
    hide Step;
    hide Enabled;
    if run != [] {
      StepKeepsInv(s, run[0]);
      StaleStaysInFlight(s, run[0]);
      RunKeepsInv(Step(s, run[0]), run[1..]);
    }
  }

  /**
   Freshness over whole runs, with any number of concurrent writers: a listing served from the cache has not expired,
   began after the last completed invalidation of its repository, and equals a fresh listing unless the repository
   changed since that invalidation; so it does whenever no change is in flight.
   */
  lemma ServedListingsAreFresh(objects: map<Repository, Listing>, run: seq<Action>, r: Repository, now: nat)
    requires Possible(Initial(objects), run)
    ensures var z := Run(Initial(objects), run);
      Served(z.cache, r, now).Some? && BumpsOf(z, r) < TWO_64 ==>
        && r in z.begun && z.begun[r] == BumpsOf(z, r)
        && (r !in z.stale ==> Served(z.cache, r, now).value == Fresh(z, r))
        && (!InFlight(z, r) ==> Served(z.cache, r, now).value == Fresh(z, r))
        && (exists e | e in z.cache.entries && e.0 == r :: now < e.1.expires)
  {
    RunKeepsInv(Initial(objects), run);
    var z := Run(Initial(objects), run);
    if Served(z.cache, r, now).Some? {
      var c := Lru.Find(z.cache.entries, r).value;
      assert (r, c) in z.cache.entries && EntryOk(z, (r, c)) && (r, c).0 == r;
    }
  }

  // ---- A listing that nothing disturbs ----

  /** The pages of a listing before the last. */
  function Pages(t: Task, pages: seq<set<Key>>): seq<Action> {
    seq(|pages|, i requires 0 <= i < |pages| => ReadPage(t, pages[i]))
  }

  lemma {:induction false} PagesCollect(s: State, t: Task, pages: seq<set<Key>>)
    requires PcOf(s, t).Loading? && PcOf(s, t).collected == Within(Fresh(s, PcOf(s, t).r), PcOf(s, t).covered)
    ensures Possible(s, Pages(t, pages))
    ensures var z := Run(s, Pages(t, pages));
      && PcOf(z, t).Loading? && PcOf(z, t).(covered := {}, collected := map[]) == PcOf(s, t).(covered := {}, collected := map[])
      && PcOf(z, t).collected == Within(Fresh(s, PcOf(s, t).r), PcOf(z, t).covered)
      && z.(pcs := s.pcs) == s
    decreases |pages|
  {
    if pages != [] {
      var pc := PcOf(s, t);
      var s1 := Step(s, ReadPage(t, pages[0]));
      PagesJoin(Fresh(s, pc.r), pc.covered, pages[0]);
      assert Pages(t, pages)[0] == ReadPage(t, pages[0]) && Pages(t, pages)[1..] == Pages(t, pages[1..]);
      hide Within;
      PagesCollect(s1, t, pages[1..]);
    }
  }

  lemma LastPageCompletes(s: State, t: Task)
    requires PcOf(s, t).Loading? && PcOf(s, t).collected == Within(Fresh(s, PcOf(s, t).r), PcOf(s, t).covered)
    ensures Enabled(s, ReadLastPage(t))
    ensures var z, pc := Step(s, ReadLastPage(t)), PcOf(s, t);
      PcOf(z, t) == Loaded(pc.r, pc.generation, pc.begun, Fresh(s, pc.r)) && z.(pcs := s.pcs) == s
  {
    PagesJoin(Fresh(s, PcOf(s, t).r), PcOf(s, t).covered, {});
  }

  lemma KeptIsServed(s: State, t: Task, now: nat, later: nat)
    requires Sound(s.cache) && PcOf(s, t).Loaded? && PcOf(s, t).generation == Generation(s.cache.generations, PcOf(s, t).r)
    ensures Enabled(s, Keep(t, now))
    ensures var z, pc := Step(s, Keep(t, now)), PcOf(s, t);
      Served(z.cache, pc.r, later) == (if later < now + 30_000 then Some(pc.items) else None)
  {
    var pc := PcOf(s, t);
    Lru.PutKeeps(s.cache.entries, CAPACITY, pc.r, Cached(pc.items, now + TTL));
    hide Lru.Put;
  }

  /** In the machine as in the method: a served listing stands first afterwards, and what could not be served is not kept. */
  lemma ServedStandsFirst(s: State, r: Repository, now: nat)
    requires Inv(s)
    ensures var z := Step(s, Serve(r, now));
      if Served(s.cache, r, now).Some? then z.cache.entries != [] && z.cache.entries[0].0 == r
      else forall e | e in z.cache.entries :: e.0 != r
  {
    hide EntryOk;
    hide PcOk;
    if Lru.Find(s.cache.entries, r).Some? {
      var i :| 0 <= i < |s.cache.entries| && s.cache.entries[i] == (r, Lru.Find(s.cache.entries, r).value);
      AfterGetFound(s.cache, r, now, i);
    } else {
      AfterGetMissing(s.cache, r, now);
    }
  }

  /** A change and its invalidation, in turn: the object is changed, no listing of the repository is kept, and older loads are out of date. */
  lemma UndisturbedChange(s: State, t: Task, r: Repository, key: Key, after: Option<Info>)
    requires Inv(s) && PcOf(s, t).Idle?
    ensures Enabled(s, Change(t, r, key, after)) && var s1 := Step(s, Change(t, r, key, after));
      && Enabled(s1, Change(t, r, key, after)) && Enabled(s1, Invalidate(t)) && var z := Step(s1, Invalidate(t));
      && Fresh(z, r) == (if after.Some? then Fresh(s, r)[key := after.value] else Fresh(s, r) - {key})
      && (forall q | q != r :: Fresh(z, q) == Fresh(s, q))
      && (forall e :: e in z.cache.entries <==> e in s.cache.entries && e.0 != r)
      && Generation(z.cache.generations, r) == (Generation(s.cache.generations, r) + 1) % TWO_64
      && PcOf(z, t).Idle?
  {
    hide EntryOk;
    hide PcOk;
  }

  /** A listing that fails is over and leaves the cache as it was. */
  lemma GivenUpListing(s: State, t: Task)
    requires PcOf(s, t).Loading?
    ensures Enabled(s, GiveUp(t)) && var z := Step(s, GiveUp(t)); PcOf(z, t).Idle? && z.cache == s.cache && forall u: Task | u != t :: PcOf(z, u) == PcOf(s, u)
  {
  }

  /** A listing during which nothing changes, however it is paged, is kept and served for 30 seconds from then, as it was. */
  lemma UndisturbedListingIsServed(s: State, t: Task, r: Repository, pages: seq<set<Key>>, now: nat, later: nat)
    requires Sound(s.cache) && PcOf(s, t).Idle?
    ensures var s1 := Step(s, BeginLoad(t, r));
      && Possible(s1, Pages(t, pages))
      && var s2 := Run(s1, Pages(t, pages));
      && Enabled(s2, ReadLastPage(t)) && Enabled(Step(s2, ReadLastPage(t)), Keep(t, now))
      && var z := Step(Step(s2, ReadLastPage(t)), Keep(t, now));
      Served(z.cache, r, later) == if later < now + 30_000 then Some(Fresh(s, r)) else None
  {
    var s1 := Step(s, BeginLoad(t, r));
    PagesJoin(Fresh(s, r), {}, {});
    PagesCollect(s1, t, pages);
    var s2 := Run(s1, Pages(t, pages));
    LastPageCompletes(s2, t);
    hide Run;
    hide Possible;
    KeptIsServed(Step(s2, ReadLastPage(t)), t, now, later);
  }
}
