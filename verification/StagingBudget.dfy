/**
 The shared disk budget of staged uploads: a semaphore of 1 MiB permits, the staging map whose entries hold
 permits, and the other holders of permits (an upload being seeded, a spooled chunk, a clone of an entry).
 A permit returns to the semaphore when its last holder lets go.
 */
module StagingBudget {
  import opened Basics

  type Path = string

  const MAX_STAGED_UPLOADS: nat := 64
  const MAX_STAGED_BYTES: nat := 64 * 1024 * 1_048_576
  /** `MAX_STAGED_BYTES / S3_UPLOAD_SPOOL_PERMIT_BYTES` */
  const TOTAL_PERMITS: nat := 64 * 1024
  /** 2 PiB: below it no cast of a unit count to u32 truncates. */
  const EXACT_CAST_BYTES: nat := 0x8_0000_0000_0000

  datatype Permit = Permit(id: nat, units: nat)

  datatype Staged = Staged(file: nat, size: nat, permits: seq<Permit>, reserved: nat)

  /** Permits held outside the map, the size they are for, and whether they were taken for it or cloned. */
  datatype Held = Held(size: nat, permits: seq<Permit>, own: bool)

  /** What an append in progress has added to its entry, under the upload's operation lock. */
  datatype Reservation = Reservation(amount: nat, units: nat)

  datatype Area = Area(
    available: nat,
    live: map<nat, nat>,
    staged: map<Path, Staged>,
    held: map<nat, Held>,
    appending: map<Path, Reservation>,
    nextPermit: nat)

  /** `as u32` */
  function Truncate32(n: nat): nat {
    n % TWO_32
  }

  /** `size.div_ceil(S3_UPLOAD_SPOOL_PERMIT_BYTES)` */
  function Units(size: nat): nat {
    DivCeil(size, 1_048_576)
  }

  /** The bytes that so many permits stand for. */
  function BytesOf(units: nat): nat {
    units * 1_048_576
  }

  function UnitsOf(ps: seq<Permit>): nat {
    if ps == [] then 0 else ps[0].units + UnitsOf(ps[1..])
  }

  function Ids(ps: seq<Permit>): set<nat> {
    set p | p in ps :: p.id
  }

  predicate InUse(a: Area, id: nat) {
    || (exists p | p in a.staged :: id in Ids(a.staged[p].permits))
    || (exists h | h in a.held :: id in Ids(a.held[h].permits))
  }

  /** The end of one handle: the permit goes back unless another handle is left. */
  function DropOne(a: Area, p: Permit): Area {
    if p.id in a.live && !InUse(a, p.id) then a.(available := a.available + a.live[p.id], live := a.live - {p.id}) else a
  }

  function DropAll(a: Area, ps: seq<Permit>): Area
    decreases |ps|
  {
    if ps == [] then a else DropAll(DropOne(a, ps[0]), ps[1..])
  }

  /** `try_acquire_many_owned` */
  function Take(a: Area, units: nat): Option<(Area, Permit)> {
    if units <= a.available then
      Some((a.(available := a.available - units, live := a.live[a.nextPermit := units], nextPermit := a.nextPermit + 1),
            Permit(a.nextPermit, units)))
    else None
  }

  /** The permits `ensure_staging` takes before it copies an object of this size, or a spooled chunk's. */
  function Hold(a: Area, h: nat, size: nat): Area {
    if h in a.held then a
    else if Units(size) == 0 then a.(held := a.held[h := Held(size, [], true)])
    else
      match Take(a, Truncate32(Units(size)))
      case None => a
      case Some((b, p)) => b.(held := b.held[h := Held(size, [p], true)])
  }

  function LetGo(a: Area, h: nat): Area {
    if h in a.held then DropAll(a.(held := a.held - {h}), a.held[h].permits) else a
  }

  datatype Decision = Ready | Existing | CapacityExceeded

  function Decide(a: Area, path: Path): Decision {
    if path in a.staged then Existing else if |a.staged| >= MAX_STAGED_UPLOADS then CapacityExceeded else Ready
  }

  /** The end of `ensure_staging`: publish the seeded file, or discard it. */
  function PublishStaging(a: Area, path: Path, h: nat, file: nat): Area {
    if h !in a.held then a
    else if Decide(a, path).Ready? then
      var Held(size, permits, _) := a.held[h];
      a.(held := a.held - {h}, staged := a.staged[path := Staged(file, size, permits, Units(size))])
    else LetGo(a, h)
  }

  /** `reserve_staged_size` */
  function Reserve(a: Area, path: Path, additional: nat): (Area, Option<nat>) {
    if path !in a.staged then (a, None)
    else
      var e := a.staged[path];
      var newSize := SatAdd(e.size, additional);
      var more := SatSub(Units(newSize), e.reserved);
      if more > 0 then
        match Take(a, Truncate32(more))
        case None => (a, None)
        case Some((b, p)) =>
          (b.(staged := b.staged[path := e.(size := newSize, permits := e.permits + [p], reserved := Units(newSize))]), Some(more))
      else
        (a.(staged := a.staged[path := e.(size := newSize)]), Some(0))
  }

  /** `release_staged_size` */
  function Release(a: Area, path: Path, amount: nat, units: nat): Area {
    if path !in a.staged then a
    else
      var e := a.staged[path];
      var e1 := e.(size := SatSub(e.size, amount));
      if units > 0 then
        var e2 := e1.(reserved := SatSub(e.reserved, units), permits := if e.permits == [] then [] else e.permits[..|e.permits| - 1]);
        var b := a.(staged := a.staged[path := e2]);
        if e.permits == [] then b else DropOne(b, e.permits[|e.permits| - 1])
      else a.(staged := a.staged[path := e1])
  }

  /** Removal of a staging entry: after a finalisation, a deletion or a clean-up. */
  function Unstage(a: Area, path: Path): Area {
    if path in a.staged then DropAll(a.(staged := a.staged - {path}), a.staged[path].permits) else a
  }

  /** `cloned()`: finalisation and reads keep the permits alive through a copy of the entry. */
  function Clone(a: Area, path: Path, h: nat): Area {
    if path in a.staged && h !in a.held then a.(held := a.held[h := Held(a.staged[path].size, a.staged[path].permits, false)]) else a
  }

  /** Every operation on the budget. Appends to one upload, and its removal, exclude each other by its lock. */
  datatype Op =
    | OpHold(h: nat, size: nat)
    | OpLetGo(h: nat)
    | OpPublish(path: Path, h: nat, file: nat)
    | OpReserve(path: Path, additional: nat)
    | OpCommit(path: Path)
    | OpRollBack(path: Path)
    | OpUnstage(path: Path)
    | OpClone(path: Path, h: nat)

  predicate Allowed(a: Area, op: Op) {
    match op
    case OpReserve(path, _) => path !in a.appending
    case OpCommit(path) => path in a.appending
    case OpRollBack(path) => path in a.appending
    case OpUnstage(path) => path !in a.appending
    // Only what was taken for the upload is published; a clone is let go.
    case OpPublish(path, h, _) => path !in a.appending && h in a.held && a.held[h].own
    case _ => true
  }

  function Apply(a: Area, op: Op): Area {
    match op
    case OpHold(h, size) => Hold(a, h, size)
    case OpLetGo(h) => LetGo(a, h)
    case OpPublish(path, h, file) => PublishStaging(a, path, h, file)
    case OpReserve(path, additional) =>
      var (b, r) := Reserve(a, path, additional);
      if r.Some? then b.(appending := b.appending[path := Reservation(additional, r.value)]) else b
    case OpCommit(path) => a.(appending := a.appending - {path})
    case OpRollBack(path) =>
      if path !in a.appending then a
      else Release(a, path, a.appending[path].amount, a.appending[path].units).(appending := a.appending - {path})
    case OpUnstage(path) => Unstage(a, path)
    case OpClone(path, h) => Clone(a, path, h)
  }

  /** The casts to u32 lose nothing: below 2 PiB a step, they never do. */
  predicate ExactCast(op: Op) {
    match op
    case OpHold(_, size) => size < EXACT_CAST_BYTES
    case OpReserve(_, additional) => additional < EXACT_CAST_BYTES
    case _ => true
  }

  // ---- The invariant ----

  ghost predicate HandlesLive(live: map<nat, nat>, ps: seq<Permit>) {
    forall p | p in ps :: p.id in live && live[p.id] == p.units
  }

  ghost predicate DistinctIds(ps: seq<Permit>) {
    forall i, j | 0 <= i < j < |ps| :: ps[i].id != ps[j].id
  }

  /** An entry holds what it says it holds, and that covers its size. */
  ghost predicate Backed(e: Staged) {
    e.reserved == UnitsOf(e.permits) && e.size <= BytesOf(e.reserved) && DistinctIds(e.permits)
  }

  ghost predicate EntriesBacked(live: map<nat, nat>, staged: map<Path, Staged>) {
    && (forall p | p in staged :: Backed(staged[p]) && HandlesLive(live, staged[p].permits))
    && (forall p, q | p in staged && q in staged && p != q :: Ids(staged[p].permits) !! Ids(staged[q].permits))
  }

  /** An append in progress can be undone: its permit is the last one, and what was there before stays covered. */
  ghost predicate Undoable(e: Staged, r: Reservation) {
    && r.amount <= e.size
    && (r.units == 0 ==> e.size <= BytesOf(e.reserved))
    && (r.units > 0 ==>
          && e.permits != [] && e.permits[|e.permits| - 1].units == r.units <= e.reserved
          && e.size - r.amount <= BytesOf(e.reserved - r.units))
  }

  /** Permits taken for an upload are its own until it is published. */
  ghost predicate OwnPermits(a: Area, h: nat)
    requires h in a.held
  {
    var d := a.held[h];
    && d.size < EXACT_CAST_BYTES
    && (d.own ==>
          && UnitsOf(d.permits) == Units(d.size) && DistinctIds(d.permits)
          && (forall p | p in a.staged :: Ids(a.staged[p].permits) !! Ids(d.permits))
          && (forall g | g in a.held && g != h :: Ids(a.held[g].permits) !! Ids(d.permits)))
  }

  ghost predicate HoldersOk(a: Area) {
    forall h | h in a.held :: HandlesLive(a.live, a.held[h].permits) && OwnPermits(a, h)
  }

  ghost predicate Inv(a: Area) {
    && a.available + MapSum(a.live) == TOTAL_PERMITS
    && EntriesBacked(a.live, a.staged)
    && HoldersOk(a)
    && (forall id | id in a.live :: id < a.nextPermit && InUse(a, id))
    && |a.staged| <= MAX_STAGED_UPLOADS
    && (forall p | p in a.appending :: p in a.staged && Undoable(a.staged[p], a.appending[p]))
  }

  // ---- Sums of units ----

  lemma {:induction false} UnitsOfPush(ps: seq<Permit>, p: Permit)
    ensures UnitsOf(ps + [p]) == UnitsOf(ps) + p.units
  {
    if ps == [] {
      assert [] + [p] == [p];
      assert UnitsOf([p]) == p.units + UnitsOf([]);
    } else {
      assert (ps + [p])[1..] == ps[1..] + [p];
      UnitsOfPush(ps[1..], p);
    }
  }

  lemma UnitsOfPop(ps: seq<Permit>)
    requires ps != []
    ensures UnitsOf(ps) == UnitsOf(ps[..|ps| - 1]) + ps[|ps| - 1].units
  {
    assert ps == ps[..|ps| - 1] + [ps[|ps| - 1]];
    UnitsOfPush(ps[..|ps| - 1], ps[|ps| - 1]);
  }

  /** Distinct live permits account for their units among all live ones. */
  lemma {:induction false} UnitsWithinLive(live: map<nat, nat>, ps: seq<Permit>)
    requires DistinctIds(ps) && HandlesLive(live, ps)
    ensures MapSum(live) == UnitsOf(ps) + MapSum(live - Ids(ps))
    decreases |ps|
  {
    if ps == [] {
      assert Ids(ps) == {} && live - {} == live;
    } else {
      var t := ps[1..];
      var rest := live - {ps[0].id};
      assert ps[0] in ps;
      MapSumRemove(live, ps[0].id);
      TailLive(live, ps);
      IdsCons(ps[0], t);
      assert ps == [ps[0]] + t;
      hide DistinctIds;
      hide HandlesLive;
      hide Ids;
      UnitsWithinLive(rest, t);
      assert live - Ids(ps) == rest - Ids(t);
    }
  }

  lemma TailLive(live: map<nat, nat>, ps: seq<Permit>)
    requires DistinctIds(ps) && HandlesLive(live, ps) && ps != []
    ensures DistinctIds(ps[1..]) && HandlesLive(live - {ps[0].id}, ps[1..])
  {
    var t := ps[1..];
    assert forall i | 0 <= i < |t| :: t[i] == ps[i + 1];
    forall p | p in t ensures p in ps && p.id != ps[0].id {
      var i :| 0 <= i < |t| && t[i] == p;
      assert ps[i + 1] == p;
    }
  }

  lemma IdsCons(p: Permit, t: seq<Permit>)
    ensures Ids([p] + t) == {p.id} + Ids(t)
  {
    assert forall q :: q in [p] + t <==> q == p || q in t;
  }

  lemma IdsPush(t: seq<Permit>, p: Permit)
    ensures Ids(t + [p]) == Ids(t) + {p.id}
  {
    assert forall q :: q in t + [p] <==> q == p || q in t;
  }

  ghost function Sizes(staged: map<Path, Staged>): map<Path, nat> {
    map p | p in staged :: staged[p].size
  }

  /** Without one entry and its permits, the others are as well backed as before. */
  lemma OthersStayBacked(live: map<nat, nat>, staged: map<Path, Staged>, p: Path)
    requires EntriesBacked(live, staged) && p in staged
    ensures EntriesBacked(live - Ids(staged[p].permits), staged - {p})
  {
    hide Backed;
    var live', rest := live - Ids(staged[p].permits), staged - {p};
    forall q | q in rest ensures Backed(rest[q]) && HandlesLive(live', rest[q].permits) {
      assert Ids(staged[p].permits) !! Ids(staged[q].permits);
      forall x | x in rest[q].permits ensures x.id in live' && live'[x.id] == x.units {
        assert x.id in Ids(rest[q].permits);
        assert HandlesLive(live, staged[q].permits);
      }
    }
  }

  lemma SizesStep(live: map<nat, nat>, staged: map<Path, Staged>, p: Path)
    requires EntriesBacked(live, staged) && p in staged
    ensures MapSum(Sizes(staged)) == staged[p].size + MapSum(Sizes(staged - {p}))
    ensures MapSum(live - Ids(staged[p].permits)) <= MapSum(live)
    ensures staged[p].size <= BytesOf(MapSum(live) - MapSum(live - Ids(staged[p].permits)))
  {
    assert Backed(staged[p]) && HandlesLive(live, staged[p].permits);
    hide EntriesBacked;
    UnitsWithinLive(live, staged[p].permits);
    hide HandlesLive;
    hide Ids;
    MapSumRemove(Sizes(staged), p);
    assert Sizes(staged) - {p} == Sizes(staged - {p});
  }

  lemma AddUp(sum: nat, one: nat, rest: nat, n: nat, m: nat)
    requires m <= n && sum == one + rest && one <= BytesOf(n - m) && rest <= BytesOf(m)
    ensures sum <= BytesOf(n)
  {
  }

  /** The staged sizes together stay within the permits out on loan. */
  lemma {:induction false} SizesWithinPermits(live: map<nat, nat>, staged: map<Path, Staged>)
    requires EntriesBacked(live, staged)
    ensures MapSum(Sizes(staged)) <= BytesOf(MapSum(live))
    decreases |staged|
  {
    hide EntriesBacked;
    hide Ids;
    hide Sizes;
    if staged == map[] {
      NoSizes();
    } else {
      hide MapSum;
      hide BytesOf;
      var p :| p in staged;
      var live', rest := live - Ids(staged[p].permits), staged - {p};
      OthersStayBacked(live, staged, p);
      SizesStep(live, staged, p);
      SizesWithinPermits(live', rest);
      AddUp(MapSum(Sizes(staged)), staged[p].size, MapSum(Sizes(rest)), MapSum(live), MapSum(live'));
    }
  }

  lemma NoSizes()
    ensures MapSum(Sizes(map[])) == 0
  {
    assert Sizes(map[]) == map[];
  }

  // ---- Keeping the invariant ----

  /** The invariant while some permits wait to be dropped. */
  ghost predicate InvBut(a: Area, ids: set<nat>) {
    && a.available + MapSum(a.live) == TOTAL_PERMITS
    && EntriesBacked(a.live, a.staged)
    && HoldersOk(a)
    && (forall id | id in a.live :: id < a.nextPermit && (id !in ids ==> InUse(a, id)))
    && |a.staged| <= MAX_STAGED_UPLOADS
    && (forall p | p in a.appending :: p in a.staged && Undoable(a.staged[p], a.appending[p]))
  }

  lemma UnusedDropKeepsEntries(live: map<nat, nat>, staged: map<Path, Staged>, id: nat)
    requires EntriesBacked(live, staged) && forall q | q in staged :: id !in Ids(staged[q].permits)
    ensures EntriesBacked(live - {id}, staged)
  {
    hide Backed;
    forall q | q in staged ensures HandlesLive(live - {id}, staged[q].permits) {
      assert HandlesLive(live, staged[q].permits);
      assert forall x | x in staged[q].permits :: x.id in Ids(staged[q].permits);
    }
  }

  lemma UnusedDropKeepsHolders(a: Area, b: Area, id: nat)
    requires HoldersOk(a) && forall h | h in a.held :: id !in Ids(a.held[h].permits)
    requires b.live == a.live - {id} && b.held == a.held && b.staged == a.staged
    ensures HoldersOk(b)
  {
    hide Units;
    forall h | h in b.held ensures HandlesLive(b.live, b.held[h].permits) && OwnPermits(b, h) {
      assert HandlesLive(a.live, a.held[h].permits) && OwnPermits(a, h);
      assert forall x | x in a.held[h].permits :: x.id in Ids(a.held[h].permits);
    }
  }

  lemma DropOneKeeps(a: Area, p: Permit, ids: set<nat>)
    requires InvBut(a, ids)
    ensures InvBut(DropOne(a, p), ids - {p.id})
    ensures DropOne(a, p).staged == a.staged && DropOne(a, p).held == a.held && DropOne(a, p).appending == a.appending
  {
    hide EntriesBacked;
    hide HoldersOk;
    hide Undoable;
    hide Ids;
    hide MapSum;
    var b := DropOne(a, p);
    if p.id in a.live && !InUse(a, p.id) {
      MapSumRemove(a.live, p.id);
      UnusedDropKeepsEntries(a.live, a.staged, p.id);
      UnusedDropKeepsHolders(a, b, p.id);
    }
    forall id ensures InUse(b, id) <==> InUse(a, id) {
      SameHandles(a, b, id);
    }
    hide InUse;
  }

  lemma {:induction false} DropAllKeeps(a: Area, ps: seq<Permit>, ids: set<nat>)
    requires InvBut(a, ids) && ids <= Ids(ps)
    ensures Inv(DropAll(a, ps))
    ensures DropAll(a, ps).staged == a.staged && DropAll(a, ps).held == a.held && DropAll(a, ps).appending == a.appending
    decreases |ps|
  {
    hide HoldersOk;
    hide EntriesBacked;
    hide Undoable;
    hide DropOne;
    if ps != [] {
      DropOneKeeps(a, ps[0], ids);
      IdsCons(ps[0], ps[1..]);
      assert ps == [ps[0]] + ps[1..];
      DropAllKeeps(DropOne(a, ps[0]), ps[1..], ids - {ps[0].id});
    }
  }

  /** Taking permits moves units from the semaphore to a fresh permit, of which nobody has a handle yet. */
  lemma TakeKeeps(a: Area, units: nat)
    requires Inv(a) && Take(a, units).Some?
    ensures var (b, p) := Take(a, units).value;
      && InvBut(b, {p.id}) && p.units == units && p.id in b.live && b.live[p.id] == units
      && b.staged == a.staged && b.held == a.held && b.appending == a.appending
      && (forall q | q in b.staged :: p.id !in Ids(b.staged[q].permits))
      && (forall h | h in b.held :: p.id !in Ids(b.held[h].permits))
  {
    hide Undoable;
    hide EntriesBacked;
    hide HoldersOk;
    hide InUse;
    hide Ids;
    hide MapSum;
    var (b, p) := Take(a, units).value;
    MapSumInsert(a.live, p.id, units);
    FreshIdKeepsEntries(a.live, a.staged, p.id, units);
    FreshIdKeepsHolders(a, b, p.id, units);
    forall id ensures InUse(b, id) <==> InUse(a, id) {
      SameHandles(a, b, id);
    }
  }

  lemma SameHandles(a: Area, b: Area, id: nat)
    requires a.staged == b.staged && a.held == b.held
    ensures InUse(b, id) <==> InUse(a, id)
  {
  }

  lemma FreshIdKeepsEntries(live: map<nat, nat>, staged: map<Path, Staged>, id: nat, units: nat)
    requires EntriesBacked(live, staged) && id !in live
    ensures EntriesBacked(live[id := units], staged)
    ensures forall q | q in staged :: id !in Ids(staged[q].permits)
  {
    hide Backed;
    forall q | q in staged
      ensures HandlesLive(live[id := units], staged[q].permits) && id !in Ids(staged[q].permits) && Backed(staged[q])
    {
      assert HandlesLive(live, staged[q].permits);
    }
  }

  lemma FreshIdKeepsHolders(a: Area, b: Area, id: nat, units: nat)
    requires HoldersOk(a) && id !in a.live && b.live == a.live[id := units] && b.held == a.held && b.staged == a.staged
    ensures HoldersOk(b)
    ensures forall h | h in b.held :: id !in Ids(b.held[h].permits)
  {
    hide Units;
    forall h | h in b.held
      ensures HandlesLive(b.live, b.held[h].permits) && OwnPermits(b, h) && id !in Ids(b.held[h].permits)
    {
      assert HandlesLive(a.live, a.held[h].permits) && OwnPermits(a, h);
    }
  }

  lemma TruncationExact(n: nat)
    requires n < EXACT_CAST_BYTES + MAX_STAGED_BYTES
    ensures Truncate32(Units(n)) == Units(n) && n <= BytesOf(Units(n))
    ensures Units(n) == 0 <==> n == 0
  {
    DivCeilIsLeast(n, 1_048_576);
    assert Units(n) * 1_048_576 < TWO_32 * 1_048_576;
  }

  lemma HoldKeeps(a: Area, h: nat, size: nat)
    requires Inv(a) && size < EXACT_CAST_BYTES
    ensures Inv(Hold(a, h, size))
  {
    TruncationExact(size);
    hide Units;
    hide BytesOf;
    if h !in a.held {
      if Units(size) == 0 {
        assert UnitsOf([]) == 0;
        HeldAdded(a, a, h, Held(size, [], true), {});
      } else if Take(a, Units(size)).Some? {
        TakeKeeps(a, Units(size));
        var (b, p) := Take(a, Units(size)).value;
        assert UnitsOf([p]) == p.units + UnitsOf([]) by { assert [p][1..] == []; }
        assert Ids([p]) == {p.id} by { IdsCons(p, []); assert [p] + [] == [p]; }
        HeldAdded(a, b, h, Held(size, [p], true), {p.id});
      }
    }
  }

  /** A new holder takes over the permits nobody has a handle of. */
  lemma HeldAdded(a: Area, b: Area, h: nat, d: Held, ids: set<nat>)
    requires InvBut(b, ids) && h !in b.held && d.size < EXACT_CAST_BYTES && ids <= Ids(d.permits)
    requires HandlesLive(b.live, d.permits)
    requires d.own ==>
      && UnitsOf(d.permits) == Units(d.size) && DistinctIds(d.permits)
      && (forall q | q in b.staged :: Ids(b.staged[q].permits) !! Ids(d.permits))
      && (forall g | g in b.held :: Ids(b.held[g].permits) !! Ids(d.permits))
    requires forall g | g in b.held && b.held[g].own :: Ids(b.held[g].permits) !! Ids(d.permits)
    ensures Inv(b.(held := b.held[h := d]))
  {
    hide Units;
    hide BytesOf;
    var c := b.(held := b.held[h := d]);
    forall g | g in c.held ensures HandlesLive(c.live, c.held[g].permits) && OwnPermits(c, g) {
      if g != h {
        assert HandlesLive(b.live, b.held[g].permits) && OwnPermits(b, g);
      }
    }
    forall id | id in c.live ensures InUse(c, id) {
      if id in ids {
        assert id in Ids(c.held[h].permits);
      } else {
        assert InUse(b, id);
        if q :| q in b.staged && id in Ids(b.staged[q].permits) {
          assert q in c.staged;
        } else {
          var g :| g in b.held && id in Ids(b.held[g].permits);
          assert c.held[g] == b.held[g];
        }
      }
    }
  }

  /** A holder, or an entry, is gone, and its permits wait to be dropped. */
  lemma HolderGone(a: Area, b: Area, ids: set<nat>)
    requires Inv(a)
    requires b.available == a.available && b.live == a.live && b.nextPermit == a.nextPermit && b.appending == a.appending
    requires forall q | q in b.staged :: q in a.staged && b.staged[q] == a.staged[q]
    requires forall g | g in b.held :: g in a.held && b.held[g] == a.held[g]
    requires forall q | q in a.staged && q !in b.staged :: q !in a.appending && Ids(a.staged[q].permits) <= ids
    requires forall g | g in a.held && g !in b.held :: Ids(a.held[g].permits) <= ids
    requires |b.staged| <= |a.staged|
    ensures InvBut(b, ids)
  {
    hide MapSum;
    hide Undoable;
    hide HoldersOk;
    hide EntriesBacked;
    hide Ids;
    hide InUse;
    FewerEntries(a, b);
    FewerHolders(a, b);
    FewerUses(a, b, ids);
  }

  lemma FewerUses(a: Area, b: Area, ids: set<nat>)
    requires forall q | q in b.staged :: q in a.staged && b.staged[q] == a.staged[q]
    requires forall g | g in b.held :: g in a.held && b.held[g] == a.held[g]
    requires forall q | q in a.staged && q !in b.staged :: Ids(a.staged[q].permits) <= ids
    requires forall g | g in a.held && g !in b.held :: Ids(a.held[g].permits) <= ids
    ensures forall id | InUse(a, id) && id !in ids :: InUse(b, id)
  {
    hide Ids;
    forall id | InUse(a, id) && id !in ids ensures InUse(b, id) {
      if q :| q in a.staged && id in Ids(a.staged[q].permits) {
        assert q in b.staged;
      } else {
        var g :| g in a.held && id in Ids(a.held[g].permits);
        assert g in b.held;
      }
    }
  }

  lemma FewerEntries(a: Area, b: Area)
    requires EntriesBacked(a.live, a.staged) && b.live == a.live
    requires forall q | q in b.staged :: q in a.staged && b.staged[q] == a.staged[q]
    ensures EntriesBacked(b.live, b.staged)
  {
    hide Backed;
    hide HandlesLive;
    hide Ids;
  }

  lemma FewerHolders(a: Area, b: Area)
    requires HoldersOk(a) && b.live == a.live
    requires forall q | q in b.staged :: q in a.staged && b.staged[q] == a.staged[q]
    requires forall g | g in b.held :: g in a.held && b.held[g] == a.held[g]
    ensures HoldersOk(b)
  {
    hide Units;
    hide HandlesLive;
    hide Ids;
    forall g | g in b.held ensures HandlesLive(b.live, b.held[g].permits) && OwnPermits(b, g) {
      assert HandlesLive(a.live, a.held[g].permits) && OwnPermits(a, g);
    }
  }

  lemma LetGoKeeps(a: Area, h: nat)
    requires Inv(a)
    ensures Inv(LetGo(a, h))
    ensures LetGo(a, h).staged == a.staged && LetGo(a, h).appending == a.appending
  {
    hide Inv;
    hide InvBut;
    hide DropAll;
    hide Ids;
    if h in a.held {
      var b := a.(held := a.held - {h});
      HolderGone(a, b, Ids(a.held[h].permits));
      DropAllKeeps(b, a.held[h].permits, Ids(a.held[h].permits));
    }
  }

  lemma UnstageKeeps(a: Area, path: Path)
    requires Inv(a) && path !in a.appending
    ensures Inv(Unstage(a, path))
  {
    hide Inv;
    hide InvBut;
    hide DropAll;
    hide Ids;
    if path in a.staged {
      var b := a.(staged := a.staged - {path});
      HolderGone(a, b, Ids(a.staged[path].permits));
      DropAllKeeps(b, a.staged[path].permits, Ids(a.staged[path].permits));
    }
  }

  lemma CloneKeeps(a: Area, path: Path, h: nat)
    requires Inv(a)
    ensures Inv(Clone(a, path, h))
  {
    hide Units;
    if path in a.staged && h !in a.held {
      var e := a.staged[path];
      assert Backed(e);
      UnitsWithinLive(a.live, e.permits);
      forall g | g in a.held && a.held[g].own ensures Ids(a.held[g].permits) !! Ids(e.permits) {
        assert OwnPermits(a, g);
      }
      HeldAdded(a, a, h, Held(e.size, e.permits, false), {});
    }
  }

  lemma PublishKeeps(a: Area, path: Path, h: nat, file: nat)
    requires Inv(a) && Allowed(a, OpPublish(path, h, file))
    ensures Inv(PublishStaging(a, path, h, file))
  {
    hide Units;
    hide BytesOf;
    if Decide(a, path).Ready? {
      PublishReadyKeeps(a, path, h, file);
    } else {
      LetGoKeeps(a, h);
    }
  }

  lemma PublishIs(a: Area, path: Path, h: nat, file: nat)
    requires h in a.held && path !in a.staged && |a.staged| < MAX_STAGED_UPLOADS
    ensures var d := a.held[h];
      var c := PublishStaging(a, path, h, file);
      && c.available == a.available && c.live == a.live && c.nextPermit == a.nextPermit && c.appending == a.appending
      && c.held == a.held - {h} && c.staged == a.staged[path := Staged(file, d.size, d.permits, Units(d.size))]
      && c.staged.Keys == a.staged.Keys + {path} && |c.staged| <= MAX_STAGED_UPLOADS
  {
    hide Units;
    var c := PublishStaging(a, path, h, file);
    assert c.staged.Keys == a.staged.Keys + {path};
    assert |c.staged.Keys| == |a.staged.Keys| + 1;
  }

  lemma PublishBacked(a: Area, h: nat, file: nat)
    requires HoldersOk(a) && h in a.held && a.held[h].own
    ensures var d := a.held[h];
      && Backed(Staged(file, d.size, d.permits, Units(d.size))) && HandlesLive(a.live, d.permits)
      && (forall p | p in a.staged :: Ids(a.staged[p].permits) !! Ids(d.permits))
  {
    hide Ids;
    assert OwnPermits(a, h) && HandlesLive(a.live, a.held[h].permits);
    hide HandlesLive;
    hide HoldersOk;
    TruncationExact(a.held[h].size);
  }

  lemma InvParts(a: Area)
    requires Inv(a)
    ensures HoldersOk(a) && EntriesBacked(a.live, a.staged)
  {
  }

  lemma PublishReadyKeeps(a: Area, path: Path, h: nat, file: nat)
    requires Inv(a) && h in a.held && a.held[h].own && path !in a.staged && |a.staged| < MAX_STAGED_UPLOADS
    ensures Inv(PublishStaging(a, path, h, file))
  {
    hide *;
    InvParts(a);
    PublishIs(a, path, h, file);
    PublishBacked(a, h, file);
    var c := PublishStaging(a, path, h, file);
    var e := c.staged[path];
    assert a.staged[path := e] == c.staged;
    HoldersMinusOne(a, c, path, h);
    HandleMoved(a, c, path, h);
    EntryAdded(a.live, a.staged, path, e);
    HandlesMovedOnly(a, c);
  }

  /** The same permits are out, everyone who holds some is in order, and nothing happened to the appends in progress. */
  lemma HandlesMovedOnly(a: Area, c: Area)
    requires Inv(a)
    requires c.available == a.available && c.live == a.live && c.nextPermit == a.nextPermit && c.appending == a.appending
    requires EntriesBacked(c.live, c.staged) && HoldersOk(c) && |c.staged| <= MAX_STAGED_UPLOADS
    requires forall id | InUse(a, id) :: InUse(c, id)
    requires forall p | p in a.staged :: p in c.staged && c.staged[p] == a.staged[p]
    ensures Inv(c)
  {
    hide Undoable;
    hide EntriesBacked;
    hide HoldersOk;
    hide InUse;
    hide MapSum;
  }

  lemma HoldersMinusOne(a: Area, c: Area, path: Path, h: nat)
    requires HoldersOk(a) && h in a.held && a.held[h].own && c.live == a.live && c.held == a.held - {h}
    requires c.staged.Keys == a.staged.Keys + {path} && path in c.staged && c.staged[path].permits == a.held[h].permits
    requires forall q | q in a.staged && q != path :: c.staged[q] == a.staged[q]
    ensures HoldersOk(c)
  {
    hide Units;
    hide Ids;
    hide HandlesLive;
    forall g | g in c.held ensures HandlesLive(c.live, c.held[g].permits) && OwnPermits(c, g) {
      assert HandlesLive(a.live, a.held[g].permits) && OwnPermits(a, g) && OwnPermits(a, h);
    }
  }

  lemma EntryAdded(live: map<nat, nat>, staged: map<Path, Staged>, path: Path, e: Staged)
    requires EntriesBacked(live, staged) && path !in staged && Backed(e) && HandlesLive(live, e.permits)
    requires forall p | p in staged :: Ids(staged[p].permits) !! Ids(e.permits)
    ensures EntriesBacked(live, staged[path := e])
  {
    hide Backed;
    hide HandlesLive;
    hide Ids;
  }

  /** The permits of the published upload are in use by its entry now. */
  lemma HandleMoved(a: Area, c: Area, path: Path, h: nat)
    requires h in a.held && path !in a.staged && path in c.staged && c.staged[path].permits == a.held[h].permits
    requires forall q | q in a.staged :: q in c.staged && c.staged[q] == a.staged[q]
    requires forall g | g in a.held && g != h :: g in c.held && c.held[g] == a.held[g]
    ensures forall id | InUse(a, id) :: InUse(c, id)
  {
    forall id | InUse(a, id) ensures InUse(c, id) {
      if q :| q in a.staged && id in Ids(a.staged[q].permits) {
        assert c.staged[q] == a.staged[q];
      } else {
        var g :| g in a.held && id in Ids(a.held[g].permits);
        assert if g == h then id in Ids(c.staged[path].permits) else id in Ids(c.held[g].permits);
      }
    }
  }

  // ---- Reserving and rolling back ----

  lemma StagedIsSmall(a: Area, path: Path)
    requires Inv(a) && path in a.staged
    ensures a.staged[path].size <= MAX_STAGED_BYTES && a.staged[path].reserved <= TOTAL_PERMITS
    ensures Backed(a.staged[path]) && HandlesLive(a.live, a.staged[path].permits)
  {
    assert Backed(a.staged[path]) && HandlesLive(a.live, a.staged[path].permits);
    UnitsWithinLive(a.live, a.staged[path].permits);
  }

  lemma PushedIsBacked(e: Staged, p: Permit, size: nat)
    requires Backed(e) && p.id !in Ids(e.permits) && size <= BytesOf(e.reserved + p.units)
    ensures Backed(e.(size := size, permits := e.permits + [p], reserved := e.reserved + p.units))
  {
    UnitsOfPush(e.permits, p);
    forall i | 0 <= i < |e.permits| ensures e.permits[i].id != p.id {
      assert e.permits[i] in e.permits;
    }
  }

  /** One entry of the map changes; its permits are what they were, and perhaps `extra`, or perhaps fewer. */
  lemma EntryChanged(live: map<nat, nat>, staged: map<Path, Staged>, path: Path, e: Staged, extra: set<nat>)
    requires EntriesBacked(live, staged) && path in staged && Backed(e) && HandlesLive(live, e.permits)
    requires Ids(e.permits) <= Ids(staged[path].permits) + extra
    requires forall q | q in staged :: Ids(staged[q].permits) !! extra
    ensures EntriesBacked(live, staged[path := e])
  {
    hide Backed;
    hide HandlesLive;
    hide Ids;
    var s' := staged[path := e];
    forall p, q | p in s' && q in s' && p != q ensures Ids(s'[p].permits) !! Ids(s'[q].permits) {
      assert Ids(staged[p].permits) !! Ids(staged[q].permits);
    }
  }

  lemma HoldersSeeEntryChange(a: Area, c: Area, path: Path, extra: set<nat>)
    requires HoldersOk(a) && c.live == a.live && c.held == a.held
    requires path in a.staged && path in c.staged && c.staged == a.staged[path := c.staged[path]]
    requires Ids(c.staged[path].permits) <= Ids(a.staged[path].permits) + extra
    requires forall h | h in a.held :: Ids(a.held[h].permits) !! extra
    ensures HoldersOk(c)
  {
    hide Units;
    hide Ids;
    hide HandlesLive;
    forall h | h in c.held ensures HandlesLive(c.live, c.held[h].permits) && OwnPermits(c, h) {
      assert HandlesLive(a.live, a.held[h].permits) && OwnPermits(a, h);
      assert Ids(a.staged[path].permits) !! Ids(a.held[h].permits) || !a.held[h].own;
    }
  }

  lemma UsesSeeEntryChange(a: Area, c: Area, path: Path, extra: set<nat>, gone: set<nat>)
    requires path in a.staged && c.held == a.held && path in c.staged && c.staged == a.staged[path := c.staged[path]]
    requires Ids(a.staged[path].permits) + extra <= Ids(c.staged[path].permits) + gone
    ensures forall id | (InUse(a, id) || id in extra) && id !in gone :: InUse(c, id)
  {
    hide Ids;
    forall id | (InUse(a, id) || id in extra) && id !in gone ensures InUse(c, id) {
      if id in Ids(c.staged[path].permits) {
        assert path in c.staged;
      } else if q :| q in a.staged && id in Ids(a.staged[q].permits) {
        assert q in c.staged && q != path && c.staged[q] == a.staged[q];
      }
    }
  }

  lemma AppendingSees(a: Area, c: Area, path: Path)
    requires forall p | p in a.appending :: p in a.staged && Undoable(a.staged[p], a.appending[p])
    requires path in a.staged && path in c.staged && c.staged == a.staged[path := c.staged[path]]
    requires forall p | p in c.appending && p != path :: p in a.appending && c.appending[p] == a.appending[p]
    requires path in c.appending ==> Undoable(c.staged[path], c.appending[path])
    ensures forall p | p in c.appending :: p in c.staged && Undoable(c.staged[p], c.appending[p])
  {
    hide Undoable;
  }

  /**
   One entry changes. `extra` are the permits waiting for a handle before the change, `gone` those waiting to be
   dropped after it.
   */
  lemma EntryUpdateKeeps(a: Area, c: Area, path: Path, extra: set<nat>, gone: set<nat>)
    requires InvBut(a, extra)
    requires c.available == a.available && c.live == a.live && c.held == a.held && c.nextPermit == a.nextPermit
    requires path in a.staged && path in c.staged && c.staged == a.staged[path := c.staged[path]]
    requires Backed(c.staged[path]) && HandlesLive(a.live, c.staged[path].permits)
    requires Ids(c.staged[path].permits) <= Ids(a.staged[path].permits) + extra
    requires Ids(a.staged[path].permits) + extra <= Ids(c.staged[path].permits) + gone
    requires forall q | q in a.staged :: Ids(a.staged[q].permits) !! extra
    requires forall h | h in a.held :: Ids(a.held[h].permits) !! extra
    requires forall p | p in c.appending && p != path :: p in a.appending && c.appending[p] == a.appending[p]
    requires path in c.appending ==> Undoable(c.staged[path], c.appending[path])
    ensures InvBut(c, gone)
  {
    hide Backed;
    hide Undoable;
    hide EntriesBacked;
    hide HoldersOk;
    hide InUse;
    hide Ids;
    hide MapSum;
    hide HandlesLive;
    assert c.staged.Keys == a.staged.Keys;
    HoldersSeeEntryChange(a, c, path, extra);
    UsesSeeEntryChange(a, c, path, extra, gone);
    EntryChanged(a.live, a.staged, path, c.staged[path], extra);
    AppendingSees(a, c, path);
  }

  lemma ReserveMoreFacts(b: Area, e: Staged, p: Permit, size: nat, amount: nat)
    requires Backed(e) && HandlesLive(b.live, e.permits) && p.id !in Ids(e.permits)
    requires p.id in b.live && b.live[p.id] == p.units > 0
    requires size == e.size + amount <= BytesOf(e.reserved + p.units)
    ensures var e' := e.(size := size, permits := e.permits + [p], reserved := e.reserved + p.units);
      && Backed(e') && HandlesLive(b.live, e'.permits) && Ids(e'.permits) == Ids(e.permits) + {p.id}
      && Undoable(e', Reservation(amount, p.units))
  {
    PushedIsBacked(e, p, size);
    IdsPush(e.permits, p);
    hide UnitsOf;
    hide Ids;
  }

  lemma ReserveMoreKeeps(b: Area, path: Path, p: Permit, size: nat, amount: nat)
    requires InvBut(b, {p.id}) && path in b.staged && path !in b.appending
    requires Backed(b.staged[path]) && HandlesLive(b.live, b.staged[path].permits)
    requires p.id in b.live && b.live[p.id] == p.units > 0
    requires forall q | q in b.staged :: p.id !in Ids(b.staged[q].permits)
    requires forall h | h in b.held :: p.id !in Ids(b.held[h].permits)
    requires size == b.staged[path].size + amount <= BytesOf(b.staged[path].reserved + p.units)
    ensures var e := b.staged[path];
      InvBut(b.(staged := b.staged[path := e.(size := size, permits := e.permits + [p], reserved := e.reserved + p.units)],
                appending := b.appending[path := Reservation(amount, p.units)]), {})
  {
    hide Backed;
    hide Undoable;
    hide InvBut;
    hide Ids;
    hide HandlesLive;
    hide BytesOf;
    var e := b.staged[path];
    ReserveMoreFacts(b, e, p, size, amount);
    var e' := e.(size := size, permits := e.permits + [p], reserved := e.reserved + p.units);
    var c := b.(staged := b.staged[path := e'], appending := b.appending[path := Reservation(amount, p.units)]);
    assert c.staged == b.staged[path := c.staged[path]];
    EntryUpdateKeeps(b, c, path, {p.id}, {});
  }

  /** Only the size of an entry changes, within what it has reserved. */
  lemma SameSizeClass(a: Area, path: Path, e: Staged, r: Option<Reservation>)
    requires InvBut(a, {}) && path in a.staged && Backed(e) && e.permits == a.staged[path].permits
    requires HandlesLive(a.live, e.permits)
    requires r.Some? ==> Undoable(e, r.value)
    ensures InvBut(a.(staged := a.staged[path := e],
                      appending := if r.Some? then a.appending[path := r.value] else a.appending - {path}), {})
  {
    hide Backed;
    hide Undoable;
    hide InvBut;
    hide Ids;
    hide HandlesLive;
    var c := a.(staged := a.staged[path := e], appending := if r.Some? then a.appending[path := r.value] else a.appending - {path});
    assert c.staged == a.staged[path := c.staged[path]];
    EntryUpdateKeeps(a, c, path, {}, {});
  }

  lemma SettledIsInv(a: Area)
    ensures InvBut(a, {}) <==> Inv(a)
  {
    hide Undoable;
    hide EntriesBacked;
    hide HoldersOk;
    hide InUse;
    hide MapSum;
  }

  lemma ReserveNumbers(e: Staged, additional: nat)
    requires Backed(e) && e.size <= MAX_STAGED_BYTES && additional < EXACT_CAST_BYTES
    ensures SatAdd(e.size, additional) == e.size + additional
    ensures var size := e.size + additional; var more := SatSub(Units(size), e.reserved);
      && Truncate32(more) == more && size <= BytesOf(e.reserved + more)
      && (more > 0 ==> e.reserved + more == Units(size))
  {
    var size := e.size + additional;
    TruncationExact(size);
    hide Units;
    assert Units(size) < TWO_32;
    var units := Units(size);
    assert units <= e.reserved ==> BytesOf(units) <= BytesOf(e.reserved);
  }

  lemma ReserveIs(a: Area, path: Path, additional: nat)
    requires path in a.staged && Backed(a.staged[path]) && a.staged[path].size <= MAX_STAGED_BYTES && additional < EXACT_CAST_BYTES
    ensures var e := a.staged[path];
      var size := e.size + additional;
      var more := SatSub(Units(size), e.reserved);
      && size <= BytesOf(e.reserved + more)
      && Apply(a, OpReserve(path, additional)) ==
         if more == 0 then
           a.(staged := a.staged[path := e.(size := size)], appending := a.appending[path := Reservation(additional, 0)])
         else if Take(a, more).None? then a
         else
           var (b, p) := Take(a, more).value;
           b.(staged := b.staged[path := e.(size := size, permits := e.permits + [p], reserved := e.reserved + more)],
              appending := b.appending[path := Reservation(additional, more)])
  {
    ReserveNumbers(a.staged[path], additional);
    hide Units;
    hide BytesOf;
    hide Backed;
    hide Truncate32;
  }

  lemma TakeKeepsHandles(a: Area, path: Path, units: nat)
    requires Inv(a) && path in a.staged && Take(a, units).Some?
    ensures HandlesLive(Take(a, units).value.0.live, a.staged[path].permits)
  {
    assert HandlesLive(a.live, a.staged[path].permits);
  }

  lemma ReserveKeeps(a: Area, path: Path, additional: nat)
    requires Inv(a) && path !in a.appending && additional < EXACT_CAST_BYTES
    ensures Inv(Apply(a, OpReserve(path, additional)))
  {
    hide Inv;
    hide InvBut;
    hide Units;
    hide BytesOf;
    hide Ids;
    hide Backed;
    hide HandlesLive;
    if path in a.staged {
      StagedIsSmall(a, path);
      ReserveIs(a, path, additional);
      SettledIsInv(a);
      hide Apply;
      var e := a.staged[path];
      var size := e.size + additional;
      var more := SatSub(Units(size), e.reserved);
      if more > 0 {
        if Take(a, more).Some? {
          TakeKeeps(a, more);
          TakeKeepsHandles(a, path, more);
          ReserveMoreKeeps(Take(a, more).value.0, path, Take(a, more).value.1, size, additional);
        }
      } else {
        ReserveWithin(e, size, additional);
        SameSizeClass(a, path, e.(size := size), Some(Reservation(additional, 0)));
      }
      SettledIsInv(Apply(a, OpReserve(path, additional)));
    }
  }

  lemma ReserveWithin(e: Staged, size: nat, additional: nat)
    requires Backed(e) && size == e.size + additional <= BytesOf(e.reserved)
    ensures Backed(e.(size := size)) && Undoable(e.(size := size), Reservation(additional, 0))
  {
  }

  lemma PoppedIsBacked(e: Staged, r: Reservation)
    requires Backed(e) && Undoable(e, r) && r.units > 0
    ensures Backed(e.(size := e.size - r.amount, permits := e.permits[..|e.permits| - 1], reserved := e.reserved - r.units))
    ensures Ids(e.permits) == Ids(e.permits[..|e.permits| - 1]) + {e.permits[|e.permits| - 1].id}
  {
    UnitsOfPop(e.permits);
    assert e.permits == e.permits[..|e.permits| - 1] + [e.permits[|e.permits| - 1]];
    IdsPush(e.permits[..|e.permits| - 1], e.permits[|e.permits| - 1]);
  }

  /** The entry of an append that gives up, before the popped permit is dropped. */
  function RolledBack(e: Staged, r: Reservation): Staged
    requires r.amount <= e.size && r.units <= e.reserved && e.permits != []
  {
    e.(size := e.size - r.amount, permits := e.permits[..|e.permits| - 1], reserved := e.reserved - r.units)
  }

  lemma PoppedHandlesLive(live: map<nat, nat>, e: Staged, r: Reservation)
    requires HandlesLive(live, e.permits) && r.amount <= e.size && r.units <= e.reserved && e.permits != []
    ensures HandlesLive(live, RolledBack(e, r).permits)
  {
  }

  lemma PopKeeps(a: Area, path: Path, r: Reservation)
    requires InvBut(a, {}) && path in a.staged && r.units > 0
    requires Backed(a.staged[path]) && Undoable(a.staged[path], r) && HandlesLive(a.live, a.staged[path].permits)
    ensures InvBut(a.(staged := a.staged[path := RolledBack(a.staged[path], r)], appending := a.appending - {path}),
                   {a.staged[path].permits[|a.staged[path].permits| - 1].id})
  {
    hide Backed;
    hide InvBut;
    hide Ids;
    hide HandlesLive;
    var e := a.staged[path];
    PoppedIsBacked(e, r);
    PoppedHandlesLive(a.live, e, r);
    hide Undoable;
    var c := a.(staged := a.staged[path := RolledBack(e, r)], appending := a.appending - {path});
    assert c.staged == a.staged[path := c.staged[path]];
    EntryUpdateKeeps(a, c, path, {}, {e.permits[|e.permits| - 1].id});
  }

  lemma RollBackFacts(a: Area, path: Path)
    requires Inv(a) && path in a.appending
    ensures path in a.staged && Backed(a.staged[path]) && Undoable(a.staged[path], a.appending[path])
    ensures HandlesLive(a.live, a.staged[path].permits)
  {
    assert Backed(a.staged[path]) && HandlesLive(a.live, a.staged[path].permits);
  }

  /** Dropping a permit does not look at the appends in progress. */
  lemma DropSeesHandlesOnly(a: Area, p: Permit, appending: map<Path, Reservation>)
    ensures DropOne(a, p).(appending := appending) == DropOne(a.(appending := appending), p)
  {
    SameHandles(a, a.(appending := appending), p.id);
    hide InUse;
  }

  lemma RollBackIs(a: Area, path: Path)
    requires path in a.appending && path in a.staged && Undoable(a.staged[path], a.appending[path])
    ensures var e, r := a.staged[path], a.appending[path];
      Apply(a, OpRollBack(path)) ==
      if r.units == 0 then
        a.(staged := a.staged[path := e.(size := e.size - r.amount)], appending := a.appending - {path})
      else
        DropOne(a.(staged := a.staged[path := RolledBack(e, r)], appending := a.appending - {path}), e.permits[|e.permits| - 1])
  {
    var e, r := a.staged[path], a.appending[path];
    if r.units > 0 {
      DropSeesHandlesOnly(a.(staged := a.staged[path := RolledBack(e, r)]), e.permits[|e.permits| - 1], a.appending - {path});
    }
    hide DropOne;
    hide BytesOf;
  }

  lemma RollBackWithin(e: Staged, r: Reservation)
    requires Backed(e) && Undoable(e, r) && r.units == 0
    ensures Backed(e.(size := e.size - r.amount))
  {
  }

  lemma RollBackKeeps(a: Area, path: Path)
    requires Inv(a) && path in a.appending
    ensures Inv(Apply(a, OpRollBack(path)))
  {
    hide Inv;
    hide InvBut;
    hide Ids;
    hide Backed;
    hide BytesOf;
    hide HandlesLive;
    hide DropOne;
    RollBackFacts(a, path);
    RollBackIs(a, path);
    hide Apply;
    SettledIsInv(a);
    var e, r := a.staged[path], a.appending[path];
    if r.units == 0 {
      RollBackWithin(e, r);
      SameSizeClass(a, path, e.(size := e.size - r.amount), None);
    } else {
      var last := e.permits[|e.permits| - 1];
      PopKeeps(a, path, r);
      DropOneKeeps(a.(staged := a.staged[path := RolledBack(e, r)], appending := a.appending - {path}), last, {last.id});
      assert {last.id} - {last.id} == {};
    }
    SettledIsInv(Apply(a, OpRollBack(path)));
  }

  lemma CommitKeeps(a: Area, path: Path)
    requires Inv(a)
    ensures Inv(Apply(a, OpCommit(path)))
  {
    var c := a.(appending := a.appending - {path});
    hide Undoable;
    hide EntriesBacked;
    forall h | h in c.held ensures HandlesLive(c.live, c.held[h].permits) && OwnPermits(c, h) {
      assert HandlesLive(a.live, a.held[h].permits) && OwnPermits(a, h);
    }
    forall id ensures InUse(c, id) <==> InUse(a, id) {
      SameHandles(c, a, id);
    }
  }

  lemma ApplyKeeps(a: Area, op: Op)
    requires Inv(a) && Allowed(a, op) && ExactCast(op)
    ensures Inv(Apply(a, op))
  {
    hide Inv;
    hide Reserve;
    match op
    case OpHold(h, size) => HoldKeeps(a, h, size);
    case OpLetGo(h) => LetGoKeeps(a, h);
    case OpPublish(path, h, file) => PublishKeeps(a, path, h, file);
    case OpReserve(path, additional) => ReserveKeeps(a, path, additional);
    case OpCommit(path) => CommitKeeps(a, path);
    case OpRollBack(path) => RollBackKeeps(a, path);
    case OpUnstage(path) => UnstageKeeps(a, path);
    case OpClone(path, h) => CloneKeeps(a, path, h);
  }

  // ---- Over whole runs ----

  function Empty(): Area {
    Area(TOTAL_PERMITS, map[], map[], map[], map[], 0)
  }

  predicate AllowedRun(a: Area, ops: seq<Op>)
    decreases |ops|
  {
    ops == [] || (Allowed(a, ops[0]) && AllowedRun(Apply(a, ops[0]), ops[1..]))
  }

  function Run(a: Area, ops: seq<Op>): Area
    decreases |ops|
  {
    if ops == [] then a else Run(Apply(a, ops[0]), ops[1..])
  }

  lemma {:induction false} RunKeeps(a: Area, ops: seq<Op>)
    requires Inv(a) && AllowedRun(a, ops) && forall op | op in ops :: ExactCast(op)
    ensures Inv(Run(a, ops))
    decreases |ops|
  {
    hide Inv;
    hide Apply;
    if ops != [] {
      ApplyKeeps(a, ops[0]);
      RunKeeps(Apply(a, ops[0]), ops[1..]);
    }
  }

  /**
   Conservation over whole runs: permits available and permits held always make up the total, no permit is held
   by nobody, every staged size is covered by its own permits, and so the staged sizes together never exceed the
   budget, nor what is out on loan.
   */
  lemma BudgetIsConserved(ops: seq<Op>)
    requires AllowedRun(Empty(), ops) && forall op | op in ops :: ExactCast(op)
    ensures var z := Run(Empty(), ops);
      && z.available + MapSum(z.live) == TOTAL_PERMITS
      && (forall id | id in z.live :: InUse(z, id))
      && (forall p | p in z.staged :: z.staged[p].size <= BytesOf(z.staged[p].reserved))
      && MapSum(Sizes(z.staged)) <= BytesOf(TOTAL_PERMITS - z.available) <= MAX_STAGED_BYTES
      && |z.staged| <= MAX_STAGED_UPLOADS
  {
    assert Inv(Empty());
    RunKeeps(Empty(), ops);
    var z := Run(Empty(), ops);
    SizesWithinPermits(z.live, z.staged);
    forall p | p in z.staged ensures z.staged[p].size <= BytesOf(z.staged[p].reserved) {
      assert Backed(z.staged[p]);
    }
  }

  lemma TakenIdIsFresh(a: Area)
    requires Inv(a)
    ensures a.nextPermit !in a.live
    ensures forall q | q in a.staged :: a.nextPermit !in Ids(a.staged[q].permits)
    ensures forall h | h in a.held :: a.nextPermit !in Ids(a.held[h].permits)
  {
    assert a.nextPermit !in a.live;
    FreshIdKeepsEntries(a.live, a.staged, a.nextPermit, 0);
    forall h | h in a.held ensures a.nextPermit !in Ids(a.held[h].permits) {
      assert HandlesLive(a.live, a.held[h].permits);
    }
  }

  /** A permit that was taken, pushed and popped again is back. */
  lemma TakePushPop(a: Area, path: Path, e: Staged, units: nat)
    requires path in a.staged && e.permits == a.staged[path].permits && Take(a, units).Some?
    requires a.nextPermit !in a.live
    requires forall q | q in a.staged :: a.nextPermit !in Ids(a.staged[q].permits)
    requires forall h | h in a.held :: a.nextPermit !in Ids(a.held[h].permits)
    ensures var (b, p) := Take(a, units).value;
      DropOne(b.(staged := b.staged[path := e]), p) == a.(staged := a.staged[path := e], nextPermit := a.nextPermit + 1)
  {
    hide Ids;
    var (b, p) := Take(a, units).value;
    assert b.live - {p.id} == a.live;
  }

  /** A reservation that is released at once leaves no trace at all, exactly when the size did not saturate. */
  lemma ReleaseUndoesReserve(a: Area, path: Path, additional: nat)
    requires additional <= U64_MAX
    requires Inv(a) && path in a.staged && Reserve(a, path, additional).1.Some?
    ensures var (b, r) := Reserve(a, path, additional);
      var c := Release(b, path, additional, r.value);
      && c.available == a.available && c.live == a.live && c.held == a.held
      && (c.staged == a.staged <==> a.staged[path].size + additional <= U64_MAX)
  {
    hide Inv;
    hide Reserve;
    hide Release;
    hide Ids;
    TakenIdIsFresh(a);
    ReserveThenRelease(a, path, additional);
    var e := a.staged[path];
    var e' := e.(size := SatSub(SatAdd(e.size, additional), additional));
    assert e' == e ==> a.staged[path := e'] == a.staged;
    assert a.staged[path := e'][path] == e';
  }

  lemma ReserveThenRelease(a: Area, path: Path, additional: nat)
    requires path in a.staged && Reserve(a, path, additional).1.Some?
    requires a.nextPermit !in a.live
    requires forall q | q in a.staged :: a.nextPermit !in Ids(a.staged[q].permits)
    requires forall h | h in a.held :: a.nextPermit !in Ids(a.held[h].permits)
    ensures var e := a.staged[path];
      var e' := e.(size := SatSub(SatAdd(e.size, additional), additional));
      var r := Reserve(a, path, additional).1.value;
      && Release(Reserve(a, path, additional).0, path, additional, r) ==
         a.(staged := a.staged[path := e'], nextPermit := a.nextPermit + if r == 0 then 0 else 1)
  {
    hide Units;
    hide Ids;
    hide DropOne;
    hide Truncate32;
    var e := a.staged[path];
    var size := SatAdd(e.size, additional);
    var more := SatSub(Units(size), e.reserved);
    var e' := e.(size := SatSub(size, additional));
    var b := Reserve(a, path, additional).0;
    if more > 0 {
      TakePushPop(a, path, e', Truncate32(more));
      var (t, p) := Take(a, Truncate32(more)).value;
      assert b == t.(staged := t.staged[path := e.(size := size, permits := e.permits + [p], reserved := Units(size))]);
      assert (e.permits + [p])[..|e.permits|] == e.permits;
      assert b.(staged := b.staged[path := e']) == t.(staged := t.staged[path := e']);
      assert Release(b, path, additional, more) == DropOne(b.(staged := b.staged[path := e']), p);
    } else {
      assert b.staged[path := e'] == a.staged[path := e'];
    }
  }

  /** An append of this upload ends here, either way. */
  predicate Ends(op: Op, path: Path) {
    op == OpCommit(path) || op == OpRollBack(path)
  }

  lemma {:induction false} DropAllKeepsEntries(a: Area, ps: seq<Permit>)
    ensures DropAll(a, ps).staged == a.staged && DropAll(a, ps).appending == a.appending
    decreases |ps|
  {
    if ps != [] {
      DropAllKeepsEntries(DropOne(a, ps[0]), ps[1..]);
    }
  }

  /** While an append is in progress, no operation but its own end touches its entry. */
  predicate SameUpload(a: Area, b: Area, path: Path) {
    && path in a.staged && path in b.staged && b.staged[path] == a.staged[path]
    && path in a.appending && path in b.appending && b.appending[path] == a.appending[path]
  }

  lemma ReserveKeepsOthers(a: Area, q: Path, additional: nat)
    ensures var b := Reserve(a, q, additional).0; b.staged - {q} == a.staged - {q} && b.appending == a.appending
  {
    hide Units;
    hide Truncate32;
  }

  lemma ReleaseKeepsOthers(a: Area, q: Path, amount: nat, units: nat)
    ensures var b := Release(a, q, amount, units); b.staged - {q} == a.staged - {q} && b.appending == a.appending
  {
    hide InUse;
  }

  lemma OthersKeepUpload(a: Area, op: Op, path: Path)
    requires path in a.staged && path in a.appending && Allowed(a, op) && !Ends(op, path)
    ensures SameUpload(a, Apply(a, op), path)
  {
    assert path in a.staged - {} && forall q | q != path :: path in a.staged - {q};
    match op
    case OpLetGo(h) => DropAllKeepsEntries(a.(held := a.held - {h}), if h in a.held then a.held[h].permits else []);
    case OpPublish(_, h, _) => DropAllKeepsEntries(a.(held := a.held - {h}), if h in a.held then a.held[h].permits else []);
    case OpUnstage(q) => DropAllKeepsEntries(a.(staged := a.staged - {q}), if q in a.staged then a.staged[q].permits else []);
    case OpReserve(q, additional) =>
      ReserveKeepsOthers(a, q, additional);
      SameElsewhere(a.staged, Apply(a, op).staged, q, path);
    case OpRollBack(q) =>
      ReleaseKeepsOthers(a, q, a.appending[q].amount, a.appending[q].units);
      SameElsewhere(a.staged, Apply(a, op).staged, q, path);
    case _ =>
  }

  lemma SameElsewhere<V>(m: map<Path, V>, n: map<Path, V>, q: Path, path: Path)
    requires n - {q} == m - {q} && path != q && path in m
    ensures path in n && n[path] == m[path]
  {
    assert path in m - {q} && (m - {q})[path] == m[path];
    assert path in n - {q} && (n - {q})[path] == n[path];
  }

  lemma {:induction false} RunKeepsUpload(a: Area, ops: seq<Op>, path: Path)
    requires path in a.staged && path in a.appending && AllowedRun(a, ops) && forall op | op in ops :: !Ends(op, path)
    ensures SameUpload(a, Run(a, ops), path)
    decreases |ops|
  {
    hide Apply;
    hide Allowed;
    if ops != [] {
      OthersKeepUpload(a, ops[0], path);
      RunKeepsUpload(Apply(a, ops[0]), ops[1..], path);
    }
  }

  /** What the entry of a rolled back append is. */
  lemma ReleasedEntry(b: Area, path: Path, e: Staged, additional: nat, p: Permit, units: nat)
    requires path in b.staged
    requires var size := SatAdd(e.size, additional);
      b.staged[path] == if units == 0 then e.(size := size)
                        else e.(size := size, permits := e.permits + [p], reserved := e.reserved + units)
    ensures var c := Release(b, path, additional, units);
      path in c.staged && c.staged[path] == e.(size := SatSub(SatAdd(e.size, additional), additional))
  {
    hide InUse;
    if units > 0 {
      assert (e.permits + [p])[..|e.permits|] == e.permits;
    }
  }

  /**
   A rolled back append leaves its entry as it was, exactly when the size did not saturate; and this whatever other
   uploads reserved, published, dropped or cloned while the append was writing.
   */
  lemma RollBackRestores(a: Area, path: Path, additional: nat, ops: seq<Op>)
    requires Inv(a) && path in a.staged && additional <= U64_MAX
    requires Allowed(a, OpReserve(path, additional)) && Reserve(a, path, additional).1.Some?
    requires AllowedRun(Apply(a, OpReserve(path, additional)), ops) && forall op | op in ops :: !Ends(op, path)
    ensures var b := Run(Apply(a, OpReserve(path, additional)), ops);
      var c := Apply(b, OpRollBack(path));
      && path in c.staged && path !in c.appending
      && c.staged[path].permits == a.staged[path].permits && c.staged[path].reserved == a.staged[path].reserved
      && (c.staged[path] == a.staged[path] <==> a.staged[path].size + additional <= U64_MAX)
  {
    hide Inv;
    hide Reserve;
    hide Units;
    hide Truncate32;
    var e := a.staged[path];
    var a1 := Apply(a, OpReserve(path, additional));
    var r := Reserve(a, path, additional).1.value;
    ReservedEntry(a, path, additional);
    assert a1.appending[path] == Reservation(additional, r) && a1.staged == Reserve(a, path, additional).0.staged;
    hide Allowed;
    RunKeepsUpload(a1, ops, path);
    var b := Run(a1, ops);
    var c := Apply(b, OpRollBack(path));
    assert c == Release(b, path, additional, r).(appending := b.appending - {path});
    hide Apply;
    hide Release;
    ReleasedEntry(b, path, e, additional, Permit(a.nextPermit, Truncate32(r)), r);
  }

  /** A clone of an entry holds the permit too. */
  ghost predicate Shared(b: Area, p: Permit) {
    exists h :: h in b.held && p.id in Ids(b.held[h].permits)
  }

  /** The state with the last permit popped, before its handle is dropped. */
  function Popped(b: Area, path: Path, r: Reservation): Area
    requires path in b.staged && b.staged[path].permits != []
  {
    var e := b.staged[path];
    b.(staged := b.staged[path := e.(size := SatSub(e.size, r.amount), reserved := SatSub(e.reserved, r.units),
                                     permits := e.permits[..|e.permits| - 1])])
  }

  lemma PoppedInUse(b: Area, path: Path, r: Reservation)
    requires path in b.staged && b.staged[path].permits != []
    requires var ps := b.staged[path].permits;
      var id := ps[|ps| - 1].id;
      id !in Ids(ps[..|ps| - 1]) && forall q | q in b.staged && q != path :: id !in Ids(b.staged[q].permits)
    ensures var ps := b.staged[path].permits; InUse(Popped(b, path, r), ps[|ps| - 1].id) <==> Shared(b, ps[|ps| - 1])
  {
    hide Ids;
    var ps := b.staged[path].permits;
    var id, c := ps[|ps| - 1].id, Popped(b, path, r);
    forall q | q in c.staged ensures id !in Ids(c.staged[q].permits) {
      assert q != path ==> c.staged[q] == b.staged[q];
    }
  }

  lemma LastIsLive(b: Area, path: Path)
    requires Inv(b) && path in b.appending
    ensures path in b.staged && Undoable(b.staged[path], b.appending[path])
    ensures b.appending[path].units > 0 ==>
      var ps := b.staged[path].permits;
      ps != [] && ps[|ps| - 1].id in b.live && b.live[ps[|ps| - 1].id] == b.appending[path].units
  {
    assert Undoable(b.staged[path], b.appending[path]);
    assert HandlesLive(b.live, b.staged[path].permits);
    var ps := b.staged[path].permits;
    assert ps != [] ==> ps[|ps| - 1] in ps;
  }

  lemma RollBackPops(b: Area, path: Path)
    requires path in b.staged && b.staged[path].permits != [] && path in b.appending && b.appending[path].units > 0
    ensures var r, ps := b.appending[path], b.staged[path].permits;
      Apply(b, OpRollBack(path)) == DropOne(Popped(b, path, r), ps[|ps| - 1]).(appending := b.appending - {path})
  {
    hide InUse;
    var r, ps := b.appending[path], b.staged[path].permits;
    assert Release(b, path, r.amount, r.units) == DropOne(Popped(b, path, r), ps[|ps| - 1]);
  }

  /** The units of a rolled back append return at once, unless a clone of the entry still holds their permit. */
  lemma RollBackReturnsUnits(b: Area, path: Path)
    requires Inv(b) && path in b.appending
    ensures path in b.staged && (b.appending[path].units > 0 ==> b.staged[path].permits != [])
    ensures var r, ps := b.appending[path], b.staged[path].permits;
      Apply(b, OpRollBack(path)).available ==
        b.available + if r.units > 0 && !Shared(b, ps[|ps| - 1]) then r.units else 0
  {
    LastIsLive(b, path);
    InvParts(b);
    hide Inv;
    hide Undoable;
    hide EntriesBacked;
    hide HoldersOk;
    hide InUse;
    hide Shared;
    var r, ps := b.appending[path], b.staged[path].permits;
    if r.units > 0 {
      LastIsAlone(b, path);
      PoppedInUse(b, path, r);
      RollBackPops(b, path);
      hide Apply;
    }
  }

  lemma LastIsOnlyOnce(ps: seq<Permit>)
    requires DistinctIds(ps) && ps != []
    ensures ps[|ps| - 1].id in Ids(ps) && ps[|ps| - 1].id !in Ids(ps[..|ps| - 1])
  {
    var last := ps[|ps| - 1];
    assert last in ps;
    forall p | p in ps[..|ps| - 1] ensures p.id != last.id {
      var i :| 0 <= i < |ps| - 1 && ps[..|ps| - 1][i] == p;
      assert ps[i] == p;
    }
  }

  lemma EntriesApart(live: map<nat, nat>, staged: map<Path, Staged>, path: Path, id: nat)
    requires EntriesBacked(live, staged) && path in staged && id in Ids(staged[path].permits)
    ensures DistinctIds(staged[path].permits)
    ensures forall q | q in staged && q != path :: id !in Ids(staged[q].permits)
  {
    hide Ids;
    hide HandlesLive;
    assert Backed(staged[path]);
    forall q | q in staged && q != path ensures id !in Ids(staged[q].permits) {
      assert Ids(staged[path].permits) !! Ids(staged[q].permits);
    }
  }

  /** No entry but its own holds the last permit of an upload, and that only once. */
  lemma LastIsAlone(b: Area, path: Path)
    requires EntriesBacked(b.live, b.staged) && path in b.staged && b.staged[path].permits != []
    ensures var ps := b.staged[path].permits;
      var id := ps[|ps| - 1].id;
      id !in Ids(ps[..|ps| - 1]) && forall q | q in b.staged && q != path :: id !in Ids(b.staged[q].permits)
  {
    assert Backed(b.staged[path]);
    hide EntriesBacked;
    hide Ids;
    var ps := b.staged[path].permits;
    LastIsOnlyOnce(ps);
    EntriesApart(b.live, b.staged, path, ps[|ps| - 1].id);
  }

  /** The cast to u32 is exact, and the entry stays covered by its permits, exactly when the step needs fewer than 2^32 units. */
  lemma ReserveBackedIff(a: Area, path: Path, additional: nat)
    requires Inv(a) && path in a.staged && Reserve(a, path, additional).1.Some?
    ensures var e := a.staged[path];
      Backed(Reserve(a, path, additional).0.staged[path]) <==> SatSub(Units(SatAdd(e.size, additional)), e.reserved) < TWO_32
  {
    StagedIsSmall(a, path);
    TakenIdIsFresh(a);
    hide Inv;
    hide Units;
    hide Backed;
    hide Ids;
    hide HandlesLive;
    ReservedEntry(a, path, additional);
    hide Reserve;
    GrownBackedIff(a.staged[path], SatAdd(a.staged[path].size, additional), a.nextPermit);
  }

  /** An entry that grows to a size, with a permit of its own for what it lacks. */
  lemma GrownBackedIff(e: Staged, size: nat, id: nat)
    requires Backed(e) && id !in Ids(e.permits)
    ensures var more := SatSub(Units(size), e.reserved);
      Backed(if more == 0 then e.(size := size)
             else e.(size := size, permits := e.permits + [Permit(id, Truncate32(more))], reserved := Units(size)))
      <==> more < TWO_32
  {
    UnitsCover(size, e.reserved);
    hide Units;
    var more := SatSub(Units(size), e.reserved);
    if more > 0 {
      var p := Permit(id, Truncate32(more));
      UnitsOfPush(e.permits, p);
      if more < TWO_32 {
        hide Ids;
        PushedIsBacked(e, p, size);
      }
    }
  }

  /** An upload that has reserved nothing yet, alone in the staging area. */
  function Begun(): Area {
    Empty().(staged := map["u" := Staged(0, 0, [], 0)])
  }

  /** 4 PiB pass the check with a permit of no units at all. */
  lemma TruncatedReservation()
    ensures Inv(Begun()) && Reserve(Begun(), "u", 0x10_0000_0000_0000).1 == Some(TWO_32)
    ensures var b := Reserve(Begun(), "u", 0x10_0000_0000_0000).0;
      b.available == TOTAL_PERMITS && b.staged["u"].size == 0x10_0000_0000_0000 && UnitsOf(b.staged["u"].permits) == 0
  {
    var a := Begun();
    assert Backed(a.staged["u"]) && Ids([]) == {};
    assert Units(0x10_0000_0000_0000) == TWO_32 && Truncate32(TWO_32) == 0;
    var p := Permit(0, 0);
    assert UnitsOf([p]) == p.units + UnitsOf([]) by { assert [p][1..] == []; }
    assert [] + [p] == [p];
  }

  lemma SeededPermits(size: nat, file: nat, p: Permit)
    requires p.units == Truncate32(Units(size))
    ensures Backed(Staged(file, size, [p], Units(size))) <==> Units(size) < TWO_32
    ensures Units(size) == 0 ==> size == 0 && Backed(Staged(file, size, [], 0))
  {
    DivCeilIsLeast(size, 1_048_576);
    hide Units;
    assert UnitsOf([p]) == p.units + UnitsOf([]) by { assert [p][1..] == []; }
    var units := Units(size);
    assert units < TWO_32 ==> units % TWO_32 == units;
    assert units % TWO_32 == units ==> units < TWO_32;
  }

  /** So for an upload seeded from an object: its entry is covered exactly when the object is below 2^32 units. */
  lemma SeedBackedIff(a: Area, path: Path, h: nat, size: nat, file: nat)
    requires h !in a.held && path !in a.staged && |a.staged| < MAX_STAGED_UPLOADS && h in Hold(a, h, size).held
    ensures Backed(PublishStaging(Hold(a, h, size), path, h, file).staged[path]) <==> Units(size) < TWO_32
  {
    var units := Units(size);
    var p := Permit(a.nextPermit, Truncate32(units));
    SeededPermits(size, file, p);
    hide Units;
    hide Truncate32;
    hide Backed;
    var b := Hold(a, h, size);
    assert b.held[h] == Held(size, if units == 0 then [] else [p], true);
    assert PublishStaging(b, path, h, file).staged[path] == Staged(file, size, b.held[h].permits, units);
  }

  lemma UnitsCover(size: nat, reserved: nat)
    ensures size <= BytesOf(reserved + SatSub(Units(size), reserved))
  {
    DivCeilIsLeast(size, 1_048_576);
  }

  /** The units an entry lacks for so many more bytes, before the cast to u32. */
  function Lacking(e: Staged, additional: nat): nat {
    SatSub(Units(SatAdd(e.size, additional)), e.reserved)
  }

  /**
   Exactly when a reservation is admitted: the upload is staged, and what it lacks, cast to u32, is available. It takes
   just that, and a refusal changes nothing.
   */
  lemma ReserveAdmitsIff(a: Area, path: Path, additional: nat)
    ensures Reserve(a, path, additional).1.Some? <==>
      path in a.staged && Lacking(a.staged[path], additional) % TWO_32 <= a.available
    ensures var (b, r) := Reserve(a, path, additional);
      if r.None? then b == a
      else
        var more := Lacking(a.staged[path], additional);
        && r.value == more && b.available == a.available - more % TWO_32 && b.held == a.held && b.appending == a.appending
        && b.live == (if more == 0 then a.live else a.live[a.nextPermit := more % TWO_32])
  {
    hide Units;
  }

  /** Exactly when the permits for a file of this size are taken, by a holder that has none yet. */
  lemma HoldAdmitsIff(a: Area, h: nat, size: nat)
    requires h !in a.held
    ensures h in Hold(a, h, size).held <==> Units(size) % TWO_32 <= a.available
    ensures var b := Hold(a, h, size);
      if h !in b.held then b == a
      else b.available == a.available - Units(size) % TWO_32 && b.held[h].size == size && b.held - {h} == a.held && b.staged == a.staged
  {
    hide Units;
  }

  /** Exactly when a seeded file is published: no upload of the path is staged, and fewer than 64 are. */
  lemma PublishesIff(a: Area, path: Path, h: nat, file: nat)
    requires h in a.held
    ensures var b := PublishStaging(a, path, h, file);
      && h !in b.held
      && (if path !in a.staged && |a.staged| < 64 then
            && b.staged == a.staged[path := Staged(file, a.held[h].size, a.held[h].permits, Units(a.held[h].size))]
            && b.available == a.available && b.live == a.live
          else b.staged == a.staged)
  {
    DropAllKeepsEntries(a.(held := a.held - {h}), a.held[h].permits);
    DropAllKeepsHolders(a.(held := a.held - {h}), a.held[h].permits);
    hide Units;
    hide DropAll;
  }

  lemma {:induction false} DropAllKeepsHolders(a: Area, ps: seq<Permit>)
    ensures DropAll(a, ps).held == a.held
    decreases |ps|
  {
    if ps != [] {
      DropAllKeepsHolders(DropOne(a, ps[0]), ps[1..]);
    }
  }

  /** Releasing gives the size, the units and the last permit back, of this entry and no other. */
  lemma ReleaseMeans(a: Area, path: Path, amount: nat, units: nat)
    requires path in a.staged
    ensures var b, e := Release(a, path, amount, units), a.staged[path];
      && path in b.staged && b.staged - {path} == a.staged - {path} && b.held == a.held
      && b.staged[path].file == e.file && b.staged[path].size == SatSub(e.size, amount)
      && (if units == 0 || e.permits == [] then b.staged[path].permits == e.permits
          else e.permits == b.staged[path].permits + [e.permits[|e.permits| - 1]])
      && b.staged[path].reserved == SatSub(e.reserved, units)
  {
    hide InUse;
    var e := a.staged[path];
    assert e.permits != [] ==> e.permits == e.permits[..|e.permits| - 1] + [e.permits[|e.permits| - 1]];
  }

  /** Taking an upload out of the map takes its entry and no other. */
  lemma UnstageMeans(a: Area, path: Path)
    ensures Unstage(a, path).staged == a.staged - {path} && Unstage(a, path).held == a.held
  {
    if path in a.staged {
      DropAllKeepsEntries(a.(staged := a.staged - {path}), a.staged[path].permits);
      DropAllKeepsHolders(a.(staged := a.staged - {path}), a.staged[path].permits);
    }
    hide DropAll;
    assert path !in a.staged ==> a.staged - {path} == a.staged;
  }

  lemma {:induction false} DropAllReturns(a: Area, ps: seq<Permit>)
    requires DistinctIds(ps) && HandlesLive(a.live, ps) && forall p | p in ps :: !InUse(a, p.id)
    ensures DropAll(a, ps).available == a.available + UnitsOf(ps)
    decreases |ps|
  {
    if ps != [] {
      var p, t := ps[0], ps[1..];
      var b := DropOne(a, p);
      assert p in ps && b.live == a.live - {p.id};
      forall q | q in t ensures q.id in b.live && b.live[q.id] == q.units && !InUse(b, q.id) {
        var i :| 0 <= i < |t| && t[i] == q;
        assert ps[i + 1] == q && q in ps;
        SameHandles(b, a, q.id);
      }
      hide InUse;
      DropAllReturns(b, t);
    }
  }

  lemma {:induction false} DropAllKeepsShared(a: Area, ps: seq<Permit>)
    requires forall p | p in ps :: InUse(a, p.id)
    ensures DropAll(a, ps) == a
    decreases |ps|
  {
    hide InUse;
    if ps != [] {
      assert ps[0] in ps && DropOne(a, ps[0]) == a;
      DropAllKeepsShared(a, ps[1..]);
    }
  }

  /** An upload that leaves the map while nothing else holds its permits gives them all back. */
  lemma UnstageReturnsUnits(a: Area, path: Path)
    requires Inv(a) && path in a.staged && forall p | p in a.staged[path].permits :: !Shared(a, p)
    ensures Unstage(a, path).available == a.available + a.staged[path].reserved
  {
    InvParts(a);
    hide Inv;
    var ps, b := a.staged[path].permits, a.(staged := a.staged - {path});
    assert Backed(a.staged[path]) && HandlesLive(a.live, ps);
    forall p | p in ps ensures !InUse(b, p.id) {
      assert p.id in Ids(ps);
      EntriesApart(a.live, a.staged, path, p.id);
      hide Ids;
      forall q | q in b.staged ensures p.id !in Ids(b.staged[q].permits) {
        assert q != path && b.staged[q] == a.staged[q];
      }
    }
    hide InUse;
    hide EntriesBacked;
    DropAllReturns(b, ps);
  }

  /** A clone keeps the permits of its entry on loan after the entry is gone. */
  lemma CloneKeepsPermits(a: Area, path: Path, h: nat)
    requires path in a.staged && h !in a.held
    ensures Unstage(Clone(a, path, h), path).available == a.available && Unstage(Clone(a, path, h), path).live == a.live
  {
    var c := Clone(a, path, h);
    var b := c.(staged := c.staged - {path});
    assert b.held[h].permits == a.staged[path].permits;
    forall p | p in a.staged[path].permits ensures InUse(b, p.id) {
      assert p.id in Ids(b.held[h].permits);
    }
    hide InUse;
    DropAllKeepsShared(b, a.staged[path].permits);
  }

  lemma ReservedEntry(a: Area, path: Path, additional: nat)
    requires path in a.staged && Reserve(a, path, additional).1.Some?
    ensures var (b, r) := Reserve(a, path, additional);
      var e := a.staged[path];
      var size := SatAdd(e.size, additional);
      && r == Some(SatSub(Units(size), e.reserved)) && path in b.staged
      && b.staged[path] ==
         if r.value == 0 then e.(size := size)
         else e.(size := size, permits := e.permits + [Permit(a.nextPermit, Truncate32(r.value))], reserved := Units(size))
  {
    hide Units;
    hide Truncate32;
  }

  // ---- Undisturbed uploads ----

  /** Permits that were not handed out yet. */
  ghost predicate LaterThan(a: Area, ps: seq<Permit>) {
    forall p | p in ps :: p.id >= a.nextPermit
  }

  lemma HoldsFresh(a: Area, h: nat, size: nat)
    requires h !in a.held && Units(size) <= a.available && Units(size) < TWO_32
    ensures Allowed(a, OpHold(h, size))
    ensures var b := Apply(a, OpHold(h, size));
      && h in b.held && b.held[h].own && b.held[h].size == size && LaterThan(a, b.held[h].permits)
      && b.held - {h} == a.held && b.staged == a.staged && b.appending == a.appending && a.nextPermit <= b.nextPermit
      && b.available == a.available - Units(size)
  {
    hide Units;
  }

  lemma PublishesHeld(a: Area, path: Path, h: nat, file: nat)
    requires h in a.held && a.held[h].own && path !in a.staged && path !in a.appending && |a.staged| < MAX_STAGED_UPLOADS
    ensures Allowed(a, OpPublish(path, h, file))
    ensures var b := Apply(a, OpPublish(path, h, file));
      && b.held == a.held - {h} && b.available == a.available && b.appending == a.appending && b.nextPermit == a.nextPermit
      && b.staged == a.staged[path := Staged(file, a.held[h].size, a.held[h].permits, Units(a.held[h].size))]
  {
    hide Units;
  }

  lemma ReservesFresh(a: Area, path: Path, n: nat)
    requires path in a.staged && path !in a.appending && a.staged[path].reserved == Units(a.staged[path].size)
    requires var e := a.staged[path];
      e.size + n <= U64_MAX && Units(e.size) <= Units(e.size + n) < TWO_32 && Units(e.size + n) - Units(e.size) <= a.available
    ensures Allowed(a, OpReserve(path, n))
    ensures var b, e := Apply(a, OpReserve(path, n)), a.staged[path];
      && b.held == a.held && b.available == a.available + Units(e.size) - Units(e.size + n)
      && path in b.staged && b.staged - {path} == a.staged - {path} && path in b.appending && b.appending - {path} == a.appending - {path}
      && b.staged[path].file == e.file && b.staged[path].size == e.size + n && b.staged[path].reserved == Units(e.size + n)
      && (forall p | p in b.staged[path].permits :: p in e.permits || p.id == a.nextPermit)
  {
    ReserveAdmitsIff(a, path, n);
    ReservedEntry(a, path, n);
    hide Reserve;
    hide Units;
  }

  /** What nobody had before is shared with no holder from before. */
  lemma NotShared(a: Area, b: Area, ps: seq<Permit>)
    requires Inv(a) && b.held == a.held && LaterThan(a, ps)
    ensures forall p | p in ps :: !Shared(b, p)
  {
    forall p | p in ps ensures !Shared(b, p) {
      forall h | h in b.held ensures p.id !in Ids(b.held[h].permits) {
        assert HandlesLive(a.live, a.held[h].permits);
      }
    }
    hide InUse;
    hide EntriesBacked;
  }

  /** The life of an upload: taken in, published, appended to, and unstaged. */
  function Life(path: Path, h: nat, size: nat, file: nat, n: nat): seq<Op> {
    [OpHold(h, size), OpPublish(path, h, file), OpReserve(path, n), OpCommit(path), OpUnstage(path)]
  }

  /**
   An upload that nothing disturbs and that has room is taken in, grows to its size on as many units, and gives all of
   them back when it leaves.
   */
  lemma UndisturbedLife(a: Area, path: Path, h: nat, size: nat, file: nat, n: nat)
    requires Inv(a) && path !in a.staged && h !in a.held && |a.staged| < MAX_STAGED_UPLOADS && Units(size + n) <= a.available
    ensures AllowedRun(a, Life(path, h, size, file, n))
    ensures var z := Run(a, Life(path, h, size, file, n));
      z.available == a.available && z.staged == a.staged && z.held == a.held && z.appending == a.appending
    ensures var b := Run(a, Life(path, h, size, file, n)[..4]);
      && b.available == a.available - Units(size + n) && path in b.staged && b.staged[path].size == size + n
      && b.staged[path].file == file && b.staged - {path} == a.staged && b.appending == a.appending
  {
    assert path !in a.appending && a.available <= TOTAL_PERMITS;
    UnitsGrow(size, n);
    hide Inv;
    hide Units;
    LifeBegins(a, path, h, size, file);
    hide Apply;
    hide Allowed;
    var ops := Life(path, h, size, file, n);
    var b2 := Apply(Apply(a, ops[0]), ops[1]);
    LifeGoesOn(a, b2, path, file, size, n);
    hide StagedFresh;
    hide LaterThan;
    var b4 := Apply(Apply(b2, ops[2]), ops[3]);
    FiveOps(a, ops);
    hide AllowedRun;
    hide Run;
    LifeKeeps(a, ops);
    LeavesNothing(a, b4, path);
  }

  lemma LeavesNothing(a: Area, b: Area, path: Path)
    requires Inv(a) && Inv(b) && b.held == a.held && b.staged - {path} == a.staged && path in b.staged && path !in b.appending
    requires b.available == a.available - b.staged[path].reserved && LaterThan(a, b.staged[path].permits)
    ensures Allowed(b, OpUnstage(path)) && var z := Apply(b, OpUnstage(path));
      z.available == a.available && z.staged == a.staged && z.held == a.held && z.appending == b.appending
  {
    NotShared(a, b, b.staged[path].permits);
    hide Inv;
    UnstageReturnsUnits(b, path);
    UnstageMeans(b, path);
    UnstagesAlone(b, path);
    hide Unstage;
  }

  lemma UnstagesAlone(a: Area, path: Path)
    requires path !in a.appending
    ensures Allowed(a, OpUnstage(path)) && Apply(a, OpUnstage(path)) == Unstage(a, path)
    ensures Unstage(a, path).appending == a.appending
  {
    if path in a.staged {
      DropAllKeepsAppending(a.(staged := a.staged - {path}), a.staged[path].permits);
    }
    hide DropAll;
  }

  lemma {:induction false} DropAllKeepsAppending(a: Area, ps: seq<Permit>)
    ensures DropAll(a, ps).appending == a.appending
    decreases |ps|
  {
    if ps != [] {
      DropAllKeepsAppending(DropOne(a, ps[0]), ps[1..]);
    }
    hide InUse;
  }

  /** The upload is staged in this size on permits of its own; the rest of the area is as in `a`. */
  ghost predicate StagedFresh(a: Area, b: Area, path: Path, file: nat, size: nat) {
    && b.held == a.held && b.available == a.available - Units(size) && a.nextPermit <= b.nextPermit && b.staged - {path} == a.staged
    && path in b.staged && b.staged[path].file == file && b.staged[path].size == size && b.staged[path].reserved == Units(size)
    && LaterThan(a, b.staged[path].permits)
  }

  lemma LifeBegins(a: Area, path: Path, h: nat, size: nat, file: nat)
    requires path !in a.staged && path !in a.appending && h !in a.held && |a.staged| < MAX_STAGED_UPLOADS
    requires Units(size) <= a.available && Units(size) < TWO_32
    ensures Allowed(a, OpHold(h, size)) && Allowed(Apply(a, OpHold(h, size)), OpPublish(path, h, file))
    ensures var b := Apply(Apply(a, OpHold(h, size)), OpPublish(path, h, file));
      StagedFresh(a, b, path, file, size) && b.appending == a.appending
  {
    HoldsFresh(a, h, size);
    PublishesHeld(Apply(a, OpHold(h, size)), path, h, file);
    hide Units;
    hide Apply;
    hide Allowed;
    hide LaterThan;
  }

  lemma LifeGoesOn(a: Area, b: Area, path: Path, file: nat, size: nat, n: nat)
    requires StagedFresh(a, b, path, file, size) && path !in b.appending && size + n <= U64_MAX
    requires Units(size) <= Units(size + n) <= a.available && Units(size + n) < TWO_32
    ensures Allowed(b, OpReserve(path, n)) && Allowed(Apply(b, OpReserve(path, n)), OpCommit(path))
    ensures var c := Apply(Apply(b, OpReserve(path, n)), OpCommit(path));
      c.held == a.held && c.available == a.available - Units(size + n) && c.staged - {path} == a.staged && c.appending == b.appending
      && path in c.staged && c.staged[path].file == file && c.staged[path].size == size + n && c.staged[path].reserved == Units(size + n)
      && LaterThan(a, c.staged[path].permits)
  {
    ReservesFresh(b, path, n);
    var c := Apply(b, OpReserve(path, n));
    CommitEnds(c, path);
    GrownLater(a, b, b.staged[path].permits, c.staged[path].permits);
    hide Units;
    hide Apply;
    hide Allowed;
    hide LaterThan;
    assert b.appending - {path} == b.appending;
  }

  lemma UnitsGrow(size: nat, n: nat)
    requires Units(size + n) <= TOTAL_PERMITS
    ensures Units(size) <= Units(size + n) && size + n < EXACT_CAST_BYTES
  {
    DivCeilIsLeast(size + n, 1_048_576);
  }

  lemma GrownLater(a: Area, b: Area, ps: seq<Permit>, qs: seq<Permit>)
    requires LaterThan(a, ps) && a.nextPermit <= b.nextPermit && forall p | p in qs :: p in ps || p.id == b.nextPermit
    ensures LaterThan(a, qs)
  {
  }

  lemma CommitEnds(a: Area, path: Path)
    requires path in a.appending
    ensures Allowed(a, OpCommit(path)) && Apply(a, OpCommit(path)) == a.(appending := a.appending - {path})
  {
  }

  lemma LifeKeeps(a: Area, ops: seq<Op>)
    requires |ops| == 5 && Inv(a) && (forall i | 0 <= i < 4 :: ExactCast(ops[i]))
    requires Allowed(a, ops[0]) && Allowed(Apply(a, ops[0]), ops[1]) && Allowed(Apply(Apply(a, ops[0]), ops[1]), ops[2])
    requires Allowed(Apply(Apply(Apply(a, ops[0]), ops[1]), ops[2]), ops[3])
    ensures Inv(Apply(Apply(Apply(Apply(a, ops[0]), ops[1]), ops[2]), ops[3]))
  {
    hide Inv;
    hide Apply;
    hide Allowed;
    ApplyKeeps(a, ops[0]);
    ApplyKeeps(Apply(a, ops[0]), ops[1]);
    ApplyKeeps(Apply(Apply(a, ops[0]), ops[1]), ops[2]);
    ApplyKeeps(Apply(Apply(Apply(a, ops[0]), ops[1]), ops[2]), ops[3]);
  }

  lemma FiveOps(a: Area, ops: seq<Op>)
    requires |ops| == 5
    ensures var b1 := Apply(a, ops[0]); var b2 := Apply(b1, ops[1]); var b3 := Apply(b2, ops[2]); var b4 := Apply(b3, ops[3]);
      && Run(a, ops) == Apply(b4, ops[4]) && Run(a, ops[..4]) == b4
      && (AllowedRun(a, ops) <==> Allowed(a, ops[0]) && Allowed(b1, ops[1]) && Allowed(b2, ops[2]) && Allowed(b3, ops[3])
                                  && Allowed(b4, ops[4]))
  {
    hide Apply;
    hide Allowed;
    var four := ops[..4];
    assert ops[1..][1..] == ops[2..] && ops[2..][1..] == ops[3..] && ops[3..][1..] == ops[4..] && ops[4..][1..] == [];
    assert four[1..][1..] == four[2..] && four[2..][1..] == four[3..] && four[3..][1..] == [];
    var b1 := Apply(a, ops[0]);
    var b2 := Apply(b1, ops[1]);
    var b3 := Apply(b2, ops[2]);
    var b4 := Apply(b3, ops[3]);
    assert Run(b3, four[3..]) == b4 && Run(b2, four[2..]) == b4 && Run(b1, four[1..]) == b4;
    assert Run(b4, ops[4..]) == Apply(b4, ops[4]);
    assert Run(b3, ops[3..]) == Run(b4, ops[4..]) && Run(b2, ops[2..]) == Run(b3, ops[3..]) && Run(b1, ops[1..]) == Run(b2, ops[2..]);
    assert AllowedRun(b4, ops[4..]) <==> Allowed(b4, ops[4]);
    assert AllowedRun(b3, ops[3..]) <==> Allowed(b3, ops[3]) && AllowedRun(b4, ops[4..]);
    assert AllowedRun(b2, ops[2..]) <==> Allowed(b2, ops[2]) && AllowedRun(b3, ops[3..]);
    assert AllowedRun(b1, ops[1..]) <==> Allowed(b1, ops[1]) && AllowedRun(b2, ops[2..]);
  }

  // ---- The object the source mutates ----

  /** The staging map behind its lock, together with the semaphore. */
  class StagingArea {
    var available: nat
    var live: map<nat, nat>
    var staged: map<Path, Staged>
    var held: map<nat, Held>
    ghost var appending: map<Path, Reservation>
    var nextPermit: nat

    ghost function Value(): Area
      reads this
    {
      Area(available, live, staged, held, appending, nextPermit)
    }

    constructor ()
      ensures Value() == Empty()
    {
      available, live, staged, held, appending, nextPermit := TOTAL_PERMITS, map[], map[], map[], map[], 0;
    }

    method TryAcquire(units: nat) returns (permit: Option<Permit>)
      modifies this`available, this`live, this`nextPermit
      ensures permit.None? <==> Take(old(Value()), units).None?
      ensures permit.Some? <==> units <= old(available)
      ensures permit.None? ==> Value() == old(Value())
      ensures permit.Some? ==> available == old(available) - units && permit.value.units == units
      ensures permit.Some? ==> live == old(live)[permit.value.id := units] && permit.value.id == old(nextPermit) < nextPermit
      ensures permit.Some? ==> (Value(), permit.value) == Take(old(Value()), units).value
    {
      if units > available {
        return None;
      }
      permit := Some(Permit(nextPermit, units));
      available, live, nextPermit := available - units, live[nextPermit := units], nextPermit + 1;
    }

    method ReserveStagedSize(path: Path, additional: nat) returns (units: Option<nat>)
      modifies this`available, this`live, this`nextPermit, this`staged
      ensures (Value(), units) == Reserve(old(Value()), path, additional)
      ensures units.Some? <==> path in old(staged) && Lacking(old(staged)[path], additional) % TWO_32 <= old(available)
      ensures units.None? ==> Value() == old(Value())
      ensures units.Some? ==>
        && units.value == Lacking(old(staged)[path], additional) && available == old(available) - units.value % TWO_32
        && path in staged && staged[path].size == SatAdd(old(staged)[path].size, additional)
    {
      ReserveAdmitsIff(Value(), path, additional);
      if path in staged && Reserve(Value(), path, additional).1.Some? {
        ReservedEntry(Value(), path, additional);
      }
      if path !in staged {
        return None;
      }
      var entry := staged[path];
      var newSize := SatAdd(entry.size, additional);
      var required := Units(newSize);
      var more := SatSub(required, entry.reserved);
      if more > 0 {
        var permit := TryAcquire(Truncate32(more));
        if permit.None? {
          return None;
        }
        entry := entry.(permits := entry.permits + [permit.value], reserved := required);
      }
      staged := staged[path := entry.(size := newSize)];
      units := Some(more);
    }

    method Drop(permit: Permit)
      modifies this`available, this`live
      ensures Value() == DropOne(old(Value()), permit)
    {
      var used := (exists p | p in staged :: permit.id in Ids(staged[p].permits))
               || (exists h | h in held :: permit.id in Ids(held[h].permits));
      if permit.id in live && !used {
        available, live := available + live[permit.id], live - {permit.id};
      }
    }

    method ReleaseStagedSize(path: Path, amount: nat, units: nat)
      modifies this`available, this`live, this`staged
      ensures Value() == Release(old(Value()), path, amount, units)
    {
      if path !in staged {
        return;
      }
      var entry := staged[path];
      entry := entry.(size := SatSub(entry.size, amount));
      if units > 0 {
        entry := entry.(reserved := SatSub(entry.reserved, units));
        if entry.permits == [] {
          staged := staged[path := entry];
        } else {
          var last := entry.permits[|entry.permits| - 1];
          staged := staged[path := entry.(permits := entry.permits[..|entry.permits| - 1])];
          Drop(last);
        }
      } else {
        staged := staged[path := entry];
      }
    }
  }
}
