/**
 The staging files on disk against the permits on loan: the budget of `StagingBudget` together with the files that
 `StagedUpload` appends to. Recorded sizes are bounded by the permits; the files themselves are as long as no append
 tears one.
 */
module StagedSpace {
  import opened Basics
  import opened StagingBudget
  import StagedUpload

  /** An append in progress: the size at which it would be cut off again, and how much of the chunk has been written. */
  datatype Writing = Writing(base: nat, chunk: Bytes, written: nat)

  datatype Space = Space(area: Area, files: map<Path, Bytes>, writing: map<Path, Writing>)

  datatype Move =
    | Elsewhere(op: Op)
    | Publish(path: Path, h: nat, file: nat, bytes: Bytes)
    | Begin(path: Path, chunk: Bytes)
    | Write(path: Path, n: nat)
    | Succeed(path: Path)
    | Fail(path: Path, truncated: bool)
    | Remove(path: Path)

  /** What the source allows; the chunk does not change while it is copied, and the casts to u32 are exact. */
  predicate Possible(s: Space, m: Move) {
    match m
    case Elsewhere(op) => (op.OpHold? || op.OpLetGo? || op.OpClone?) && ExactCast(op)
    case Publish(path, h, file, bytes) => Allowed(s.area, OpPublish(path, h, file)) && |bytes| == s.area.held[h].size
    case Begin(path, chunk) => Allowed(s.area, OpReserve(path, |chunk|)) && |chunk| < EXACT_CAST_BYTES
    case Write(path, n) => path in s.writing && path in s.files && s.writing[path].written + n <= |s.writing[path].chunk|
    case Succeed(path) => path in s.writing && path in s.area.appending && s.writing[path].written == |s.writing[path].chunk|
    case Fail(path, _) => path in s.writing && path in s.area.appending && path in s.files
    case Remove(path) => Allowed(s.area, OpUnstage(path))
  }

  /** A failed append leaves written bytes that could not be cut off. */
  predicate Tears(s: Space, m: Move) {
    m.Fail? && m.path in s.writing && StagedUpload.Tears(StagedUpload.Interrupted(s.writing[m.path].written, m.truncated))
  }

  function Next(s: Space, m: Move): Space
    requires Possible(s, m)
  {
    match m
    case Elsewhere(op) => s.(area := Apply(s.area, op))
    case Publish(path, h, file, bytes) =>
      // A file that lost the race to another seeding of the upload is discarded.
      var b := Apply(s.area, OpPublish(path, h, file));
      s.(area := b, files := if path !in s.area.staged && path in b.staged then s.files[path := bytes] else s.files)
    case Begin(path, chunk) =>
      var b := Apply(s.area, OpReserve(path, |chunk|));
      s.(area := b,
         writing := if path in b.appending && path in s.area.staged then s.writing[path := Writing(s.area.staged[path].size, chunk, 0)]
                    else s.writing)
    case Write(path, n) =>
      var w := s.writing[path];
      s.(files := s.files[path := s.files[path] + w.chunk[w.written..w.written + n]],
         writing := s.writing[path := w.(written := w.written + n)])
    case Succeed(path) => s.(area := Apply(s.area, OpCommit(path)), writing := s.writing - {path})
    case Fail(path, truncated) =>
      Space(Apply(s.area, OpRollBack(path)),
            if truncated then s.files[path := StagedUpload.SetLen(s.files[path], s.writing[path].base)] else s.files,
            s.writing - {path})
    case Remove(path) => s.(area := Apply(s.area, OpUnstage(path)), files := s.files - {path})
  }

  // ---- The invariant ----

  /** Between appends a file is as long as recorded; in an append it is at most that. */
  ghost predicate FileFits(s: Space, p: Path) {
    && p in s.area.staged && p in s.files && (p in s.writing <==> p in s.area.appending)
    && (if p in s.writing && p in s.area.appending then
          var w := s.writing[p];
          && s.area.appending[p].amount == |w.chunk| && w.written <= |w.chunk|
          && s.area.staged[p].size == w.base + |w.chunk| && |s.files[p]| == w.base + w.written
        else |s.files[p]| == s.area.staged[p].size)
  }

  ghost predicate Fits(s: Space) {
    && Inv(s.area) && s.files.Keys == s.area.staged.Keys && s.writing.Keys == s.area.appending.Keys
    && forall p | p in s.area.staged :: FileFits(s, p)
  }

  /** Nothing but the upload of this path has changed. */
  ghost predicate OnlyAt(s: Space, z: Space, q: Path) {
    && z.area.staged - {q} == s.area.staged - {q} && z.area.appending - {q} == s.area.appending - {q}
    && z.files - {q} == s.files - {q} && z.writing - {q} == s.writing - {q}
  }

  lemma AgreeElsewhere<V>(m: map<Path, V>, n: map<Path, V>, q: Path)
    requires n - {q} == m - {q}
    ensures forall p | p != q :: (p in n <==> p in m) && (p in m ==> n[p] == m[p])
  {
    forall p | p != q ensures (p in n <==> p in m) && (p in m ==> n[p] == m[p]) {
      assert p in m <==> p in m - {q};
      assert p in n <==> p in n - {q};
      assert p in m ==> (m - {q})[p] == m[p] && (n - {q})[p] == n[p];
    }
  }

  lemma OnlyAtKeepsFits(s: Space, z: Space, q: Path)
    requires Fits(s) && OnlyAt(s, z, q) && Inv(z.area)
    requires q in z.area.staged <==> q in z.files
    requires q in z.writing <==> q in z.area.appending
    requires q in z.area.staged ==> FileFits(z, q)
    ensures Fits(z)
  {
    hide Inv;
    AgreeElsewhere(s.area.staged, z.area.staged, q);
    AgreeElsewhere(s.area.appending, z.area.appending, q);
    AgreeElsewhere(s.files, z.files, q);
    AgreeElsewhere(s.writing, z.writing, q);
    forall p ensures (p in z.files <==> p in z.area.staged) && (p in z.writing <==> p in z.area.appending) {
      assert p in s.files.Keys <==> p in s.area.staged.Keys;
      assert p in s.writing.Keys <==> p in s.area.appending.Keys;
    }
    forall p | p in z.area.staged ensures FileFits(z, p) {
      assert p != q ==> FileFits(s, p);
    }
  }

  lemma FitsAt(s: Space, p: Path)
    requires Fits(s)
    ensures (p in s.files <==> p in s.area.staged) && (p in s.writing <==> p in s.area.appending)
    ensures p in s.area.staged ==> FileFits(s, p)
  {
    hide Inv;
    hide FileFits;
    assert p in s.files.Keys <==> p in s.area.staged.Keys;
    assert p in s.writing.Keys <==> p in s.area.appending.Keys;
  }

  lemma ApplyIsInv(a: Area, op: Op)
    requires Inv(a) && Allowed(a, op) && ExactCast(op)
    ensures Inv(Apply(a, op))
  {
    hide Inv;
    ApplyKeeps(a, op);
  }

  lemma ElsewhereFits(s: Space, op: Op)
    requires Fits(s) && Possible(s, Elsewhere(op))
    ensures Fits(Next(s, Elsewhere(op)))
  {
    hide Inv;
    ApplyIsInv(s.area, op);
    if op.OpLetGo? && op.h in s.area.held {
      DropAllKeepsEntries(s.area.(held := s.area.held - {op.h}), s.area.held[op.h].permits);
    }
    var z := Next(s, Elsewhere(op));
    assert z.area.staged == s.area.staged && z.area.appending == s.area.appending;
    hide Next;
    hide Possible;
    forall p | p in z.area.staged ensures FileFits(z, p) {
      assert FileFits(s, p);
    }
  }

  lemma PublishEntry(a: Area, path: Path, h: nat, file: nat)
    requires h in a.held
    ensures var b := PublishStaging(a, path, h, file);
      && b.appending == a.appending && b.staged - {path} == a.staged - {path}
      && (path in a.staged ==> b.staged == a.staged)
      && (path !in a.staged && path in b.staged ==> b.staged[path].size == a.held[h].size)
  {
    DropAllKeepsEntries(a.(held := a.held - {h}), a.held[h].permits);
    hide DropAll;
    hide Units;
  }

  lemma PublishFits(s: Space, m: Move)
    requires m.Publish? && Fits(s) && Possible(s, m)
    ensures Fits(Next(s, m))
  {
    hide Inv;
    ApplyIsInv(s.area, OpPublish(m.path, m.h, m.file));
    PublishEntry(s.area, m.path, m.h, m.file);
    hide PublishStaging;
    FitsAt(s, m.path);
    hide Fits;
    var z := Next(s, m);
    assert z.area == PublishStaging(s.area, m.path, m.h, m.file);
    hide Apply;
    assert OnlyAt(s, z, m.path) && Inv(z.area);
    assert (m.path in z.area.staged <==> m.path in z.files) && (m.path in z.writing <==> m.path in z.area.appending);
    assert m.path in z.area.staged ==> FileFits(z, m.path);
    hide Next;
    hide Possible;
    hide OnlyAt;
    hide FileFits;
    OnlyAtKeepsFits(s, z, m.path);
  }

  /** Within the bounds of the exact casts, a reservation's size does not saturate. */
  lemma ReservedSize(a: Area, path: Path, additional: nat)
    requires Inv(a) && path in a.staged && additional < EXACT_CAST_BYTES && Reserve(a, path, additional).1.Some?
    ensures var b := Reserve(a, path, additional).0;
      path in b.staged && b.staged[path].size == a.staged[path].size + additional
  {
    hide Inv;
    ReservedEntry(a, path, additional);
    StagedIsSmall(a, path);
    hide Reserve;
    hide Units;
    hide Backed;
  }

  lemma BeginEntry(s: Space, path: Path, chunk: Bytes)
    requires Inv(s.area) && Possible(s, Begin(path, chunk))
    ensures var b := Apply(s.area, OpReserve(path, |chunk|));
      && b.staged - {path} == s.area.staged - {path} && b.appending - {path} == s.area.appending - {path}
      && (if path in b.appending then
            && path in s.area.staged && path in b.staged && b.staged[path].size == s.area.staged[path].size + |chunk|
            && b.appending[path].amount == |chunk|
          else b == s.area)
  {
    hide Inv;
    hide Reserve;
    ReserveKeepsOthers(s.area, path, |chunk|);
    NotReserved(s.area, path, |chunk|);
    if path in s.area.staged && Reserve(s.area, path, |chunk|).1.Some? {
      ReservedSize(s.area, path, |chunk|);
    }
  }

  lemma NotReserved(a: Area, path: Path, additional: nat)
    ensures Reserve(a, path, additional).1.None? ==> Reserve(a, path, additional).0 == a
    ensures path !in a.staged ==> Reserve(a, path, additional).1.None?
  {
    hide Units;
  }

  lemma BeginFits(s: Space, path: Path, chunk: Bytes)
    requires Fits(s) && Possible(s, Begin(path, chunk))
    ensures Fits(Next(s, Begin(path, chunk)))
  {
    hide Inv;
    ApplyIsInv(s.area, OpReserve(path, |chunk|));
    BeginEntry(s, path, chunk);
    var z := Next(s, Begin(path, chunk));
    assert path in s.files.Keys <==> path in s.area.staged.Keys;
    assert path in s.writing.Keys <==> path in s.area.appending.Keys;
    assert path in s.area.staged ==> FileFits(s, path);
    hide Apply;
    if path in z.area.appending {
      OnlyAtKeepsFits(s, z, path);
    }
  }

  lemma WriteFits(s: Space, path: Path, n: nat)
    requires Fits(s) && Possible(s, Write(path, n))
    ensures Fits(Next(s, Write(path, n)))
  {
    hide Inv;
    var z := Next(s, Write(path, n));
    assert path in s.writing.Keys && path in s.files.Keys && FileFits(s, path);
    OnlyAtKeepsFits(s, z, path);
  }

  lemma SucceedFits(s: Space, path: Path)
    requires Fits(s) && Possible(s, Succeed(path))
    ensures Fits(Next(s, Succeed(path)))
  {
    hide Inv;
    ApplyIsInv(s.area, OpCommit(path));
    InProgress(s, path);
    OnlyAtKeepsFits(s, Next(s, Succeed(path)), path);
  }

  lemma InProgress(s: Space, path: Path)
    requires Fits(s) && path in s.area.appending
    ensures path in s.area.staged && path in s.writing && path in s.files && FileFits(s, path)
  {
    assert path in s.area.staged && path in s.writing.Keys && path in s.files.Keys;
  }

  lemma FailEntry(a: Area, path: Path)
    requires path in a.staged && path in a.appending
    ensures var b := Apply(a, OpRollBack(path));
      && b.staged - {path} == a.staged - {path} && b.appending == a.appending - {path}
      && path in b.staged && b.staged[path].size == SatSub(a.staged[path].size, a.appending[path].amount)
  {
    var r := a.appending[path];
    ReleaseKeepsOthers(a, path, r.amount, r.units);
    hide InUse;
  }

  lemma FailFits(s: Space, path: Path, truncated: bool)
    requires Fits(s) && Possible(s, Fail(path, truncated)) && !Tears(s, Fail(path, truncated))
    ensures Fits(Next(s, Fail(path, truncated)))
  {
    hide Inv;
    ApplyIsInv(s.area, OpRollBack(path));
    InProgress(s, path);
    FailEntry(s.area, path);
    hide Apply;
    var z := Next(s, Fail(path, truncated));
    assert z.area == Apply(s.area, OpRollBack(path)) && z.writing == s.writing - {path};
    assert |z.files[path]| == s.writing[path].base;
    OnlyAtKeepsFits(s, z, path);
  }

  lemma RemoveFits(s: Space, path: Path)
    requires Fits(s) && Possible(s, Remove(path))
    ensures Fits(Next(s, Remove(path)))
  {
    hide Inv;
    ApplyIsInv(s.area, OpUnstage(path));
    if path in s.area.staged {
      DropAllKeepsEntries(s.area.(staged := s.area.staged - {path}), s.area.staged[path].permits);
    }
    assert path in s.writing.Keys <==> path in s.area.appending.Keys;
    hide DropAll;
    OnlyAtKeepsFits(s, Next(s, Remove(path)), path);
  }

  lemma NextFits(s: Space, m: Move)
    requires Fits(s) && Possible(s, m) && !Tears(s, m)
    ensures Fits(Next(s, m))
  {
    hide *;
    match m
    case Elsewhere(op) => ElsewhereFits(s, op);
    case Publish(_, _, _, _) => PublishFits(s, m);
    case Begin(path, chunk) => BeginFits(s, path, chunk);
    case Write(path, n) => WriteFits(s, path, n);
    case Succeed(path) => SucceedFits(s, path);
    case Fail(path, truncated) => FailFits(s, path, truncated);
    case Remove(path) => RemoveFits(s, path);
  }

  // ---- Over whole runs ----

  function Start(): Space {
    Space(Empty(), map[], map[])
  }

  /** The state after a run none of whose appends tears its file, or nothing. */
  function Whole(s: Space, moves: seq<Move>): Option<Space>
    decreases |moves|
  {
    if moves == [] then Some(s)
    else if Possible(s, moves[0]) && !Tears(s, moves[0]) then Whole(Next(s, moves[0]), moves[1..])
    else None
  }

  lemma {:induction false} WholeFits(s: Space, moves: seq<Move>)
    requires Fits(s) && Whole(s, moves).Some?
    ensures Fits(Whole(s, moves).value)
    decreases |moves|
  {
    hide Fits;
    hide Possible;
    hide Next;
    if moves != [] {
      NextFits(s, moves[0]);
      WholeFits(Next(s, moves[0]), moves[1..]);
    }
  }

  ghost function Lengths(files: map<Path, Bytes>): map<Path, nat> {
    map p | p in files :: |files[p]|
  }

  lemma {:induction false} MapSumMono(m: map<Path, nat>, n: map<Path, nat>)
    requires m.Keys == n.Keys && forall p | p in m :: m[p] <= n[p]
    ensures MapSum(m) <= MapSum(n)
    decreases |m|
  {
    hide MapSum;
    if m != map[] {
      var p :| p in m;
      assert p in n.Keys;
      MapSumRemove(m, p);
      MapSumRemove(n, p);
      MapSumMono(m - {p}, n - {p});
    } else {
      assert n == map[] by {
        assert n.Keys == {};
      }
    }
  }

  lemma FilesWithinSizes(z: Space)
    requires Fits(z)
    ensures MapSum(Lengths(z.files)) <= MapSum(Sizes(z.area.staged))
  {
    hide Inv;
    forall p | p in Lengths(z.files) ensures p in Sizes(z.area.staged) && Lengths(z.files)[p] <= Sizes(z.area.staged)[p] {
      assert p in z.files.Keys && FileFits(z, p);
    }
    assert Lengths(z.files).Keys == z.files.Keys && Sizes(z.area.staged).Keys == z.area.staged.Keys;
    MapSumMono(Lengths(z.files), Sizes(z.area.staged));
  }

  lemma LoanCovers(a: Area)
    requires Inv(a)
    ensures a.available <= TOTAL_PERMITS
    ensures MapSum(Sizes(a.staged)) <= BytesOf(TOTAL_PERMITS - a.available) <= MAX_STAGED_BYTES
  {
    SizesWithinPermits(a.live, a.staged);
    hide HoldersOk;
    hide EntriesBacked;
    hide Undoable;
    hide InUse;
  }

  lemma StartFits()
    ensures Fits(Start())
  {
  }

  /** The files of the staged uploads together, writes in progress included, never take more than the permits on loan stand for. */
  lemma FilesStayWithinBudget(moves: seq<Move>)
    requires Whole(Start(), moves).Some?
    ensures var z := Whole(Start(), moves).value;
      && z.files.Keys == z.area.staged.Keys
      && z.area.available <= TOTAL_PERMITS
      && MapSum(Lengths(z.files)) <= BytesOf(TOTAL_PERMITS - z.area.available) <= MAX_STAGED_BYTES
  {
    hide Inv;
    hide Whole;
    hide Start;
    hide FileFits;
    StartFits();
    WholeFits(Start(), moves);
    var z := Whole(Start(), moves).value;
    FilesWithinSizes(z);
    LoanCovers(z.area);
  }

  /** After a failed append a file is as long as recorded exactly when the failure did not tear it, and never shorter. */
  lemma FailedFileFitsIff(s: Space, path: Path, truncated: bool)
    requires Fits(s) && Possible(s, Fail(path, truncated))
    ensures var z := Next(s, Fail(path, truncated));
      && path in z.files && path in z.area.staged && z.area.staged[path].size <= |z.files[path]|
      && (|z.files[path]| == z.area.staged[path].size <==> !Tears(s, Fail(path, truncated)))
  {
    hide Inv;
    InProgress(s, path);
    FailEntry(s.area, path);
    hide Apply;
  }

  /** The budget of an upload that has reserved its first bytes. */
  function Reserved(n: nat): Area {
    Area(TOTAL_PERMITS - 1, map[0 := 1], map["u" := Staged(0, n, [Permit(0, 1)], 1)], map[], map["u" := Reservation(n, 1)], 1)
  }

  lemma ReserveFirst(n: nat)
    requires 0 < n <= 1_048_576
    ensures Apply(Begun(), OpReserve("u", n)) == Reserved(n)
  {
    assert Units(n) == 1 && Truncate32(1) == 1;
    hide Units;
    assert [] + [Permit(0, 1)] == [Permit(0, 1)];
  }

  lemma ReturnFirst(n: nat)
    ensures Apply(Reserved(n), OpRollBack("u")) == Area(TOTAL_PERMITS, map[], map["u" := Staged(0, 0, [], 0)], map[], map[], 1)
  {
    var b := Popped(Reserved(n), "u", Reservation(n, 1));
    assert b.staged == map["u" := Staged(0, 0, [], 0)] && Ids([]) == {};
    assert !InUse(b, 0);
    assert Release(Reserved(n), "u", n, 1) == DropOne(b, Permit(0, 1));
  }

  /** A torn file can exceed what is on loan: here bytes are left and every permit is back. */
  lemma TornFileExceeds(chunk: Bytes)
    requires 0 < |chunk| <= 1_048_576
    ensures var s := Space(Begun(), map["u" := []], map[]);
      && Fits(s) && Possible(s, Begin("u", chunk))
      && var s1 := Next(s, Begin("u", chunk));
      && Possible(s1, Write("u", |chunk|))
      && var s2 := Next(s1, Write("u", |chunk|));
      && Possible(s2, Fail("u", false))
      && var z := Next(s2, Fail("u", false));
      z.area.available == TOTAL_PERMITS && MapSum(Lengths(z.files)) == |chunk|
  {
    hide Inv;
    hide Apply;
    hide Fits;
    var s := Space(Begun(), map["u" := []], map[]);
    BegunFits();
    ReserveFirst(|chunk|);
    ReturnFirst(|chunk|);
    assert [] + chunk[0..|chunk|] == chunk;
    var z := Next(Next(Next(s, Begin("u", chunk)), Write("u", |chunk|)), Fail("u", false));
    assert z.files == map["u" := chunk];
    OneFile("u", chunk);
  }

  lemma OneFile(path: Path, bytes: Bytes)
    ensures MapSum(Lengths(map[path := bytes])) == |bytes|
  {
    assert Lengths(map[path := bytes]) == map[][path := |bytes|];
    MapSumInsert(map[], path, |bytes|);
  }

  lemma BegunFits()
    ensures Fits(Space(Begun(), map["u" := []], map[]))
  {
    BegunIsInv();
    hide Inv;
  }

  lemma BegunIsInv()
    ensures Inv(Begun())
  {
    TruncatedReservation();
  }

  /** The append of the machine up to its last move. */
  lemma AppendWrites(s: Space, path: Path, chunk: Bytes, n: nat)
    requires Fits(s) && path in s.area.staged && Possible(s, Begin(path, chunk)) && n <= |chunk|
    requires path in Next(s, Begin(path, chunk)).area.appending
    ensures path in s.files && path !in s.area.appending && |s.files[path]| == s.area.staged[path].size
    ensures var s1 := Next(s, Begin(path, chunk));
      && Possible(s1, Write(path, n))
      && var s2 := Next(s1, Write(path, n));
      && path in s2.area.staged && path in s2.area.appending && path in s2.files && path in s2.writing
      && s2.files[path] == s.files[path] + chunk[..n]
      && s2.writing[path] == Writing(s.area.staged[path].size, chunk, n)
      && s2.area.staged[path].size == s.area.staged[path].size + |chunk| && s2.area.appending[path].amount == |chunk|
  {
    hide Inv;
    hide Apply;
    FitsAt(s, path);
    BeginEntry(s, path, chunk);
    BeginFits(s, path, chunk);
    InProgress(Next(s, Begin(path, chunk)), path);
    assert chunk[0..0 + n] == chunk[..n];
  }

  /** The moves of one append do to file and size what `StagedUpload.AppendTo` does. */
  lemma AppendIsMoves(s: Space, path: Path, chunk: Bytes, ending: StagedUpload.Ending)
    requires Fits(s) && path in s.area.staged && Possible(s, Begin(path, chunk)) && !ending.OverBudget?
    requires path in Next(s, Begin(path, chunk)).area.appending
    requires ending.Interrupted? ==> ending.written <= |chunk|
    ensures path in s.files
    ensures var n := if ending.Interrupted? then ending.written else |chunk|;
      var last := if ending.Interrupted? then Fail(path, ending.truncated) else Succeed(path);
      var s1 := Next(s, Begin(path, chunk));
      && Possible(s1, Write(path, n)) && Possible(Next(s1, Write(path, n)), last)
      && var z := Next(Next(s1, Write(path, n)), last);
      && path in z.files && path in z.area.staged
      && StagedUpload.Staging(z.files[path], z.area.staged[path].size, None) ==
         StagedUpload.AppendTo(StagedUpload.Staging(s.files[path], s.area.staged[path].size, None), chunk, ending)
  {
    var n := if ending.Interrupted? then ending.written else |chunk|;
    AppendWrites(s, path, chunk, n);
    var s2 := Next(Next(s, Begin(path, chunk)), Write(path, n));
    FailEntry(s2.area, path);
    hide Fits;
    hide Release;
    hide Reserve;
    assert chunk[..|chunk|] == chunk;
    LastMove(s2, path, ending);
  }

  /** The last move of an append. */
  lemma LastMove(s2: Space, path: Path, ending: StagedUpload.Ending)
    requires path in s2.area.staged && path in s2.area.appending && path in s2.files && path in s2.writing
    requires s2.writing[path].written == if ending.Interrupted? then ending.written else |s2.writing[path].chunk|
    ensures var last := if ending.Interrupted? then Fail(path, ending.truncated) else Succeed(path);
      && Possible(s2, last)
      && var z := Next(s2, last);
      && path in z.files && path in z.area.staged
      && z.files[path] == (if ending.Interrupted? && ending.truncated then StagedUpload.SetLen(s2.files[path], s2.writing[path].base) else s2.files[path])
      && z.area.staged[path].size ==
           if ending.Interrupted? then SatSub(s2.area.staged[path].size, s2.area.appending[path].amount) else s2.area.staged[path].size
  {
    FailEntry(s2.area, path);
    hide Release;
  }

  // ---- Undisturbed uploads ----

  lemma {:induction false} WholeJoins(s: Space, a: seq<Move>, b: seq<Move>)
    requires Whole(s, a).Some?
    ensures Whole(s, a + b) == Whole(Whole(s, a).value, b)
    decreases |a|
  {
    hide Next;
    hide Possible;
    hide Tears;
    if a == [] {
      assert a + b == b;
    } else {
      assert (a + b)[0] == a[0] && (a + b)[1..] == a[1..] + b;
      WholeJoins(Next(s, a[0]), a[1..], b);
    }
  }

  lemma WholeOfOne(s: Space, m: Move)
    requires Possible(s, m) && !m.Fail?
    ensures Whole(s, [m]) == Some(Next(s, m))
  {
    hide Next;
    hide Possible;
    assert Whole(Next(s, m), []) == Some(Next(s, m));
  }

  lemma WholeOfTwo(s: Space, m: Move, n: Move)
    requires Possible(s, m) && Possible(Next(s, m), n) && !m.Fail? && !n.Fail?
    ensures Whole(s, [m, n]) == Some(Next(Next(s, m), n))
  {
    hide Next;
    hide Possible;
    WholeOfOne(s, m);
    WholeOfOne(Next(s, m), n);
    WholeJoins(s, [m], [n]);
    assert [m] + [n] == [m, n];
  }

  function Seeding(path: Path, h: nat, file: nat, bytes: Bytes): seq<Move> {
    [Elsewhere(OpHold(h, |bytes|)), Publish(path, h, file, bytes)]
  }

  function Appending(path: Path, chunk: Bytes): seq<Move> {
    [Begin(path, chunk), Write(path, |chunk|)] + [Succeed(path)]
  }

  lemma SeedingRuns(s: Space, path: Path, h: nat, file: nat, bytes: Bytes)
    requires path !in s.area.staged && path !in s.area.appending && h !in s.area.held && |s.area.staged| < MAX_STAGED_UPLOADS
    requires Units(|bytes|) <= s.area.available && Units(|bytes|) < TWO_32 && |bytes| < EXACT_CAST_BYTES
    ensures Whole(s, Seeding(path, h, file, bytes)).Some?
    ensures var z := Whole(s, Seeding(path, h, file, bytes)).value;
      && z.files == s.files[path := bytes] && z.writing == s.writing
      && z.area == Apply(Apply(s.area, OpHold(h, |bytes|)), OpPublish(path, h, file))
      && StagedFresh(s.area, z.area, path, file, |bytes|) && z.area.appending == s.area.appending
  {
    HoldsFresh(s.area, h, |bytes|);
    StagingBudget.LifeBegins(s.area, path, h, |bytes|, file);
    hide Units;
    hide Apply;
    hide Allowed;
    hide LaterThan;
    WholeOfTwo(s, Elsewhere(OpHold(h, |bytes|)), Publish(path, h, file, bytes));
    hide Whole;
  }

  lemma AppendingRuns(s: Space, a: Area, path: Path, file: nat, bytes: Bytes, chunk: Bytes)
    requires StagedFresh(a, s.area, path, file, |bytes|) && path !in s.area.appending && path !in s.writing
    requires path in s.files && s.files[path] == bytes && |chunk| < EXACT_CAST_BYTES && |bytes| + |chunk| <= U64_MAX
    requires Units(|bytes|) <= Units(|bytes| + |chunk|) <= a.available && Units(|bytes| + |chunk|) < TWO_32
    ensures Whole(s, Appending(path, chunk)).Some?
    ensures var z := Whole(s, Appending(path, chunk)).value;
      && z.files == s.files[path := bytes + chunk] && z.writing == s.writing
      && z.area == Apply(Apply(s.area, OpReserve(path, |chunk|)), OpCommit(path))
  {
    ReservesFresh(s.area, path, |chunk|);
    hide Units;
    hide Apply;
    hide Allowed;
    hide LaterThan;
    assert chunk[0..|chunk|] == chunk;
    assert s.writing - {path} == s.writing;
    WholeOfTwo(s, Begin(path, chunk), Write(path, |chunk|));
    var s2 := Next(Next(s, Begin(path, chunk)), Write(path, |chunk|));
    WholeOfOne(s2, Succeed(path));
    WholeJoins(s, [Begin(path, chunk), Write(path, |chunk|)], [Succeed(path)]);
    hide Whole;
  }

  /** The area after an upload's life up to its removal, and after it. */
  lemma AreaLife(a: Area, path: Path, h: nat, file: nat, size: nat, n: nat, b: Area)
    requires Inv(a) && path !in a.staged && h !in a.held && |a.staged| < MAX_STAGED_UPLOADS && Units(size + n) <= a.available
    requires b == Apply(Apply(Apply(Apply(a, OpHold(h, size)), OpPublish(path, h, file)), OpReserve(path, n)), OpCommit(path))
    ensures b.available == a.available - Units(size + n) && path in b.staged && b.staged[path].size == size + n
    ensures Allowed(b, OpUnstage(path)) && var z := Apply(b, OpUnstage(path)); z.available == a.available && z.staged == a.staged
  {
    var ops := Life(path, h, size, file, n);
    UndisturbedLife(a, path, h, size, file, n);
    hide Apply;
    hide Allowed;
    hide Inv;
    hide Units;
    FiveOps(a, ops);
    hide Run;
    hide AllowedRun;
  }

  lemma RemovalRuns(s: Space, a: Area, path: Path)
    requires Allowed(s.area, OpUnstage(path))
    requires var z := Apply(s.area, OpUnstage(path)); z.available == a.available && z.staged == a.staged
    ensures Whole(s, [Remove(path)]).Some? && var z := Whole(s, [Remove(path)]).value;
      z.files == s.files - {path} && z.writing == s.writing && z.area.available == a.available && z.area.staged == a.staged
  {
    hide Apply;
    hide Allowed;
    WholeOfOne(s, Remove(path));
  }

  lemma FileComesAndGoes(files: map<Path, Bytes>, path: Path, first: Bytes, last: Bytes)
    requires path !in files
    ensures files[path := first][path := last] == files[path := last] && files[path := last] - {path} == files
  {
  }

  /**
   An upload that nothing disturbs and that has room holds all its bytes once it is seeded and appended to, on as many
   permits as they need, and leaves neither file nor loan when it is removed.
   */
  lemma UndisturbedUpload(s: Space, path: Path, h: nat, file: nat, bytes: Bytes, chunk: Bytes)
    requires Fits(s) && path !in s.area.staged && h !in s.area.held && |s.area.staged| < MAX_STAGED_UPLOADS
    requires Units(|bytes| + |chunk|) <= s.area.available
    ensures var moves := Seeding(path, h, file, bytes) + Appending(path, chunk);
      && Whole(s, moves).Some? && var b := Whole(s, moves).value;
      && b.files == s.files[path := bytes + chunk] && path in b.area.staged && b.area.staged[path].size == |bytes| + |chunk|
      && b.area.available == s.area.available - Units(|bytes| + |chunk|)
      && Whole(b, [Remove(path)]).Some? && var z := Whole(b, [Remove(path)]).value;
      && z.files == s.files && z.writing == s.writing && z.area.staged == s.area.staged && z.area.available == s.area.available
  {
    assert path !in s.area.appending && path !in s.writing && path !in s.files.Keys && s.area.available <= TOTAL_PERMITS && Inv(s.area);
    UnitsGrow(|bytes|, |chunk|);
    hide Fits;
    hide Inv;
    hide Units;
    hide Whole;
    hide Apply;
    hide Allowed;
    SeedingRuns(s, path, h, file, bytes);
    hide Seeding;
    var s2 := Whole(s, Seeding(path, h, file, bytes)).value;
    AppendingRuns(s2, s.area, path, file, bytes, chunk);
    hide Appending;
    hide StagedFresh;
    WholeJoins(s, Seeding(path, h, file, bytes), Appending(path, chunk));
    var b := Whole(s2, Appending(path, chunk)).value;
    AreaLife(s.area, path, h, file, |bytes|, |chunk|, b.area);
    RemovalRuns(b, s.area, path);
    FileComesAndGoes(s.files, path, bytes, bytes + chunk);
  }
}
