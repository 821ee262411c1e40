/**
 `get_path_for_creation`: a path may not be created below a concrete object. Every ancestor is probed, except those
 a bounded memo remembers as free; creating an object takes its path out of the memo. Calls are whole steps here.
 */
module CreationProbes {
  import opened Basics
  import opened StoragePaths
  import Lru

  type Key = string

  type Memo = seq<(Key, ())>

  const CAPACITY: nat := 4096

  datatype Collision = PathCollision(path: StoragePath, conflictsWith: StoragePath)

  // ---- The walk ----

  /** The walk that probes every ancestor. `key` and `conflicting` are what was built so far. */
  function PlainWalk(objects: set<Key>, location: StoragePath, key: Key, conflicting: StoragePath, parts: seq<string>): Result<Key, Collision>
    decreases |parts|
  {
    if parts == [] then Ok(key)
    else
      var next := key + "/" + parts[0];
      var path := Push(conflicting, parts[0]);
      if |parts| > 1 && next in objects then Err(PathCollision(location, path))
      else PlainWalk(objects, location, next, path, parts[1..])
  }

  /** The walk of the source, which skips the ancestors in the memo and remembers those it found free. */
  function MemoWalk(objects: set<Key>, memo: Memo, location: StoragePath, key: Key, conflicting: StoragePath, parts: seq<string>)
    : (Memo, Result<Key, Collision>)
    decreases |parts|
  {
    if parts == [] then (memo, Ok(key))
    else
      var next := key + "/" + parts[0];
      var path := Push(conflicting, parts[0]);
      if |parts| > 1 && Lru.Find(memo, next).None? then
        if next in objects then (memo, Err(PathCollision(location, path)))
        else MemoWalk(objects, Lru.Put(memo, CAPACITY, next, ()), location, next, path, parts[1..])
      else MemoWalk(objects, memo, location, next, path, parts[1..])
  }

  function Root(): StoragePath {
    StoragePath([], None)
  }

  function PathForCreation(objects: set<Key>, memo: Memo, repository: Key, location: StoragePath): (Memo, Result<Key, Collision>) {
    MemoWalk(objects, memo, location, repository, Root(), location.components)
  }

  function PlainPathForCreation(objects: set<Key>, repository: Key, location: StoragePath): Result<Key, Collision> {
    PlainWalk(objects, location, repository, Root(), location.components)
  }

  /** The memo of a bounded cache, all of whose paths are free of concrete objects. */
  ghost predicate Truthful(objects: set<Key>, memo: Memo) {
    Lru.Distinct(memo) && |memo| <= CAPACITY && forall e | e in memo :: e.0 !in objects
  }

  /** On a truthful memo the walk of the source decides as the plain one, and leaves the memo truthful. */
  lemma {:induction false} MemoWalkIsPlain(objects: set<Key>, memo: Memo, location: StoragePath, key: Key, conflicting: StoragePath, parts: seq<string>)
    requires Truthful(objects, memo)
    ensures MemoWalk(objects, memo, location, key, conflicting, parts).1 == PlainWalk(objects, location, key, conflicting, parts)
    ensures Truthful(objects, MemoWalk(objects, memo, location, key, conflicting, parts).0)
    decreases |parts|
  {
    if parts != [] {
      var next := key + "/" + parts[0];
      var path := Push(conflicting, parts[0]);
      if |parts| > 1 && Lru.Find(memo, next).None? {
        if next !in objects {
          Lru.PutKeeps(memo, CAPACITY, next, ());
          MemoWalkIsPlain(objects, Lru.Put(memo, CAPACITY, next, ()), location, next, path, parts[1..]);
        }
      } else {
        assert Lru.Find(memo, next).Some? ==> (next, Lru.Find(memo, next).value) in memo;
        MemoWalkIsPlain(objects, memo, location, next, path, parts[1..]);
      }
    }
  }

  /** The key of the first components of a path. */
  function AncestorKey(key: Key, parts: seq<string>, n: nat): Key
    requires n <= |parts|
    decreases n
  {
    if n == 0 then key else AncestorKey(key + "/" + parts[0], parts[1..], n - 1)
  }

  /** It is the text of those components below the repository. */
  lemma {:induction false} AncestorKeyText(key: Key, parts: seq<string>, n: nat)
    requires 0 < n <= |parts|
    ensures AncestorKey(key, parts, n) == key + "/" + Join(parts[..n])
    decreases n
  {
    var next := key + "/" + parts[0];
    if n == 1 {
      assert AncestorKey(next, parts[1..], 0) == next;
      assert parts[..1] == [parts[0]];
    } else {
      AncestorKeyText(next, parts[1..], n - 1);
      assert parts[..n][1..] == parts[1..][..n - 1];
      assert next + "/" + Join(parts[1..][..n - 1]) == key + "/" + (parts[0] + "/" + Join(parts[1..][..n - 1]));
    }
  }

  function PushAll(p: StoragePath, parts: seq<string>): StoragePath
    decreases |parts|
  {
    if parts == [] then p else PushAll(Push(p, parts[0]), parts[1..])
  }

  /**
   What the plain walk decides: it accepts exactly when no proper ancestor is a concrete object, and otherwise names
   the shortest one that is.
   */
  lemma {:induction false} PlainWalkMeaning(objects: set<Key>, location: StoragePath, key: Key, conflicting: StoragePath, parts: seq<string>)
    ensures var r := PlainWalk(objects, location, key, conflicting, parts);
      && (r.Ok? <==> AllFree(objects, key, parts))
      && (r.Ok? ==> r.value == AncestorKey(key, parts, |parts|))
      && (r.Err? ==> exists n | 0 < n < |parts| :: Shortest(objects, key, parts, n)
                       && r.error == PathCollision(location, PushAll(conflicting, parts[..n])))
    decreases |parts|
  {
    if parts != [] {
      var next := key + "/" + parts[0];
      var path := Push(conflicting, parts[0]);
      var r := PlainWalk(objects, location, key, conflicting, parts);
      assert forall n | 0 < n <= |parts| :: AncestorKey(key, parts, n) == AncestorKey(next, parts[1..], n - 1);
      assert AncestorKey(next, parts[1..], 0) == next;
      if |parts| > 1 && next in objects {
        assert AncestorKey(key, parts, 1) == next;
        NotFree(objects, key, parts, 1);
        assert PushAll(conflicting, parts[..1]) == path by {
          assert parts[..1] == [parts[0]] && [parts[0]][1..] == [];
        }
        assert Shortest(objects, key, parts, 1);
      } else {
        PlainWalkMeaning(objects, location, next, path, parts[1..]);
        if r.Err? {
          var n :| 0 < n < |parts[1..]| && Shortest(objects, next, parts[1..], n)
                   && r.error == PathCollision(location, PushAll(path, parts[1..][..n]));
          assert parts[..n + 1][1..] == parts[1..][..n];
          assert Shortest(objects, key, parts, n + 1);
          NotFree(objects, key, parts, n + 1);
        } else {
          forall n | 0 < n < |parts| ensures AncestorKey(key, parts, n) !in objects {
            assert n > 1 ==> AncestorKey(next, parts[1..], n - 1) !in objects;
          }
        }
      }
    }
  }

  ghost predicate AllFree(objects: set<Key>, key: Key, parts: seq<string>) {
    forall n | 0 < n < |parts| :: AncestorKey(key, parts, n) !in objects
  }

  lemma NotFree(objects: set<Key>, key: Key, parts: seq<string>, n: nat)
    requires 0 < n < |parts| && AncestorKey(key, parts, n) in objects
    ensures !AllFree(objects, key, parts)
  {
  }

  ghost predicate Shortest(objects: set<Key>, key: Key, parts: seq<string>, n: nat)
    requires n <= |parts|
  {
    AncestorKey(key, parts, n) in objects && forall m | 0 < m < n :: AncestorKey(key, parts, m) !in objects
  }

  // ---- What the memo saves ----

  /** The key is among the first entries, up to index `i`. */
  ghost predicate Within(memo: Memo, k: Key, i: int) {
    exists j | 0 <= j <= i && j < |memo| :: memo[j].0 == k
  }

  lemma PutShiftsByOne(memo: Memo, k: Key, i: int, next: Key)
    requires Within(memo, k, i) && i + 1 < CAPACITY && Lru.Find(memo, next).None?
    ensures Within(Lru.Put(memo, CAPACITY, next, ()), k, i + 1)
  {
    var j :| 0 <= j <= i && j < |memo| && memo[j].0 == k;
    assert Lru.Put(memo, CAPACITY, next, ())[j + 1] == memo[j];
  }

  lemma {:induction false} WalkKeepsRecent(objects: set<Key>, memo: Memo, location: StoragePath, key: Key, conflicting: StoragePath, parts: seq<string>, k: Key, i: int)
    requires Within(memo, k, i) && i + |parts| <= CAPACITY
    ensures Lru.Find(MemoWalk(objects, memo, location, key, conflicting, parts).0, k).Some?
    decreases |parts|
  {
    if parts == [] {
      assert Lru.Holds(memo, k);
    } else {
      var next := key + "/" + parts[0];
      var path := Push(conflicting, parts[0]);
      if |parts| > 1 && Lru.Find(memo, next).None? {
        if next in objects {
          assert Lru.Holds(memo, k);
        } else {
          PutShiftsByOne(memo, k, i, next);
          WalkKeepsRecent(objects, Lru.Put(memo, CAPACITY, next, ()), location, next, path, parts[1..], k, i + 1);
        }
      } else {
        WalkKeepsRecent(objects, memo, location, next, path, parts[1..], k, i);
      }
    }
  }

  lemma {:induction false} AncestorIsLonger(key: Key, parts: seq<string>, n: nat)
    requires n <= |parts|
    ensures |AncestorKey(key, parts, n)| >= |key| + n
    decreases n
  {
    if n > 0 {
      AncestorIsLonger(key + "/" + parts[0], parts[1..], n - 1);
    }
  }

  /**
   A walk that accepts remembers each proper ancestor, unless it was remembered so long ago that the walk itself pushed it
   out.
   */
  lemma {:induction false} WalkRemembers(objects: set<Key>, memo: Memo, location: StoragePath, key: Key, conflicting: StoragePath, parts: seq<string>, n: nat)
    requires 0 < n < |parts| <= CAPACITY && MemoWalk(objects, memo, location, key, conflicting, parts).1.Ok?
    requires var k := AncestorKey(key, parts, n); Lru.Find(memo, k).None? || Within(memo, k, CAPACITY - |parts|)
    ensures Lru.Find(MemoWalk(objects, memo, location, key, conflicting, parts).0, AncestorKey(key, parts, n)).Some?
    decreases |parts|
  {
    var k := AncestorKey(key, parts, n);
    var next := key + "/" + parts[0];
    var path := Push(conflicting, parts[0]);
    assert k == AncestorKey(next, parts[1..], n - 1);
    var memo1 := if Lru.Find(memo, next).None? then Lru.Put(memo, CAPACITY, next, ()) else memo;
    if n == 1 {
      assert k == next;
      if Lru.Find(memo, next).None? {
        assert memo1[0].0 == k;
        WalkKeepsRecent(objects, memo1, location, next, path, parts[1..], k, 0);
      } else {
        WalkKeepsRecent(objects, memo1, location, next, path, parts[1..], k, CAPACITY - |parts|);
      }
    } else {
      AncestorIsLonger(next, parts[1..], n - 1);
      if Lru.Find(memo, k).None? {
        PutAddsOnly(memo, next, k);
      } else if Lru.Find(memo, next).None? {
        PutShiftsByOne(memo, k, CAPACITY - |parts|, next);
      } else {
        assert Within(memo1, k, CAPACITY - |parts[1..]|);
      }
      WalkRemembers(objects, memo1, location, next, path, parts[1..], n - 1);
    }
  }

  lemma PutAddsOnly(memo: Memo, next: Key, k: Key)
    requires k != next && Lru.Find(memo, k).None?
    ensures Lru.Find(Lru.Put(memo, CAPACITY, next, ()), k).None?
  {
    var l := Lru.Put(memo, CAPACITY, next, ());
    forall i | 0 <= i < |l| ensures l[i].0 != k {
      assert i > 0 ==> l[i] in memo;
    }
  }

  /** With all proper ancestors remembered, a walk asks nothing: it accepts whatever objects there are. */
  lemma {:induction false} RememberedWalk(objects: set<Key>, memo: Memo, location: StoragePath, key: Key, conflicting: StoragePath, parts: seq<string>)
    requires forall n | 0 < n < |parts| :: Lru.Find(memo, AncestorKey(key, parts, n)).Some?
    ensures MemoWalk(objects, memo, location, key, conflicting, parts) == (memo, Ok(AncestorKey(key, parts, |parts|)))
    decreases |parts|
  {
    if parts != [] {
      var next := key + "/" + parts[0];
      if |parts| > 1 {
        assert Lru.Find(memo, AncestorKey(key, parts, 1)).Some? && AncestorKey(key, parts, 1) == AncestorKey(next, parts[1..], 0);
      }
      forall n | 0 < n < |parts[1..]| ensures Lru.Find(memo, AncestorKey(next, parts[1..], n)).Some? {
        assert AncestorKey(key, parts, n + 1) == AncestorKey(next, parts[1..], n);
      }
      RememberedWalk(objects, memo, location, next, Push(conflicting, parts[0]), parts[1..]);
    }
  }

  /** So, with room in the memo, after one accepted walk the next to the same location is decided without asking S3. */
  lemma SecondWalkAsksNothing(objects: set<Key>, memo: Memo, repository: Key, location: StoragePath, later: set<Key>)
    requires |memo| + |location.components| <= CAPACITY && PathForCreation(objects, memo, repository, location).1.Ok?
    ensures var memo1 := PathForCreation(objects, memo, repository, location).0;
      PathForCreation(later, memo1, repository, location) ==
        (memo1, Ok(AncestorKey(repository, location.components, |location.components|)))
  {
    var parts := location.components;
    var memo1 := PathForCreation(objects, memo, repository, location).0;
    forall n | 0 < n < |parts| ensures Lru.Find(memo1, AncestorKey(repository, parts, n)).Some? {
      var k := AncestorKey(repository, parts, n);
      if Lru.Find(memo, k).Some? {
        var i :| 0 <= i < |memo| && memo[i].0 == k;
        assert Within(memo, k, CAPACITY - |parts|);
      }
      WalkRemembers(objects, memo, location, repository, Root(), parts, n);
    }
    RememberedWalk(later, memo1, location, repository, Root(), parts);
  }

  // ---- Whole calls ----

  /** S3's concrete objects, and the memo. */
  datatype State = State(objects: set<Key>, memo: Memo)

  /**
   `stored`, `copied` and `deleted` say whether S3 applied the request, whatever it answered; `answered`, whether
   `append_file` got the answer.
   */
  datatype Call =
    | SaveFile(repository: Key, location: StoragePath, stored: bool)
    | AppendFile(repository: Key, location: StoragePath, stored: bool, answered: bool)
    | AppendFileStaged(repository: Key, location: StoragePath)
    | MoveFile(from: Key, to: Key, noted: bool, copied: bool, deleted: bool)
    | DeleteFile(key: Key)

  predicate Enabled(c: Call) {
    match c
    case AppendFile(_, _, stored, answered) => answered ==> stored
    // A move notes its destination before it copies.
    case MoveFile(_, _, noted, copied, _) => copied ==> noted
    case _ => true
  }

  /** `note_object_created` */
  function Noted(s: State, key: Key): State {
    s.(memo := Lru.Without(s.memo, key))
  }

  function Stored(s: State, key: Key, stored: bool): State {
    if stored then s.(objects := s.objects + {key}) else s
  }

  function Walked(s: State, repository: Key, location: StoragePath): (State, Result<Key, Collision>) {
    var (memo, r) := PathForCreation(s.objects, s.memo, repository, location);
    (s.(memo := memo), r)
  }

  function Step(s: State, c: Call): State {
    match c
    case SaveFile(repository, location, stored) =>
      var (s1, r) := Walked(s, repository, location);
      if r.Err? then s1 else Noted(Stored(Noted(s1, r.value), r.value, stored), r.value)
    case AppendFile(repository, location, stored, answered) =>
      var (s1, r) := Walked(s, repository, location);
      if r.Err? then s1
      else
        var s2 := Stored(s1, r.value, stored);
        if answered then Noted(s2, r.value) else s2
    case AppendFileStaged(repository, location) =>
      var (s1, r) := Walked(s, repository, location);
      if r.Err? then s1 else Noted(s1, r.value)
    case MoveFile(from, to, noted, copied, deleted) =>
      var s1 := if noted then Noted(s, to) else s;
      var s2 := Stored(s1, to, copied);
      if deleted then s2.(objects := s2.objects - {from}) else s2
    case DeleteFile(key) => s.(objects := s.objects - {key})
  }

  /** The key that a call was to create an object under, if the call came to note it. */
  function NotedBy(s: State, c: Call): Option<Key> {
    match c
    case SaveFile(repository, location, _) => KeyOf(Walked(s, repository, location).1)
    case AppendFile(repository, location, _, answered) => if answered then KeyOf(Walked(s, repository, location).1) else None
    case AppendFileStaged(repository, location) => KeyOf(Walked(s, repository, location).1)
    case MoveFile(_, to, noted, _, _) => if noted then Some(to) else None
    case DeleteFile(_) => None
  }

  function KeyOf(r: Result<Key, Collision>): Option<Key> {
    if r.Ok? then Some(r.value) else None
  }

  /** After it, the next walk asks S3 about that key again. */
  lemma NotedIsForgotten(s: State, c: Call)
    ensures NotedBy(s, c).Some? ==> Lru.Find(Step(s, c).memo, NotedBy(s, c).value).None?
  {
    hide MemoWalk;
    if NotedBy(s, c).Some? {
      var k, memo := NotedBy(s, c).value, Step(s, c).memo;
      forall i | 0 <= i < |memo| ensures memo[i].0 != k {
        assert memo[i] in memo;
      }
    }
  }

  /** What the calls do to the objects: what was stored is there, what was deleted is not, and nothing else is touched. */
  lemma CallsDoAsTheySay(s: State, c: Call, k: Key)
    ensures k in Step(s, c).objects <==>
      match c
      case SaveFile(repository, location, stored) =>
        k in s.objects || (stored && KeyOf(Walked(s, repository, location).1) == Some(k))
      case AppendFile(repository, location, stored, _) =>
        k in s.objects || (stored && KeyOf(Walked(s, repository, location).1) == Some(k))
      case AppendFileStaged(_, _) => k in s.objects
      case MoveFile(from, to, _, copied, deleted) => (k in s.objects || (copied && k == to)) && !(deleted && k == from)
      case DeleteFile(key) => k in s.objects && k != key
  {
    hide MemoWalk;
  }

  ghost predicate Inv(s: State) {
    Truthful(s.objects, s.memo)
  }

  /** The call that breaks the memo: an append creates an object whose path is remembered as free, and does not learn it. */
  ghost predicate Misremembers(s: State, c: Call) {
    c.AppendFile? && c.stored && !c.answered &&
    var (s1, r) := Walked(s, c.repository, c.location);
    r.Ok? && Lru.Find(s1.memo, r.value).Some?
  }

  lemma NotedStored(s: State, key: Key, stored: bool)
    requires Inv(s)
    ensures Inv(Noted(s, key)) && Inv(Noted(Stored(s, key, stored), key)) && Inv(Stored(Noted(s, key), key, stored))
  {
    Lru.WithoutDistinct(s.memo, key);
  }

  /** Every call keeps the memo truthful, exactly when it is not an append that creates a remembered path unawares. */
  lemma CallKeepsMemoIff(s: State, c: Call)
    requires Inv(s) && Enabled(c)
    ensures Inv(Step(s, c)) <==> !Misremembers(s, c)
  {
    hide PathForCreation;
    match c
    case SaveFile(repository, location, stored) =>
      WalkKeeps(s, repository, location);
      var (s1, r) := Walked(s, repository, location);
      if r.Ok? {
        NotedStored(s1, r.value, stored);
        NotedStored(Noted(s1, r.value), r.value, stored);
      }
    case AppendFile(repository, location, stored, answered) =>
      WalkKeeps(s, repository, location);
      var (s1, r) := Walked(s, repository, location);
      if r.Ok? {
        NotedStored(s1, r.value, stored);
        UnnotedIff(s1, r.value);
      }
    case AppendFileStaged(repository, location) =>
      WalkKeeps(s, repository, location);
      var (s1, r) := Walked(s, repository, location);
      if r.Ok? {
        NotedStored(s1, r.value, false);
      }
    case MoveFile(from, to, noted, copied, deleted) => NotedStored(s, to, copied);
    case DeleteFile(key) =>
  }

  lemma UnnotedIff(s: State, key: Key)
    requires Inv(s)
    ensures Inv(Stored(s, key, true)) <==> Lru.Find(s.memo, key).None?
  {
    if Lru.Find(s.memo, key).Some? {
      assert (key, Lru.Find(s.memo, key).value) in s.memo;
    } else {
      assert forall e | e in s.memo :: e.0 != key;
    }
  }

  lemma WalkKeeps(s: State, repository: Key, location: StoragePath)
    requires Inv(s)
    ensures Inv(Walked(s, repository, location).0) && Walked(s, repository, location).0.objects == s.objects
    ensures Walked(s, repository, location).1 == PlainPathForCreation(s.objects, repository, location)
  {
    MemoWalkIsPlain(s.objects, s.memo, location, repository, Root(), location.components);
  }

  /**
   An object that a call created and came to note refuses every path below it from then on, whatever the memo held: after an
   append that was answered, and after a move.
   */
  lemma AppendedRefusesBelow(s: State, repository: Key, location: StoragePath, below: StoragePath, n: nat)
    requires Inv(s) && Walked(s, repository, location).1.Ok?
    requires 0 < n < |below.components| && AncestorKey(repository, below.components, n) == Walked(s, repository, location).1.value
    ensures Enabled(AppendFile(repository, location, true, true))
    ensures var z := Step(s, AppendFile(repository, location, true, true));
      Inv(z) && PathForCreation(z.objects, z.memo, repository, below).1.Err?
  {
    var c := AppendFile(repository, location, true, true);
    CallKeepsMemoIff(s, c);
    hide Inv;
    hide PathForCreation;
    RefusedBelow(Step(s, c), repository, below, n);
  }

  lemma MovedRefusesBelow(s: State, from: Key, to: Key, deleted: bool, repository: Key, below: StoragePath, n: nat)
    requires Inv(s) && from != to && 0 < n < |below.components| && AncestorKey(repository, below.components, n) == to
    ensures Enabled(MoveFile(from, to, true, true, deleted))
    ensures var z := Step(s, MoveFile(from, to, true, true, deleted));
      Inv(z) && PathForCreation(z.objects, z.memo, repository, below).1.Err?
  {
    var c := MoveFile(from, to, true, true, deleted);
    CallKeepsMemoIff(s, c);
    hide Inv;
    hide PathForCreation;
    RefusedBelow(Step(s, c), repository, below, n);
  }

  lemma RefusedBelow(z: State, repository: Key, below: StoragePath, n: nat)
    requires Inv(z) && 0 < n < |below.components| && AncestorKey(repository, below.components, n) in z.objects
    ensures PathForCreation(z.objects, z.memo, repository, below).1.Err?
  {
    WalkKeeps(z, repository, below);
    PlainWalkMeaning(z.objects, below, repository, Root(), below.components);
    NotFree(z.objects, repository, below.components, n);
  }

  predicate Possible(calls: seq<Call>) {
    forall c | c in calls :: Enabled(c)
  }

  function Run(s: State, calls: seq<Call>): State
    decreases |calls|
  {
    if calls == [] then s else Run(Step(s, calls[0]), calls[1..])
  }

  ghost predicate NeverMisremembers(s: State, calls: seq<Call>)
    decreases |calls|
  {
    calls == [] || (!Misremembers(s, calls[0]) && NeverMisremembers(Step(s, calls[0]), calls[1..]))
  }

  lemma {:induction false} RunKeepsMemo(s: State, calls: seq<Call>)
    requires Inv(s) && Possible(calls) && NeverMisremembers(s, calls)
    ensures Inv(Run(s, calls))
    decreases |calls|
  {
    hide Step;
    hide Misremembers;
    hide Inv;
    if calls != [] {
      CallKeepsMemoIff(s, calls[0]);
      RunKeepsMemo(Step(s, calls[0]), calls[1..]);
    }
  }

  /**
   The memo never changes a decision: after any sequence of calls, whatever it has evicted, the walk of the source
   accepts and rejects every path exactly as the walk that probes every ancestor.
   */
  lemma MemoAgreesWithPlainWalk(objects: set<Key>, calls: seq<Call>, repository: Key, location: StoragePath)
    requires Possible(calls) && NeverMisremembers(State(objects, []), calls)
    ensures var z := Run(State(objects, []), calls);
      var r := PathForCreation(z.objects, z.memo, repository, location).1;
      var parts := location.components;
      && r == PlainPathForCreation(z.objects, repository, location)
      && (r.Ok? <==> forall n | 0 < n < |parts| :: repository + "/" + Join(parts[..n]) !in z.objects)
  {
    var z := Run(State(objects, []), calls);
    var parts := location.components;
    RunKeepsMemo(State(objects, []), calls);
    WalkKeeps(z, repository, location);
    PlainWalkMeaning(z.objects, location, repository, Root(), parts);
    forall n | 0 < n < |parts| ensures AncestorKey(repository, parts, n) == repository + "/" + Join(parts[..n]) {
      AncestorKeyText(repository, parts, n);
    }
  }

  /** Two calls after which the memo accepts a path below a concrete object: the second, an append, lost its answer. */
  lemma LostAppendMisremembers()
    ensures var r := "r"; var a, ab := StoragePath(["a"], None), StoragePath(["a", "b"], None);
      var z := Run(State({}, []), [AppendFileStaged(r, ab), AppendFile(r, a, true, false)]);
      && PathForCreation(z.objects, z.memo, r, ab).1.Ok?
      && PlainPathForCreation(z.objects, r, ab).Err?
  {
    var r, a, ab := "r", StoragePath(["a"], None), StoragePath(["a", "b"], None);
    var s := State({}, []);
    var ra, rab := "r" + "/" + "a", "r" + "/" + "a" + "/" + "b";
    assert ["a", "b"][1..] == ["b"] && ["b"][1..] == [] && ["a"][1..] == [];
    assert Lru.Put<Key, ()>([], CAPACITY, ra, ()) == [(ra, ())];
    var p := Push(Root(), "a");
    calc {
      PathForCreation({}, [], r, ab);
      MemoWalk({}, [], ab, r, Root(), ["a", "b"]);
      MemoWalk({}, [(ra, ())], ab, ra, p, ["b"]);
      MemoWalk({}, [(ra, ())], ab, rab, Push(p, "b"), []);
      ([(ra, ())], Ok(rab));
    }
    assert |rab| != |ra|;
    var m := [(ra, ())];
    assert m[0].0 == ra && m[1..] == [];
    assert Lru.Without(m, rab) == m;
    var s1 := Step(s, AppendFileStaged(r, ab));
    assert s1 == State({}, m);
    assert PathForCreation({}, m, r, a) == (m, Ok(ra)) by {
      assert MemoWalk({}, m, a, ra, p, []) == (m, Ok(ra));
    }
    var s2 := Step(s1, AppendFile(r, a, true, false));
    assert s2 == State({ra}, m);
    assert Lru.Find(m, ra).Some?;
    calc {
      PathForCreation({ra}, m, r, ab);
      MemoWalk({ra}, m, ab, r, Root(), ["a", "b"]);
      MemoWalk({ra}, m, ab, ra, p, ["b"]);
      MemoWalk({ra}, m, ab, rab, Push(p, "b"), []);
      (m, Ok(rab));
    }
    var calls := [AppendFileStaged(r, ab), AppendFile(r, a, true, false)];
    assert calls[1..] == [AppendFile(r, a, true, false)] && calls[1..][1..] == [];
    assert Run(s, calls) == Run(s1, calls[1..]) == Run(s2, []) == s2;
  }

  // ---- The object ----

  class Creator {
    var objects: set<Key>
    var memo: Memo

    ghost function Value(): State
      reads this
    {
      State(objects, memo)
    }

    constructor (initial: set<Key>)
      ensures Value() == State(initial, [])
    {
      objects, memo := initial, [];
    }

    /**
     The key is forgotten and every other pair stays, in its place; so the memo is truthful of S3 with an object under
     that key, whether or not one is created.
     */
    method NoteObjectCreated(key: Key)
      modifies this`memo
      ensures Value() == Noted(old(Value()), key)
      ensures Lru.Find(memo, key).None? && (forall e :: e in memo <==> e in old(memo) && e.0 != key)
      ensures Lru.Find(old(memo), key).None? && Lru.Distinct(old(memo)) ==> memo == old(memo)
      ensures old(Inv(Value())) ==> Truthful(objects + {key}, memo) && Inv(Value())
    {
      if Lru.Distinct(memo) {
        Lru.WithoutDistinct(memo, key);
      }
      memo := Lru.Without(memo, key);
      assert forall i | 0 <= i < |memo| :: memo[i] in memo;
    }

    method PathFor(repository: Key, location: StoragePath) returns (r: Result<Key, Collision>)
      modifies this`memo
      ensures (Value(), r) == Walked(old(Value()), repository, location)
      ensures old(Inv(Value())) ==> Inv(Value()) && r == PlainPathForCreation(objects, repository, location)
    {
      if Inv(Value()) {
        WalkKeeps(Value(), repository, location);
      }
      var path := repository;
      var conflicting := new PathBuilder();
      var parts := location.components;
      var i := 0;
      while i < |parts|
        invariant 0 <= i <= |parts| && fresh(conflicting)
        invariant MemoWalk(objects, old(memo), location, repository, Root(), parts)
               == MemoWalk(objects, memo, location, path, conflicting.Value(), parts[i..])
      {
        ghost var rest := parts[i..];
        assert rest[0] == parts[i] && rest[1..] == parts[i + 1..];
        path := path + "/" + parts[i];
        conflicting.PushMut(parts[i]);
        if i + 1 < |parts| && Lru.Find(memo, path).None? {
          if path in objects {
            return Err(PathCollision(location, StoragePath(conflicting.components, conflicting.trailingSlash)));
          }
          memo := Lru.Put(memo, CAPACITY, path, ());
        }
        i := i + 1;
      }
      r := Ok(path);
    }
  }
}
