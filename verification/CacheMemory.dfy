/**
 The state the S3 disk cache keeps in memory: the LRU of live entries, the byte count, and the
 generation counter of every key. `CacheState` is the object the source mutates under its state lock; the
 functions on `Memory` say what each of its critical sections does.
 */
module CacheMemory {
  import opened Basics
  import opened FileNames
  import Lru

  /** SHA-256, as far as the cache depends on it: equal digests mean equal contents. */
  datatype Digest = Sha256(of: Bytes) | NotADigest

  /** What is stored beside the bytes and handed back unchanged. */
  datatype Info = Info(contentType: Option<string>, lastModified: Option<nat>)

  datatype Entry = Entry(path: FileName, size: nat, digest: Digest, info: Info)

  type Entries = seq<(Key, Entry)>

  datatype Limits = Limits(capacity: nat, maxBytes: nat)

  datatype Guard = Unconditional | IfGeneration(expected: nat)

  datatype Memory = Memory(entries: Entries, currentBytes: nat, generations: map<Key, nat>)

  // ---- Specification ----

  ghost function SizeOf(l: Entries): nat {
    if l == [] then 0 else l[0].1.size + SizeOf(l[1..])
  }

  ghost predicate Fits(l: Entries, lim: Limits) {
    |l| <= lim.capacity && SizeOf(l) <= lim.maxBytes
  }

  /** The longest prefix, most recent first, that satisfies both limits: see `TrimIsLongest`. */
  ghost function Trim(l: Entries, lim: Limits): Entries
    decreases |l|
  {
    if l == [] || Fits(l, lim) then l else Trim(l[..|l| - 1], lim)
  }

  /** What the configuration allows. */
  ghost predicate AnyLimits(lim: Limits) {
    1 <= lim.capacity && 1 <= lim.maxBytes <= U64_MAX
  }

  /** Limits under which the sum of two objects fits 64 bits. */
  ghost predicate ValidLimits(lim: Limits) {
    1 <= lim.capacity && 1 <= lim.maxBytes && 2 * lim.maxBytes <= U64_MAX
  }

  /** Exact byte accounting, within both limits. */
  ghost predicate Accounted(m: Memory, lim: Limits) {
    Lru.Distinct(m.entries) && m.currentBytes == SizeOf(m.entries) && Fits(m.entries, lim)
  }

  /** What holds under any limits: the count never exceeds the true sum, and is exact when sums fit 64 bits. */
  ghost predicate Orderly(m: Memory, lim: Limits) {
    && Lru.Distinct(m.entries) && |m.entries| <= lim.capacity && m.currentBytes <= SizeOf(m.entries)
    && (ValidLimits(lim) ==> Accounted(m, lim))
  }

  function Generation(g: map<Key, nat>, key: Key): nat {
    if key in g then g[key] else 0
  }

  /** `and_modify(wrapping_add(1)).or_insert(1)`. */
  function Bump(g: map<Key, nat>, key: Key): map<Key, nat> {
    g[key := (Generation(g, key) + 1) % TWO_64]
  }

  // ---- What the critical sections compute ----

  /** The paths of some entries, least recently used first: the order in which they are popped. */
  function PathsFromEnd(l: Entries): (r: seq<FileName>)
    ensures forall p :: p in r <==> exists q :: q in l && q.1.path == p
  {
    if l == [] then []
    else
      assert forall q :: q in l <==> q == l[|l| - 1] || q in l[..|l| - 1];
      [l[|l| - 1].1.path] + PathsFromEnd(l[..|l| - 1])
  }

  /** Pop the least recently used entry while the byte count is over the limit. */
  function EvictOver(l: Entries, bytes: nat, max: nat): (r: (Entries, nat, seq<FileName>))
    ensures r.0 <= l
    decreases |l|
  {
    if bytes <= max || l == [] then (l, bytes, [])
    else
      var last := l[|l| - 1].1;
      var (kept, left, gone) := EvictOver(l[..|l| - 1], SatSub(bytes, last.size), max);
      (kept, left, [last.path] + gone)
  }

  /** Pop one entry if the cache is full. */
  function MakeRoom(l: Entries, bytes: nat, capacity: nat): (Entries, nat, seq<FileName>) {
    if |l| >= capacity && l != [] then
      var last := l[|l| - 1].1;
      (l[..|l| - 1], SatSub(bytes, last.size), [last.path])
    else (l, bytes, [])
  }

  function PopBytes(m: Memory, key: Key): nat {
    match Lru.Find(m.entries, key)
    case None => m.currentBytes
    case Some(e) => SatSub(m.currentBytes, e.size)
  }

  /** The insertion of a published entry: the new memory, the path it supersedes, and the paths it evicts. */
  function Insert(m: Memory, lim: Limits, key: Key, e: Entry, guard: Guard): (Memory, seq<FileName>, seq<FileName>) {
    var superseded :=
      match Lru.Find(m.entries, key)
      case None => []
      case Some(old_) => if old_.path != e.path then [old_.path] else [];
    var (l1, b1, gone1) := MakeRoom(Lru.Without(m.entries, key), PopBytes(m, key), lim.capacity);
    var (l2, b2, gone2) := EvictOver([(key, e)] + l1, SatAdd(b1, e.size), lim.maxBytes);
    var g := if guard.Unconditional? then Bump(m.generations, key) else m.generations;
    (Memory(l2, b2, g), superseded, gone1 + gone2)
  }

  /** The body shared by the removals: bump the generation and take the entry out. */
  function Remove(m: Memory, key: Key): (Memory, seq<FileName>) {
    (Memory(Lru.Without(m.entries, key), PopBytes(m, key), Bump(m.generations, key)),
     match Lru.Find(m.entries, key) case None => [] case Some(e) => [e.path])
  }

  datatype Condition = Always | AtGeneration(expected: nat) | Matching(entry: Entry)

  /** `remove`, `remove_if_generation` and `remove_if_matches` differ only in this test. */
  predicate Holds(m: Memory, key: Key, c: Condition) {
    match c
    case Always => true
    case AtGeneration(g) => Generation(m.generations, key) == g
    case Matching(e) =>
      match Lru.Find(m.entries, key)
      case None => false
      case Some(now) => now.path == e.path && now.digest == e.digest
  }

  // ---- Properties ----

  lemma {:induction false} SizeOfConcat(a: Entries, b: Entries)
    ensures SizeOf(a + b) == SizeOf(a) + SizeOf(b)
  {
    if a == [] {
      assert a + b == b;
    } else {
      assert (a + b)[1..] == a[1..] + b;
      SizeOfConcat(a[1..], b);
    }
  }

  lemma SizeOfLast(l: Entries)
    requires l != []
    ensures SizeOf(l) == SizeOf(l[..|l| - 1]) + l[|l| - 1].1.size
  {
    assert l == l[..|l| - 1] + [l[|l| - 1]];
    SizeOfConcat(l[..|l| - 1], [l[|l| - 1]]);
    assert SizeOf([l[|l| - 1]]) == l[|l| - 1].1.size + SizeOf([]);
  }

  lemma SizeOfPrefix(l: Entries, n: nat)
    requires n <= |l|
    ensures SizeOf(l[..n]) <= SizeOf(l)
  {
    assert l == l[..n] + l[n..];
    SizeOfConcat(l[..n], l[n..]);
  }

  lemma {:induction false} SizeOfWithout(l: Entries, key: Key)
    requires Lru.Distinct(l)
    ensures SizeOf(l) == SizeOf(Lru.Without(l, key))
                       + (match Lru.Find(l, key) case None => 0 case Some(e) => e.size)
  {
    Lru.WithoutDistinct(l, key);
    if l != [] {
      var t := l[1..];
      assert Lru.Distinct(t);
      if l[0].0 == key {
        forall i | 0 <= i < |t| ensures t[i].0 != key {
          assert t[i] == l[i + 1];
        }
        assert Lru.Find(t, key).None?;
        Lru.WithoutDistinct(t, key);
      } else {
        SizeOfWithout(t, key);
        assert ([l[0]] + Lru.Without(t, key))[1..] == Lru.Without(t, key);
      }
    }
  }

  /** What `Trim` means: it fits, it is a prefix, and no longer prefix fits. */
  lemma {:induction false} TrimIsLongest(l: Entries, lim: Limits)
    ensures Trim(l, lim) <= l && Fits(Trim(l, lim), lim)
    ensures forall n | |Trim(l, lim)| < n <= |l| :: !Fits(l[..n], lim)
    decreases |l|
  {
    if l != [] && !Fits(l, lim) {
      var s := l[..|l| - 1];
      TrimIsLongest(s, lim);
      forall n | |Trim(l, lim)| < n <= |l| ensures !Fits(l[..n], lim) {
        if n == |l| {
          assert l[..n] == l;
        } else {
          assert l[..n] == s[..n];
        }
      }
    }
  }

  /** A prefix that fits and is followed by one that does not is the trimmed list. */
  lemma TrimUnique(l: Entries, lim: Limits, n: nat)
    requires n <= |l| && Fits(l[..n], lim)
    requires n < |l| ==> !Fits(l[..n + 1], lim)
    ensures Trim(l, lim) == l[..n]
  {
    TrimIsLongest(l, lim);
    var t := |Trim(l, lim)|;
    assert Trim(l, lim) == l[..t];
    if t > n {
      assert l[..n + 1] == l[..t][..n + 1];
      SizeOfPrefix(l[..t], n + 1);
    }
  }

  /** Trimming the tail first changes nothing: inserting one at a time ends where inserting all at once does. */
  lemma TrimOfTrim(x: (Key, Entry), l: Entries, lim: Limits)
    ensures Trim([x] + Trim(l, lim), lim) == Trim([x] + l, lim)
  {
    TrimIsLongest(l, lim);
    var t := Trim(l, lim);
    var a, b := [x] + t, [x] + l;
    TrimIsLongest(a, lim);
    TrimIsLongest(b, lim);
    var n := |Trim(a, lim)|;
    assert a[..n] == b[..n] == Trim(a, lim);
    if n < |b| {
      if n < |a| {
        assert a[..n + 1] == b[..n + 1];
      } else {
        assert b[..n + 1][1..] == l[..n];
        assert SizeOf(b[..n + 1]) >= SizeOf(l[..n]);
        assert n == |t| + 1;
      }
    }
    TrimUnique(b, lim, n);
  }

  /** As long as the counter is exact, evicting by the counter is trimming to the byte limit. */
  lemma {:induction false} EvictOverTrims(l: Entries, bytes: nat, lim: Limits)
    requires bytes == SizeOf(l) && |l| <= lim.capacity
    ensures var r := EvictOver(l, bytes, lim.maxBytes);
      r.0 == Trim(l, lim) && r.1 == SizeOf(r.0)
    decreases |l|
  {
    if !(bytes <= lim.maxBytes || l == []) {
      SizeOfLast(l);
      EvictOverTrims(l[..|l| - 1], SatSub(bytes, l[|l| - 1].1.size), lim);
    }
  }

  ghost function BytesBeforeInsert(m: Memory, lim: Limits, key: Key): nat {
    SizeOf(MakeRoom(Lru.Without(m.entries, key), PopBytes(m, key), lim.capacity).0)
  }

  lemma MakeRoomExact(m: Memory, lim: Limits, key: Key)
    requires Accounted(m, lim) && 1 <= lim.capacity
    ensures var (l, b, _) := MakeRoom(Lru.Without(m.entries, key), PopBytes(m, key), lim.capacity);
      && b == SizeOf(l) <= lim.maxBytes && |l| < lim.capacity
      && l <= Lru.Without(m.entries, key)
      && (|Lru.Without(m.entries, key)| < lim.capacity ==> l == Lru.Without(m.entries, key))
      && (l != Lru.Without(m.entries, key) ==> |l| + 1 == |Lru.Without(m.entries, key)| == lim.capacity)
  {
    var w := Lru.Without(m.entries, key);
    SizeOfWithout(m.entries, key);
    Lru.WithoutDistinct(m.entries, key);
    if |w| >= lim.capacity {
      SizeOfLast(w);
    }
  }

  lemma TrimAfterMakingRoom(x: (Key, Entry), w: Entries, l1: Entries, lim: Limits)
    requires l1 <= w && |l1| < lim.capacity
    requires l1 != w ==> |l1| + 1 == |w| == lim.capacity
    ensures Trim([x] + l1, lim) == Trim([x] + w, lim)
  {
    var l2, all := [x] + l1, [x] + w;
    if l1 != w {
      TrimIsLongest(l2, lim);
      var n := |Trim(l2, lim)|;
      assert Trim(l2, lim) == l2[..n] == all[..n];
      if n < |l2| {
        assert l2[..n + 1] == all[..n + 1];
      }
      TrimUnique(all, lim, n);
    }
  }

  lemma TrimKeepsHead(x: (Key, Entry), w: Entries, lim: Limits)
    requires 1 <= lim.capacity && x.1.size <= lim.maxBytes
    ensures var t := Trim([x] + w, lim); t != [] && t[0] == x
  {
    var all := [x] + w;
    TrimIsLongest(all, lim);
    assert all[..1] == [x];
    assert SizeOf(all[..1]) == x.1.size + SizeOf(all[..1][1..]);
    assert Fits(all[..1], lim);
  }

  /**
   Exact LRU under two limits: what remains after a publication is the longest most-recent prefix of the
   new entry followed by the old recency order that satisfies both limits; the new entry is among it; and
   the byte count is again exact.
   */
  lemma InsertIsExactLru(m: Memory, lim: Limits, key: Key, e: Entry, guard: Guard)
    requires Accounted(m, lim) && 1 <= lim.capacity && e.size <= lim.maxBytes
    requires BytesBeforeInsert(m, lim, key) + e.size <= U64_MAX
    ensures var m' := Insert(m, lim, key, e, guard).0;
      && m'.entries == Trim([(key, e)] + Lru.Without(m.entries, key), lim)
      && m'.entries != [] && m'.entries[0] == (key, e)
      && Accounted(m', lim)
  {
    var w := Lru.Without(m.entries, key);
    var all := [(key, e)] + w;
    MakeRoomExact(m, lim, key);
    var (l1, b1, _) := MakeRoom(w, PopBytes(m, key), lim.capacity);
    var l2 := [(key, e)] + l1;
    assert SizeOf(l2) == e.size + SizeOf(l1) by { assert l2[1..] == l1; }
    EvictOverTrims(l2, SatAdd(b1, e.size), lim);
    TrimAfterMakingRoom((key, e), w, l1, lim);
    TrimKeepsHead((key, e), w, lim);
    Lru.PushFrontDistinct(m.entries, key, e);
    TrimIsLongest(all, lim);
    Lru.PrefixDistinct(all, |Trim(all, lim)|);
  }

  lemma {:induction false} EvictOverOffBy(l: Entries, bytes: nat, max: nat, d: nat)
    requires bytes + d == SizeOf(l) && d > 0
    requires forall p | p in l :: p.1.size <= max
    ensures var r := EvictOver(l, bytes, max); r.1 + d == SizeOf(r.0)
    decreases |l|
  {
    if !(bytes <= max || l == []) {
      SizeOfLast(l);
      assert l[|l| - 1] in l;
      EvictOverOffBy(l[..|l| - 1], SatSub(bytes, l[|l| - 1].1.size), max, d);
    }
  }

  lemma {:induction false} EachWithin(l: Entries, max: nat)
    requires SizeOf(l) <= max
    ensures forall p | p in l :: p.1.size <= max
  {
    if l != [] {
      EachWithin(l[1..], max);
    }
  }

  /**
   The saturating addition is the one place where the count can go wrong, and it does so exactly when the
   true sum does not fit 64 bits.
   */
  lemma AccountingExactIff(m: Memory, lim: Limits, key: Key, e: Entry, guard: Guard)
    requires Accounted(m, lim) && 1 <= lim.capacity && e.size <= lim.maxBytes
    ensures var m' := Insert(m, lim, key, e, guard).0;
      m'.currentBytes == SizeOf(m'.entries) <==> BytesBeforeInsert(m, lim, key) + e.size <= U64_MAX
  {
    if BytesBeforeInsert(m, lim, key) + e.size <= U64_MAX {
      InsertIsExactLru(m, lim, key, e, guard);
    } else {
      MakeRoomExact(m, lim, key);
      var (l1, b1, _) := MakeRoom(Lru.Without(m.entries, key), PopBytes(m, key), lim.capacity);
      var l2 := [(key, e)] + l1;
      assert l2[1..] == l1;
      EachWithin(l1, lim.maxBytes);
      EvictOverOffBy(l2, SatAdd(b1, e.size), lim.maxBytes, b1 + e.size - U64_MAX);
    }
  }

  /** Two objects whose sizes add up to 2^64: the count stays at the limit, and the cache above it. */
  lemma CountSaturates()
    ensures var lim := Limits(2, U64_MAX);
      var a := Entry(Content("a", 0), U64_MAX, NotADigest, Info(None, None));
      var b := Entry(Content("b", 1), 1, NotADigest, Info(None, None));
      var m := Memory([("a", a)], U64_MAX, map[]);
      var m' := Insert(m, lim, "b", b, Unconditional).0;
      Accounted(m, lim) && m'.entries == [("b", b), ("a", a)] && m'.currentBytes == lim.maxBytes < SizeOf(m'.entries)
  {
    var lim := Limits(2, U64_MAX);
    var a := Entry(Content("a", 0), U64_MAX, NotADigest, Info(None, None));
    var b := Entry(Content("b", 1), 1, NotADigest, Info(None, None));
    var l := [("a", a)];
    assert "a"[0] != "b"[0];
    assert l[1..] == [] && SizeOf(l) == U64_MAX;
    assert Lru.Without(l, "b") == l by {
      assert Lru.Without(l[1..], "b") == [];
      assert [l[0]] + [] == l;
    }
    assert Lru.Find(l, "b").None? by {
      assert Lru.Find(l[1..], "b").None?;
    }
    assert [("b", b)] + l == [("b", b), ("a", a)];
    assert [("b", b), ("a", a)][1..] == l;
    assert SizeOf([("b", b), ("a", a)]) == 1 + SizeOf(l);
  }

  lemma {:induction false} EvictOverUnder(l: Entries, bytes: nat, max: nat)
    requires bytes <= SizeOf(l)
    ensures var r := EvictOver(l, bytes, max);
      r.1 <= SizeOf(r.0) && (l != [] && l[0].1.size <= max ==> r.0 != [])
    decreases |l|
  {
    if !(bytes <= max || l == []) {
      SizeOfLast(l);
      EvictOverUnder(l[..|l| - 1], SatSub(bytes, l[|l| - 1].1.size), max);
      assert |l| == 1 ==> l[..|l| - 1] == [];
    }
  }

  lemma MakeRoomUnder(m: Memory, lim: Limits, key: Key)
    requires Lru.Distinct(m.entries) && |m.entries| <= lim.capacity && m.currentBytes <= SizeOf(m.entries) && 1 <= lim.capacity
    ensures var (l, b, _) := MakeRoom(Lru.Without(m.entries, key), PopBytes(m, key), lim.capacity);
      b <= SizeOf(l) && |l| < lim.capacity && l <= Lru.Without(m.entries, key)
  {
    var w := Lru.Without(m.entries, key);
    SizeOfWithout(m.entries, key);
    Lru.WithoutDistinct(m.entries, key);
    if |w| >= lim.capacity {
      SizeOfLast(w);
    }
  }

  /** Under any limits an insertion keeps its entry, first, and the memory orderly. */
  lemma InsertKeepsOrderly(m: Memory, lim: Limits, key: Key, e: Entry, guard: Guard)
    requires Orderly(m, lim) && AnyLimits(lim) && e.size <= lim.maxBytes
    ensures var m' := Insert(m, lim, key, e, guard).0;
      Orderly(m', lim) && m'.entries != [] && m'.entries[0] == (key, e)
  {
    InsertStaysUnder(m, lim, key, e, guard);
    if ValidLimits(lim) {
      MakeRoomExact(m, lim, key);
      InsertIsExactLru(m, lim, key, e, guard);
    }
    hide Insert;
    hide SizeOf;
    hide Trim;
  }

  /** What an insertion keeps starts with its entry, under distinct keys. */
  lemma KeptDistinct(m: Memory, key: Key, e: Entry, r: Entries)
    requires Lru.Distinct(m.entries) && r <= [(key, e)] + Lru.Without(m.entries, key)
    ensures Lru.Distinct(r) && (r != [] ==> r[0] == (key, e))
  {
    Lru.PushFrontDistinct(m.entries, key, e);
    var all := [(key, e)] + Lru.Without(m.entries, key);
    assert r == all[..|r|];
    Lru.PrefixDistinct(all, |r|);
  }

  lemma InsertStaysUnder(m: Memory, lim: Limits, key: Key, e: Entry, guard: Guard)
    requires Orderly(m, lim) && AnyLimits(lim) && e.size <= lim.maxBytes
    ensures var m' := Insert(m, lim, key, e, guard).0;
      && Lru.Distinct(m'.entries) && |m'.entries| <= lim.capacity && m'.currentBytes <= SizeOf(m'.entries)
      && m'.entries != [] && m'.entries[0] == (key, e)
  {
    MakeRoomUnder(m, lim, key);
    hide MakeRoom;
    hide EvictOver;
    hide Lru.Without;
    hide Lru.Distinct;
    var w := Lru.Without(m.entries, key);
    var (l1, b1, _) := MakeRoom(w, PopBytes(m, key), lim.capacity);
    var l2 := [(key, e)] + l1;
    assert SizeOf(l2) == e.size + SizeOf(l1) by { assert l2[1..] == l1; }
    EvictOverUnder(l2, SatAdd(b1, e.size), lim.maxBytes);
    hide SizeOf;
    assert l2 <= [(key, e)] + w;
    KeptDistinct(m, key, e, EvictOver(l2, SatAdd(b1, e.size), lim.maxBytes).0);
  }

  /** Removing keeps the memory orderly. */
  lemma RemoveKeepsOrderly(m: Memory, lim: Limits, key: Key)
    requires Orderly(m, lim)
    ensures Orderly(Remove(m, key).0, lim)
  {
    SizeOfWithout(m.entries, key);
    Lru.WithoutDistinct(m.entries, key);
    if ValidLimits(lim) {
      RemoveKeepsAccounts(m, lim, key);
    }
  }

  lemma PromoteKeepsOrderly(m: Memory, lim: Limits, key: Key)
    requires Orderly(m, lim)
    ensures Orderly(m.(entries := Lru.Promote(m.entries, key)), lim)
  {
    SizeOfWithout(m.entries, key);
    Lru.PromoteKeeps(m.entries, key);
    if ValidLimits(lim) {
      PromoteKeepsAccounts(m, lim, key);
    }
    if Lru.Find(m.entries, key).Some? {
      assert Lru.Promote(m.entries, key)[1..] == Lru.Without(m.entries, key);
    }
  }

  /** Removing keeps the count exact, and its subtraction never saturates. */
  lemma RemoveKeepsAccounts(m: Memory, lim: Limits, key: Key)
    requires Accounted(m, lim)
    ensures Accounted(Remove(m, key).0, lim)
    ensures Lru.Find(m.entries, key).Some? ==> Lru.Find(m.entries, key).value.size <= m.currentBytes
  {
    SizeOfWithout(m.entries, key);
    Lru.WithoutDistinct(m.entries, key);
  }

  lemma PromoteKeepsAccounts(m: Memory, lim: Limits, key: Key)
    requires Accounted(m, lim)
    ensures Accounted(m.(entries := Lru.Promote(m.entries, key)), lim)
  {
    SizeOfWithout(m.entries, key);
    Lru.PromoteKeeps(m.entries, key);
    if Lru.Find(m.entries, key).Some? {
      var l := Lru.Promote(m.entries, key);
      assert l[1..] == Lru.Without(m.entries, key);
    }
  }

  lemma {:induction false} EvictOverSplits(l: Entries, bytes: nat, max: nat)
    ensures var r := EvictOver(l, bytes, max);
      r.2 == PathsFromEnd(l[|r.0|..])
    decreases |l|
  {
    var r := EvictOver(l, bytes, max);
    if bytes <= max || l == [] {
      assert l[|r.0|..] == [];
    } else {
      var s := l[..|l| - 1];
      EvictOverSplits(s, SatSub(bytes, l[|l| - 1].1.size), max);
      var t := l[|r.0|..];
      assert t[|t| - 1] == l[|l| - 1] && t[..|t| - 1] == s[|r.0|..];
    }
  }

  /** A mutation's publication advances the counter of its key, wrapping, and a read's leaves all counters alone. */
  lemma InsertBumps(m: Memory, lim: Limits, key: Key, e: Entry, guard: Guard)
    ensures Insert(m, lim, key, e, guard).0.generations ==
      if guard.IfGeneration? then m.generations
      else m.generations[key := if key in m.generations then (m.generations[key] + 1) % TWO_64 else 1]
  {
    hide MakeRoom;
    hide EvictOver;
    hide PopBytes;
  }

  /** Making room pops the last pair of a full list, and nothing of any other. */
  lemma MakeRoomMeans(l: Entries, bytes: nat, capacity: nat)
    requires 1 <= capacity && |l| <= capacity
    ensures var (kept, left, gone) := MakeRoom(l, bytes, capacity);
      if |l| < capacity then kept == l && left == bytes && gone == []
      else |kept| == capacity - 1 && l == kept + [l[capacity - 1]] && left == SatSub(bytes, l[capacity - 1].1.size)
           && gone == [l[capacity - 1].1.path]
  {
  }

  lemma {:induction false} PathsFromEndAt(l: Entries, i: nat)
    requires i < |l|
    ensures |PathsFromEnd(l)| == |l| && PathsFromEnd(l)[i] == l[|l| - 1 - i].1.path
  {
    if |l| > 1 {
      PathsFromEndAt(l[..|l| - 1], if i == 0 then 0 else i - 1);
    }
  }

  lemma {:induction false} PathsFromEndLength(l: Entries)
    ensures |PathsFromEnd(l)| == |l|
  {
    if l != [] {
      PathsFromEndLength(l[..|l| - 1]);
    }
  }

  lemma {:induction false} EvictOverCounts(l: Entries, bytes: nat, max: nat)
    ensures var r := EvictOver(l, bytes, max);
      && r.0 <= l && (r.0 == [] || r.1 <= max)
      && r.1 == SatSub(bytes, SizeOf(l[|r.0|..]))
      && (|r.0| < |l| ==> SatSub(bytes, SizeOf(l[|r.0| + 1..])) > max)
    decreases |l|
  {
    var r := EvictOver(l, bytes, max);
    if bytes <= max || l == [] {
      assert l[|r.0|..] == [];
    } else {
      var s, last := l[..|l| - 1], l[|l| - 1].1;
      EvictOverCounts(s, SatSub(bytes, last.size), max);
      SizeOfTail(l, |r.0|);
      if |r.0| < |s| {
        SizeOfTail(l, |r.0| + 1);
      } else {
        assert l[|r.0| + 1..] == [];
      }
    }
  }

  lemma SizeOfTail(l: Entries, n: nat)
    requires n < |l|
    ensures SizeOf(l[n..]) == SizeOf(l[..|l| - 1][n..]) + l[|l| - 1].1.size
  {
    SizeOfLast(l[n..]);
    assert l[n..][..|l[n..]| - 1] == l[..|l| - 1][n..];
  }

  /** Popping by the byte count: from the end, no further than the count demands, and the paths in the order popped. */
  lemma EvictOverMeans(l: Entries, bytes: nat, max: nat)
    ensures var r := EvictOver(l, bytes, max);
      && r.0 <= l && (r.0 == [] || r.1 <= max)
      && r.1 == SatSub(bytes, SizeOf(l[|r.0|..]))
      && (|r.0| < |l| ==> SatSub(bytes, SizeOf(l[|r.0| + 1..])) > max)
      && |r.2| == |l| - |r.0| && (forall i | 0 <= i < |r.2| :: r.2[i] == l[|l| - 1 - i].1.path)
  {
    EvictOverCounts(l, bytes, max);
    EvictOverSplits(l, bytes, max);
    var r := EvictOver(l, bytes, max);
    hide EvictOver;
    hide SizeOf;
    hide PathsFromEnd;
    var t := l[|r.0|..];
    PathsFromEndLength(t);
    forall i | 0 <= i < |r.2| ensures r.2[i] == l[|l| - 1 - i].1.path {
      PathsFromEndAt(t, i);
    }
  }

  /** Popping the last element early only puts its path first. */
  lemma PopFirst(x: (Key, Entry), w: Entries, n: nat)
    requires w != [] && n <= |w|
    ensures PathsFromEnd(([x] + w)[n..]) == [w[|w| - 1].1.path] + PathsFromEnd(([x] + w[..|w| - 1])[n..])
  {
    var t := ([x] + w)[n..];
    assert t[|t| - 1] == w[|w| - 1] && t[..|t| - 1] == ([x] + w[..|w| - 1])[n..];
  }

  /** What an insertion drops it hands over for deletion, in pop order, and it drops a tail of the recency order. */
  lemma InsertSplits(m: Memory, lim: Limits, key: Key, e: Entry, guard: Guard)
    ensures var (m', _, gone) := Insert(m, lim, key, e, guard);
      var all := [(key, e)] + Lru.Without(m.entries, key);
      m'.entries <= all && gone == PathsFromEnd(all[|m'.entries|..])
  {
    var w := Lru.Without(m.entries, key);
    var (l1, b1, gone1) := MakeRoom(w, PopBytes(m, key), lim.capacity);
    var l2 := [(key, e)] + l1;
    EvictOverSplits(l2, SatAdd(b1, e.size), lim.maxBytes);
    if gone1 != [] {
      var n := |EvictOver(l2, SatAdd(b1, e.size), lim.maxBytes).0|;
      PopFirst((key, e), w, n);
      assert l2 <= [(key, e)] + w;
    }
  }

  lemma InsertSupersedes(m: Memory, lim: Limits, key: Key, e: Entry, guard: Guard)
    requires Lru.Distinct(m.entries)
    ensures forall p | p in m.entries && p.0 == key && p.1.path != e.path :: p.1.path in Insert(m, lim, key, e, guard).1
    ensures forall x | x in Insert(m, lim, key, e, guard).1 ::
      x != e.path && exists p :: p in m.entries && p.0 == key && p.1.path == x
  {
    hide EvictOver;
    hide MakeRoom;
    hide PopBytes;
    hide Lru.Find;
    forall p | p in m.entries && p.0 == key ensures Lru.Find(m.entries, key) == Some(p.1) {
      assert p == (key, p.1);
      Lru.FindIn(m.entries, key, p.1);
    }
    if Lru.Find(m.entries, key).Some? {
      assert (key, Lru.Find(m.entries, key).value) in m.entries;
    }
  }

  /** What an insertion drops for room goes for deletion. */
  lemma InsertEvictsAll(m: Memory, lim: Limits, key: Key, e: Entry, guard: Guard, p: (Key, Entry))
    requires p in m.entries && p.0 != key && p !in Insert(m, lim, key, e, guard).0.entries
    ensures p.1.path in Insert(m, lim, key, e, guard).2
  {
    hide Insert;
    hide Lru.Without;
    InsertSplits(m, lim, key, e, guard);
    var kept := Insert(m, lim, key, e, guard).0.entries;
    var w := Lru.Without(m.entries, key);
    var all := [(key, e)] + w;
    assert p in w;
    var i :| 0 <= i < |w| && w[i] == p;
    assert all[i + 1] == p;
    assert forall j | 0 <= j < |kept| :: all[j] == kept[j] && kept[j] in kept;
    assert i + 1 >= |kept|;
    assert all[|kept|..][i + 1 - |kept|] == p;
  }

  /** And nothing else does. */
  lemma InsertEvicts(m: Memory, lim: Limits, key: Key, e: Entry, guard: Guard, x: FileName)
    requires Lru.Distinct(m.entries) && Insert(m, lim, key, e, guard).0.entries != []
    requires x in Insert(m, lim, key, e, guard).2
    ensures exists p :: p in m.entries && p.0 != key && p !in Insert(m, lim, key, e, guard).0.entries && p.1.path == x
  {
    hide Insert;
    hide Lru.Without;
    hide PathsFromEnd;
    InsertSplits(m, lim, key, e, guard);
    var kept := Insert(m, lim, key, e, guard).0.entries;
    var all := [(key, e)] + Lru.Without(m.entries, key);
    Lru.PushFrontDistinct(m.entries, key, e);
    var p :| p in all[|kept|..] && p.1.path == x;
    TailIsDropped(all, kept, p);
  }

  /** An element after a non-empty prefix of a list of distinct keys is neither its first element nor in the prefix. */
  lemma TailIsDropped(all: Entries, kept: Entries, p: (Key, Entry))
    requires Lru.Distinct(all) && kept != [] && kept <= all && p in all[|kept|..]
    ensures p !in kept && p in all[1..]
  {
    var i :| 0 <= i < |all[|kept|..]| && all[|kept|..][i] == p;
    assert all[|kept| + i] == p && all[1..][|kept| + i - 1] == p;
    forall j | 0 <= j < |kept| ensures kept[j] != p {
      assert kept[j] == all[j];
    }
  }

  // ---- The order of recency ----

  /** The pair `a` has been used after the pair `b`. */
  ghost predicate Before(l: Entries, a: (Key, Entry), b: (Key, Entry)) {
    exists i, j | 0 <= i < j < |l| :: l[i] == a && l[j] == b
  }

  lemma CutKeepsOrder(l: Entries, n: nat, a: (Key, Entry), b: (Key, Entry))
    requires Before(l, a, b) && n < |l| && l[n] != a && l[n] != b
    ensures Before(l[..n] + l[n + 1..], a, b)
  {
    var i, j :| 0 <= i < j < |l| && l[i] == a && l[j] == b;
    var c := l[..n] + l[n + 1..];
    var x, y := if i < n then i else i - 1, if j < n then j else j - 1;
    assert c[x] == a && c[y] == b;
  }

  lemma WithoutKeepsOrder(l: Entries, key: Key, a: (Key, Entry), b: (Key, Entry))
    requires Lru.Distinct(l) && Before(l, a, b) && a.0 != key && b.0 != key
    ensures Before(Lru.Without(l, key), a, b)
  {
    if Lru.Holds(l, key) {
      var n :| 0 <= n < |l| && l[n].0 == key;
      Lru.WithoutIsCut(l, key, n);
      CutKeepsOrder(l, n, a, b);
    } else {
      Lru.WithoutDistinct(l, key);
    }
  }

  lemma PrefixKeepsOrder(x: (Key, Entry), w: Entries, l: Entries, a: (Key, Entry), b: (Key, Entry))
    requires Lru.Distinct([x] + w) && l <= [x] + w && Before(w, a, b) && b in l
    ensures Before(l, a, b)
  {
    var all := [x] + w;
    var i, j :| 0 <= i < j < |w| && w[i] == a && w[j] == b;
    var n :| 0 <= n < |l| && l[n] == b;
    assert all[n] == b && all[j + 1] == b && all[i + 1] == a;
    assert n == j + 1;
    assert l[i + 1] == a;
  }

  /** Of two old pairs, a publication of another key keeps the order, and never drops the later used one alone. */
  lemma InsertKeepsOrder(m: Memory, lim: Limits, key: Key, e: Entry, guard: Guard, a: (Key, Entry), b: (Key, Entry))
    requires Lru.Distinct(m.entries) && Before(m.entries, a, b) && a.0 != key && b.0 != key
    ensures var l := Insert(m, lim, key, e, guard).0.entries; b in l ==> Before(l, a, b)
  {
    hide Insert;
    hide Before;
    hide Lru.Without;
    hide Lru.Distinct;
    var l, w := Insert(m, lim, key, e, guard).0.entries, Lru.Without(m.entries, key);
    InsertSplits(m, lim, key, e, guard);
    WithoutKeepsOrder(m.entries, key, a, b);
    Lru.PushFrontDistinct(m.entries, key, e);
    if b in l {
      PrefixKeepsOrder((key, e), w, l, a, b);
    }
  }

  datatype Publication = Publication(key: Key, entry: Entry, guard: Guard)

  /** Publications one after the other. */
  function InsertAll(m: Memory, lim: Limits, ps: seq<Publication>): Memory
    decreases |ps|
  {
    if ps == [] then m else InsertAll(Insert(m, lim, ps[0].key, ps[0].entry, ps[0].guard).0, lim, ps[1..])
  }

  /** Of these pairs, those still in the list have been used before `a`. */
  ghost predicate Leads(l: Entries, a: (Key, Entry), others: Entries) {
    forall b | b in l && b in others && b != a :: Before(l, a, b)
  }

  lemma {:induction false} LeaderGoesLast(m: Memory, lim: Limits, ps: seq<Publication>, a: (Key, Entry), others: Entries)
    requires Orderly(m, lim) && AnyLimits(lim) && Leads(m.entries, a, others)
    requires forall p | p in ps :: p.key != a.0 && p.entry.size <= lim.maxBytes && (p.key, p.entry) !in others
    ensures Leads(InsertAll(m, lim, ps).entries, a, others)
    decreases |ps|
  {
    if ps != [] {
      var p := ps[0];
      assert p in ps;
      var m' := Insert(m, lim, p.key, p.entry, p.guard).0;
      InsertKeepsOrderly(m, lim, p.key, p.entry, p.guard);
      InsertSplits(m, lim, p.key, p.entry, p.guard);
      hide Insert;
      hide Before;
      var all := [(p.key, p.entry)] + Lru.Without(m.entries, p.key);
      forall b | b in m'.entries && b in others && b != a ensures Before(m'.entries, a, b) {
        assert b in all && b in m.entries && b.0 != p.key;
        InsertKeepsOrder(m, lim, p.key, p.entry, p.guard, a, b);
      }
      LeaderGoesLast(m', lim, ps[1..], a, others);
    }
  }

  lemma PromotedLeads(l: Entries, key: Key, e: Entry)
    requires Lru.Distinct(l) && (key, e) in l
    ensures Leads(Lru.Promote(l, key), (key, e), l)
  {
    Lru.PromoteKeeps(l, key);
    var i :| 0 <= i < |l| && l[i] == (key, e);
    Lru.PromoteMoves(l, key, i);
    var m := Lru.Promote(l, key);
    forall b | b in m && b != (key, e) ensures Before(m, (key, e), b) {
      var j :| 0 <= j < |m| && m[j] == b;
      assert m[0] == (key, e);
    }
  }

  /** A key just looked up is the last to go: while publications of other keys leave any old pair, they leave this one. */
  lemma LookedUpGoesLast(m: Memory, lim: Limits, key: Key, e: Entry, ps: seq<Publication>)
    requires Orderly(m, lim) && AnyLimits(lim) && (key, e) in m.entries
    requires forall p | p in ps :: p.key != key && p.entry.size <= lim.maxBytes && (p.key, p.entry) !in m.entries
    ensures var z := InsertAll(m.(entries := Lru.Promote(m.entries, key)), lim, ps).entries;
      (exists b :: b in z && b in m.entries) ==> (key, e) in z
  {
    PromotedLeads(m.entries, key, e);
    PromoteKeepsOrderly(m, lim, key);
    var m1 := m.(entries := Lru.Promote(m.entries, key));
    LeaderGoesLast(m1, lim, ps, (key, e), m.entries);
  }
}
