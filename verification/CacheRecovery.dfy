/** Start-up recovery of the disk cache, over any directory whatever. */
module CacheRecovery {
  import opened Basics
  import opened FileNames
  import opened CacheMemory
  import opened CacheStates
  import Lru

  type Files = map<FileName, FileData>

  datatype Candidate = Candidate(cachedAt: nat, key: Key, entry: Entry)

  // ---- What counts as a valid pair of files ----

  /** The layout test; `FileNames.LayoutAcceptsOwnGenerations` says it on spellings. */
  predicate LayoutOk(r: Record) {
    r.path.Content? && r.path.key == r.key
  }

  /** A file that the first pass reads as metadata: by its name, whether the cache made it or not. */
  predicate IsRecordFile(f: FileName) {
    KindOf(f) == AMetadata
  }

  /** A record found in file `f`; `FileNames.ExpectedMetadata` says the test on its name on spellings. */
  predicate RecordAccepted(lim: Limits, f: FileName, r: Record) {
    r.version == 1 && f == Metadata(r.key) && LayoutOk(r) && r.size <= lim.maxBytes && r.digest.Sha256?
  }

  /** `verify_content_file`, on a regular file. */
  predicate ContentMatches(files: Files, r: Record) {
    r.path in files && files[r.path].Plain? && |files[r.path].content| == r.size && Sha256(files[r.path].content) == r.digest
  }

  predicate ValidPair(lim: Limits, files: Files, k: Key) {
    && Metadata(k) in files && files[Metadata(k)].Json?
    && RecordAccepted(lim, Metadata(k), files[Metadata(k)].record)
    && ContentMatches(files, files[Metadata(k)].record)
  }

  /** A valid pair, as the two files: a record of the present version under its key's name, and the content it describes. */
  lemma ValidPairMeans(lim: Limits, files: Files, k: Key)
    ensures ValidPair(lim, files, k) <==> exists id: nat, content: Bytes, info: Info, cachedAt: nat ::
      && |content| <= lim.maxBytes
      && (Metadata(k), Json(Record(1, k, Content(k, id), |content|, Sha256(content), info, cachedAt))) in files.Items
      && (Content(k, id), Plain(content)) in files.Items
  {
    if ValidPair(lim, files, k) {
      var r := files[Metadata(k)].record;
      var content := files[r.path].content;
      assert r == Record(1, k, Content(k, r.path.id), |content|, Sha256(content), r.info, r.cachedAt);
      assert (Metadata(k), Json(Record(1, k, Content(k, r.path.id), |content|, Sha256(content), r.info, r.cachedAt))) in files.Items;
      assert (Content(k, r.path.id), Plain(content)) in files.Items;
    }
  }

  function CandidateOf(r: Record): Candidate {
    Candidate(r.cachedAt, r.key, Entry(r.path, r.size, r.digest, r.info))
  }

  function Candidates(lim: Limits, files: Files, listing: seq<FileName>): seq<Candidate> {
    if listing == [] then []
    else
      var f := listing[|listing| - 1];
      Candidates(lim, files, listing[..|listing| - 1])
      + (if f.Metadata? && ValidPair(lim, files, f.key) then [CandidateOf(files[f].record)] else [])
  }

  function InsertByTime(c: seq<Candidate>, x: Candidate): seq<Candidate> {
    if c == [] || c[|c| - 1].cachedAt <= x.cachedAt then c + [x]
    else InsertByTime(c[..|c| - 1], x) + [c[|c| - 1]]
  }

  /** `sort_by_key` on the publication time: stable, so equal times keep the order of the listing. */
  function SortByTime(c: seq<Candidate>): seq<Candidate> {
    if c == [] then [] else InsertByTime(SortByTime(c[..|c| - 1]), c[|c| - 1])
  }

  /** The candidates as cache entries, the last first. */
  function Newest(c: seq<Candidate>): Entries {
    if c == [] then [] else [(c[|c| - 1].key, c[|c| - 1].entry)] + Newest(c[..|c| - 1])
  }

  /** What recovery is for: of the valid pairs, the longest most recently published prefix within the limits. */
  ghost function Recovered(lim: Limits, files: Files, listing: seq<FileName>): Entries {
    Trim(Newest(SortByTime(Candidates(lim, files, listing))), lim)
  }

  /** A record in a file that is not its key's, which names content of its key. */
  predicate Misfiled(files: Files, f: FileName) {
    && f in files && IsRecordFile(f) && files[f].Json?
    && f != Metadata(files[f].record.key) && LayoutOk(files[f].record)
  }

  /** No misfiled record names the content of a valid pair. */
  ghost predicate Unclaimed(lim: Limits, files: Files) {
    forall f, k | Misfiled(files, f) && ValidPair(lim, files, k) :: files[f].record.path != files[Metadata(k)].record.path
  }

  ghost predicate Sound(lim: Limits, files: Files) {
    2 * lim.maxBytes <= U64_MAX && Unclaimed(lim, files)
  }

  /** Everything the directory lists, once. */
  ghost predicate Lists(listing: seq<FileName>, files: Files) {
    && (forall f :: f in listing <==> f in files)
    && (forall i, j | 0 <= i < j < |listing| :: listing[i] != listing[j])
  }

  // ---- Lemmas on candidates ----

  ghost predicate Ordered(c: seq<Candidate>) {
    forall i, j | 0 <= i < j < |c| :: c[i].cachedAt <= c[j].cachedAt
  }

  ghost predicate DistinctKeys(c: seq<Candidate>) {
    forall i, j | 0 <= i < j < |c| :: c[i].key != c[j].key
  }

  lemma {:induction false} InsertByTimeMembers(c: seq<Candidate>, x: Candidate)
    ensures multiset(InsertByTime(c, x)) == multiset(c) + multiset{x}
  {
    if !(c == [] || c[|c| - 1].cachedAt <= x.cachedAt) {
      var s, last := c[..|c| - 1], c[|c| - 1];
      assert c == s + [last];
      InsertByTimeMembers(s, x);
    }
  }

  lemma {:induction false} InsertByTimeBelow(c: seq<Candidate>, x: Candidate, limit: nat)
    requires x.cachedAt <= limit && forall y | y in c :: y.cachedAt <= limit
    ensures forall y | y in InsertByTime(c, x) :: y.cachedAt <= limit
  {
    if !(c == [] || c[|c| - 1].cachedAt <= x.cachedAt) {
      InsertByTimeBelow(c[..|c| - 1], x, limit);
    }
  }

  lemma {:induction false} InsertByTimeSorts(c: seq<Candidate>, x: Candidate)
    requires Ordered(c)
    ensures Ordered(InsertByTime(c, x))
  {
    if !(c == [] || c[|c| - 1].cachedAt <= x.cachedAt) {
      var s, last := c[..|c| - 1], c[|c| - 1];
      InsertByTimeSorts(s, x);
      forall y | y in s ensures y.cachedAt <= last.cachedAt {
        var i :| 0 <= i < |s| && s[i] == y;
        assert c[i] == y;
      }
      InsertByTimeBelow(s, x, last.cachedAt);
    }
  }

  lemma {:induction false} SortByTimeSorts(c: seq<Candidate>)
    ensures Ordered(SortByTime(c)) && multiset(SortByTime(c)) == multiset(c)
  {
    if c != [] {
      SortByTimeSorts(c[..|c| - 1]);
      InsertByTimeSorts(SortByTime(c[..|c| - 1]), c[|c| - 1]);
      InsertByTimeMembers(SortByTime(c[..|c| - 1]), c[|c| - 1]);
      assert c == c[..|c| - 1] + [c[|c| - 1]];
    }
  }

  ghost predicate Precedes(c: seq<Candidate>, x: Candidate, y: Candidate) {
    exists i, j | 0 <= i < j < |c| :: c[i] == x && c[j] == y
  }

  lemma {:induction false} InsertByTimeKeepsOrder(c: seq<Candidate>, z: Candidate, x: Candidate, y: Candidate)
    requires Precedes(c, x, y)
    ensures Precedes(InsertByTime(c, z), x, y)
  {
    var i, j :| 0 <= i < j < |c| && c[i] == x && c[j] == y;
    if c[|c| - 1].cachedAt <= z.cachedAt {
      assert (c + [z])[i] == x && (c + [z])[j] == y;
    } else {
      var s := c[..|c| - 1];
      var t := InsertByTime(s, z);
      if j == |c| - 1 {
        InsertByTimeMembers(s, z);
        assert s[i] == x && x in s;
        assert multiset(t)[x] > 0;
        var n :| 0 <= n < |t| && t[n] == x;
        assert (t + [c[|c| - 1]])[n] == x && (t + [c[|c| - 1]])[|t|] == y;
      } else {
        assert s[i] == x && s[j] == y;
        InsertByTimeKeepsOrder(s, z, x, y);
        var n, m :| 0 <= n < m < |t| && t[n] == x && t[m] == y;
        assert (t + [c[|c| - 1]])[n] == x && (t + [c[|c| - 1]])[m] == y;
      }
    }
  }

  lemma {:induction false} InsertByTimeGoesAfter(c: seq<Candidate>, z: Candidate, x: Candidate)
    requires x in c && Ordered(c) && x.cachedAt <= z.cachedAt
    ensures Precedes(InsertByTime(c, z), x, z)
  {
    var i :| 0 <= i < |c| && c[i] == x;
    if c[|c| - 1].cachedAt <= z.cachedAt {
      assert (c + [z])[i] == x && (c + [z])[|c|] == z;
    } else {
      var s := c[..|c| - 1];
      assert s[i] == x;
      InsertByTimeGoesAfter(s, z, x);
      var t := InsertByTime(s, z);
      var n, m :| 0 <= n < m < |t| && t[n] == x && t[m] == z;
      assert (t + [c[|c| - 1]])[n] == x && (t + [c[|c| - 1]])[m] == z;
    }
  }

  /** Sorting is stable: of two candidates, one that came first and is not later stays first. */
  lemma {:induction false} SortByTimeIsStable(c: seq<Candidate>, i: nat, j: nat)
    requires i < j < |c| && c[i].cachedAt <= c[j].cachedAt
    ensures Precedes(SortByTime(c), c[i], c[j])
  {
    var s, z := c[..|c| - 1], c[|c| - 1];
    SortByTimeSorts(s);
    if j < |s| {
      SortByTimeIsStable(s, i, j);
      InsertByTimeKeepsOrder(SortByTime(s), z, c[i], c[j]);
    } else {
      assert s[i] == c[i] && c[i] in s;
      assert multiset(SortByTime(s))[c[i]] > 0;
      InsertByTimeGoesAfter(SortByTime(s), z, c[i]);
    }
  }

  lemma SameKeysDistinct(a: seq<Candidate>, b: seq<Candidate>)
    requires multiset(a) == multiset(b) && DistinctKeys(a)
    ensures DistinctKeys(b)
    ensures forall x :: x in a <==> x in b
  {
    forall x ensures x in a <==> x in b {
      assert x in a <==> x in multiset(a);
      assert x in b <==> x in multiset(b);
    }
    forall i, j | 0 <= i < j < |b| ensures b[i].key != b[j].key {
      MultiplicityOne(a, b[i]);
      assert b[i] in a && b[j] in a;
      OnePerKey(a, b[i], b[j]);
      if b[i] == b[j] {
        TwiceCounts(b, i, j);
      }
    }
  }

  lemma OnePerKey(a: seq<Candidate>, x: Candidate, y: Candidate)
    requires DistinctKeys(a) && x in a && y in a
    ensures x.key == y.key ==> x == y
  {
    var p :| 0 <= p < |a| && a[p] == x;
    var q :| 0 <= q < |a| && a[q] == y;
    assert p < q || q < p || p == q;
  }

  lemma {:induction false} MultiplicityOne(a: seq<Candidate>, x: Candidate)
    requires DistinctKeys(a)
    ensures multiset(a)[x] <= 1
  {
    if a != [] {
      var s := a[..|a| - 1];
      assert a == s + [a[|a| - 1]];
      MultiplicityOne(s, x);
      if x == a[|a| - 1] {
        assert x !in s;
      }
    }
  }

  lemma TwiceCounts(b: seq<Candidate>, i: nat, j: nat)
    requires i < j < |b| && b[i] == b[j]
    ensures multiset(b)[b[i]] >= 2
  {
    assert b == b[..j] + b[j..];
    assert b[i] in b[..j] && b[i] in b[j..] by { assert b[..j][i] == b[i] && b[j..][0] == b[j]; }
  }

  /** The candidates are exactly the valid pairs, one each. */
  lemma {:induction false} CandidatesAreValidPairs(lim: Limits, files: Files, listing: seq<FileName>)
    requires forall i, j | 0 <= i < j < |listing| :: listing[i] != listing[j]
    ensures var c := Candidates(lim, files, listing);
      && DistinctKeys(c)
      && (forall x | x in c :: ValidPair(lim, files, x.key) && Metadata(x.key) in listing && x == CandidateOf(files[Metadata(x.key)].record))
      && (forall k | Metadata(k) in listing && ValidPair(lim, files, k) :: CandidateOf(files[Metadata(k)].record) in c)
  {
    if listing != [] {
      var s, f := listing[..|listing| - 1], listing[|listing| - 1];
      CandidatesAreValidPairs(lim, files, s);
      assert listing == s + [f];
      assert f !in s;
    }
  }

  lemma {:induction false} NewestMeans(c: seq<Candidate>)
    requires DistinctKeys(c)
    ensures Lru.Distinct(Newest(c)) && |Newest(c)| == |c|
    ensures forall i | 0 <= i < |c| :: Newest(c)[i] == (c[|c| - 1 - i].key, c[|c| - 1 - i].entry)
  {
    if c != [] {
      var s := c[..|c| - 1];
      NewestMeans(s);
      var n, m := Newest(c), Newest(s);
      assert n == [(c[|c| - 1].key, c[|c| - 1].entry)] + m;
      forall i | 0 <= i < |c| ensures n[i] == (c[|c| - 1 - i].key, c[|c| - 1 - i].entry) {
        if i > 0 {
          assert n[i] == m[i - 1];
          assert s[|s| - 1 - (i - 1)] == c[|c| - 1 - i];
        }
      }
    }
  }

  lemma NewestHolds(c: seq<Candidate>, p: (Key, Entry))
    requires DistinctKeys(c)
    ensures p in Newest(c) <==> exists x :: x in c && p == (x.key, x.entry)
  {
    NewestMeans(c);
    if p in Newest(c) {
      var i :| 0 <= i < |c| && Newest(c)[i] == p;
      assert c[|c| - 1 - i] in c;
    }
    if exists x :: x in c && p == (x.key, x.entry) {
      var x :| x in c && p == (x.key, x.entry);
      var i :| 0 <= i < |c| && c[i] == x;
      assert Newest(c)[|c| - 1 - i] == p;
    }
  }

  /** The sorted candidates, as entries: distinct keys, and exactly the valid pairs. */
  lemma SortedCandidates(lim: Limits, files: Files, listing: seq<FileName>)
    requires Lists(listing, files)
    ensures var c := SortByTime(Candidates(lim, files, listing));
      && DistinctKeys(c) && Ordered(c)
      && Lru.Distinct(Newest(c))
      && (forall k, e :: (k, e) in Newest(c) <==> ValidPair(lim, files, k) && e == CandidateOf(files[Metadata(k)].record).entry)
      && (forall x :: x in c <==> ValidPair(lim, files, x.key) && x == CandidateOf(files[Metadata(x.key)].record))
  {
    var a := Candidates(lim, files, listing);
    var c := SortByTime(a);
    CandidatesAreValidPairs(lim, files, listing);
    SortByTimeSorts(a);
    SameKeysDistinct(a, c);
    NewestMeans(c);
    forall x ensures x in c <==> ValidPair(lim, files, x.key) && x == CandidateOf(files[Metadata(x.key)].record) {
      if ValidPair(lim, files, x.key) {
        assert Metadata(x.key) in listing;
      }
    }
    forall k, e ensures (k, e) in Newest(c) <==> ValidPair(lim, files, k) && e == CandidateOf(files[Metadata(k)].record).entry {
      NewestHolds(c, (k, e));
      if ValidPair(lim, files, k) && e == CandidateOf(files[Metadata(k)].record).entry {
        var x := CandidateOf(files[Metadata(k)].record);
        assert x in c && (k, e) == (x.key, x.entry);
      }
    }
  }

  // ---- The recovery itself ----

  /** Recovery takes the file for the cache's own: by the tests on its name, see `FileNames.KindIsSpelled`. */
  predicate Owned(f: FileName) {
    KindOf(f) != NotOwned
  }

  /** Both files of every valid pair. */
  ghost predicate PairsSpared(lim: Limits, before: Files, now: Files) {
    forall k | ValidPair(lim, before, k) :: Metadata(k) in now && before[Metadata(k)].record.path in now
  }

  /** What the first pass leaves: no file added or altered, no user file touched, and valid pairs spared unless claimed. */
  ghost predicate Untouched(lim: Limits, before: Files, now: Files) {
    && (forall f | f in now :: f in before && now[f] == before[f])
    && (forall f | f in before && !Owned(f) :: f in now)
    && (Unclaimed(lim, before) ==> PairsSpared(lim, before, now))
  }

  /** One metadata file in the first pass: accept its pair, or discard it with the content it may claim. */
  method Examine(disk: Disk, lim: Limits, f: FileName, ghost before: Files) returns (accepted: Option<Candidate>, clean: bool)
    requires f in disk.files && IsRecordFile(f) && Untouched(lim, before, disk.files)
    modifies disk
    ensures Untouched(lim, before, disk.files)
    ensures Unclaimed(lim, before) ==>
      accepted == if f.Metadata? && ValidPair(lim, before, f.key) then Some(CandidateOf(before[f].record)) else None
    ensures accepted.None? && clean ==> f !in disk.files
    ensures accepted.Some? ==> accepted.value.entry.path.Content? && f == Metadata(accepted.value.key)
    // A rejected record takes the content it names with it, even when that is another key's.
    ensures clean && Misfiled(before, f) ==> before[f].record.path !in disk.files
    ensures accepted.None? && clean && before[f].Json? && LayoutOk(before[f].record) ==> before[f].record.path !in disk.files
    ensures disk.failures >= old(disk.failures) && (clean <==> disk.failures == old(disk.failures))
    ensures disk.files.Keys <= old(disk.files).Keys
    ensures forall g | g in old(disk.files) && g !in disk.files ::
      g == f || (g.Content? && before[f].Json? && LayoutOk(before[f].record) && g == before[f].record.path)
  {
    var data := disk.files[f];
    clean := true;
    if !data.Json? {
      clean := disk.TryRemove(f);
      return None, clean;
    }
    var r := data.record;
    if !RecordAccepted(lim, f, r) {
      clean := disk.TryRemove(f);
      if LayoutOk(r) {
        var gone := disk.TryRemove(r.path);
        clean := clean && gone;
      }
      return None, clean;
    }
    if !ContentMatches(disk.files, r) {
      clean := disk.TryRemove(f);
      var gone := disk.TryRemove(r.path);
      clean := clean && gone;
      return None, clean;
    }
    accepted := Some(CandidateOf(r));
  }

  ghost predicate AllContent(c: seq<Candidate>) {
    forall x | x in c :: x.entry.path.Content?
  }

  /** One file of the listing in the first pass: metadata files are examined, others passed over. */
  method Visit(disk: Disk, lim: Limits, listing: seq<FileName>, i: nat, found: seq<Candidate>, clean: bool, ghost before: Files)
    returns (found': seq<Candidate>, clean': bool)
    requires i < |listing| && Scanned(lim, before, disk.files, listing[..i], found, clean)
    requires IsRecordFile(listing[i]) ==> listing[i] in disk.files
    modifies disk
    ensures Scanned(lim, before, disk.files, listing[..i + 1], found', clean')
    ensures disk.failures >= old(disk.failures) && (clean' <==> clean && disk.failures == old(disk.failures))
    ensures forall g | g in old(disk.files) && g !in disk.files :: !IsRecordFile(g) || g == listing[i]
  {
    var f := listing[i];
    var accepted: Option<Candidate>, ok := None, true;
    ScannedIsUntouched(lim, before, disk.files, listing[..i], found, clean);
    MetadataAreRecordFiles(f);
    if IsRecordFile(f) {
      accepted, ok := Examine(disk, lim, f, before);
    }
    forall g: FileName ensures g.Content? ==> !IsRecordFile(g) {
      MetadataAreRecordFiles(g);
    }
    ScannedStep(lim, before, old(disk.files), disk.files, listing, i, found, clean, accepted, ok);
    found' := found + (if accepted.Some? then [accepted.value] else []);
    clean' := clean && ok;
  }

  /**
   The first pass spares every valid pair exactly when no misfiled record claims one, in whatever order the directory
   is listed: when nothing is claimed, always; when something is, every removal that succeeds takes claimed content.
   */
  method FirstPass(disk: Disk, lim: Limits, listing: seq<FileName>)
    returns (found: seq<Candidate>, clean: bool)
    requires Lists(listing, disk.files)
    modifies disk
    ensures Untouched(lim, old(disk.files), disk.files)
    ensures disk.failures >= old(disk.failures) && (clean <==> disk.failures == old(disk.failures))
    ensures AllContent(found)
    ensures Unclaimed(lim, old(disk.files)) ==> found == Candidates(lim, old(disk.files), listing)
    ensures Unclaimed(lim, old(disk.files)) && clean ==>
      forall f | f in disk.files && IsRecordFile(f) :: f.Metadata? && ValidPair(lim, old(disk.files), f.key)
    ensures clean ==> forall f | Misfiled(old(disk.files), f) :: old(disk.files)[f].record.path !in disk.files
    ensures clean ==> (Unclaimed(lim, old(disk.files)) <==> PairsSpared(lim, old(disk.files), disk.files))
  {
    ghost var before := disk.files;
    found, clean := [], true;
    NothingSeen(lim, before);
    assert listing[..0] == [];
    hide *;
    for i := 0 to |listing|
      invariant Scanned(lim, before, disk.files, listing[..i], found, clean)
      invariant disk.failures >= old(disk.failures) && (clean <==> disk.failures == old(disk.failures))
      invariant forall j | i <= j < |listing| && IsRecordFile(listing[j]) :: listing[j] in disk.files
    {
      found, clean := Visit(disk, lim, listing, i, found, clean, before);
    }
    assert listing[..|listing|] == listing;
    ScannedAll(lim, before, disk.files, listing, found, clean);
  }

  /** What the pass has done when it has seen a part of the listing. */
  ghost predicate Scanned(lim: Limits, before: Files, now: Files, seen: seq<FileName>, found: seq<Candidate>, clean: bool) {
    && now.Keys <= before.Keys && AllContent(found) && Untouched(lim, before, now)
    && (Unclaimed(lim, before) ==> found == Candidates(lim, before, seen))
    && (Unclaimed(lim, before) && clean ==> Discarded(lim, before, now, seen))
    && (clean ==> ClaimsLost(before, now, seen))
  }

  lemma ScannedIsUntouched(lim: Limits, before: Files, now: Files, seen: seq<FileName>, found: seq<Candidate>, clean: bool)
    requires Scanned(lim, before, now, seen, found, clean)
    ensures Untouched(lim, before, now)
  {
    hide Untouched;
  }

  lemma ScannedIs(lim: Limits, before: Files, now: Files, seen: seq<FileName>, found: seq<Candidate>, clean: bool)
    requires Scanned(lim, before, now, seen, found, clean)
    ensures now.Keys <= before.Keys && AllContent(found) && Untouched(lim, before, now)
    ensures Unclaimed(lim, before) ==> found == Candidates(lim, before, seen)
    ensures Unclaimed(lim, before) && clean ==> Discarded(lim, before, now, seen)
    ensures clean ==> ClaimsLost(before, now, seen)
  {
    hide Untouched;
    hide Unclaimed;
    hide Candidates;
    hide Discarded;
    hide ClaimsLost;
    hide AllContent;
  }

  /** One file further: either it is no record file and nothing happens, or it was examined. */
  lemma ScannedStep(lim: Limits, before: Files, was: Files, now: Files, listing: seq<FileName>, i: nat,
                    found: seq<Candidate>, clean: bool, accepted: Option<Candidate>, ok: bool)
    requires i < |listing| && Scanned(lim, before, was, listing[..i], found, clean)
    requires Untouched(lim, before, now) && now.Keys <= was.Keys
    requires accepted.Some? ==> accepted.value.entry.path.Content?
    requires Unclaimed(lim, before) ==>
      accepted == if listing[i].Metadata? && ValidPair(lim, before, listing[i].key) then Some(CandidateOf(before[listing[i]].record)) else None
    requires IsRecordFile(listing[i]) && accepted.None? && ok ==> listing[i] !in now
    requires ok && Misfiled(before, listing[i]) ==> before[listing[i]].record.path !in now
    ensures Scanned(lim, before, now, listing[..i + 1], found + (if accepted.Some? then [accepted.value] else []), clean && ok)
  {
    ScannedIs(lim, before, was, listing[..i], found, clean);
    CandidatesStep(lim, before, listing, i);
    hide Untouched;
    hide Unclaimed;
    hide ValidPair;
    hide CandidateOf;
    hide KindOf;
    hide Misfiled;
    hide Candidates;
    hide Discarded;
    hide ClaimsLost;
    if clean && ok {
      ClaimsStep(before, was, now, listing, i);
      if Unclaimed(lim, before) {
        DiscardedStep(lim, before, was, now, listing, i);
      }
    }
    if Unclaimed(lim, before) {
      assert accepted.None? ==> found + [] == found;
    }
  }

  lemma ScannedAll(lim: Limits, before: Files, now: Files, listing: seq<FileName>, found: seq<Candidate>, clean: bool)
    requires Lists(listing, before) && Scanned(lim, before, now, listing, found, clean)
    ensures Untouched(lim, before, now) && AllContent(found)
    ensures Unclaimed(lim, before) ==> found == Candidates(lim, before, listing)
    ensures Unclaimed(lim, before) && clean ==>
      forall f | f in now && IsRecordFile(f) :: f.Metadata? && ValidPair(lim, before, f.key)
    ensures clean ==> forall f | Misfiled(before, f) :: before[f].record.path !in now
    ensures clean ==> (Unclaimed(lim, before) <==> PairsSpared(lim, before, now))
  {
    ScannedIs(lim, before, now, listing, found, clean);
    hide AllContent;
    hide ValidPair;
    hide Misfiled;
    hide PairsSpared;
    hide KindOf;
    hide ClaimsLost;
    if clean {
      ClaimedIff(lim, before, now, listing);
    }
    hide Untouched;
    hide Unclaimed;
    hide Candidates;
  }

  lemma NothingSeen(lim: Limits, before: Files)
    ensures Scanned(lim, before, before, [], [], true)
  {
  }

  lemma MetadataAreRecordFiles(f: FileName)
    ensures f.Metadata? ==> IsRecordFile(f)
    ensures f.Content? ==> !IsRecordFile(f)
  {
  }

  /** The metadata files seen so far and still there belong to valid pairs. */
  ghost predicate Discarded(lim: Limits, before: Files, now: Files, seen: seq<FileName>) {
    forall f | f in now && f in seen && IsRecordFile(f) :: f.Metadata? && ValidPair(lim, before, f.key)
  }

  /** The misfiled records seen so far have lost the content they name. */
  ghost predicate ClaimsLost(before: Files, now: Files, seen: seq<FileName>) {
    forall f | f in seen && Misfiled(before, f) :: before[f].record.path !in now
  }

  lemma ClaimsStep(before: Files, was: Files, now: Files, listing: seq<FileName>, i: nat)
    requires i < |listing| && ClaimsLost(before, was, listing[..i]) && now.Keys <= was.Keys
    requires Misfiled(before, listing[i]) ==> before[listing[i]].record.path !in now
    ensures ClaimsLost(before, now, listing[..i + 1])
  {
    hide Misfiled;
    assert listing[..i + 1] == listing[..i] + [listing[i]];
  }

  lemma ClaimedIff(lim: Limits, before: Files, now: Files, listing: seq<FileName>)
    requires Lists(listing, before) && ClaimsLost(before, now, listing) && Untouched(lim, before, now)
    ensures forall f | Misfiled(before, f) :: before[f].record.path !in now
    ensures Unclaimed(lim, before) <==> PairsSpared(lim, before, now)
  {
    hide ValidPair;
    hide KindOf;
  }

  lemma CandidatesStep(lim: Limits, files: Files, listing: seq<FileName>, i: nat)
    requires i < |listing|
    ensures Candidates(lim, files, listing[..i + 1]) == Candidates(lim, files, listing[..i])
      + (if listing[i].Metadata? && ValidPair(lim, files, listing[i].key) then [CandidateOf(files[listing[i]].record)] else [])
  {
    assert listing[..i + 1][..i] == listing[..i] && listing[..i + 1][i] == listing[i];
  }

  lemma DiscardedStep(lim: Limits, before: Files, was: Files, now: Files, listing: seq<FileName>, i: nat)
    requires i < |listing| && Discarded(lim, before, was, listing[..i]) && now.Keys <= was.Keys
    requires IsRecordFile(listing[i]) && listing[i] in now ==> listing[i].Metadata? && ValidPair(lim, before, listing[i].key)
    ensures Discarded(lim, before, now, listing[..i + 1])
  {
    hide ValidPair;
    hide KindOf;
    assert listing[..i + 1] == listing[..i] + [listing[i]];
  }

  /** The second pass removes what is recognised as the cache's own and not part of a valid pair. */
  method SecondPass(disk: Disk, listing: seq<FileName>, keep: set<FileName>) returns (clean: bool)
    requires forall f | f in disk.files :: f in listing
    modifies disk
    ensures forall f | f in disk.files :: f in old(disk.files) && disk.files[f] == old(disk.files)[f]
    ensures forall f | f in old(disk.files) && (f in keep || !Owned(f)) :: f in disk.files
    ensures disk.failures >= old(disk.failures) && (clean <==> disk.failures == old(disk.failures))
    ensures clean ==> forall f | f in disk.files && Owned(f) :: f in keep
  {
    clean := true;
    for i := 0 to |listing|
      invariant disk.failures >= old(disk.failures) && (clean <==> disk.failures == old(disk.failures))
      invariant forall f | f in disk.files :: f in old(disk.files) && disk.files[f] == old(disk.files)[f]
      invariant forall f | f in old(disk.files) && (f in keep || !Owned(f)) :: f in disk.files
      invariant clean ==> forall f | f in disk.files && Owned(f) && f in listing[..i] :: f in keep
    {
      assert listing[..i + 1] == listing[..i] + [listing[i]];
      if Owned(listing[i]) && listing[i] !in keep {
        var ok := disk.TryRemove(listing[i]);
        clean := clean && ok;
      }
    }
    assert listing[..|listing|] == listing;
  }

  /** The entries a rebuild step drops. */
  ghost predicate DropsInto(c: seq<Candidate>, entries: Entries, evicted: seq<FileName>) {
    && (forall x | x in c :: (x.key, x.entry) in entries || x.entry.path in evicted)
    && (forall p | p in entries :: exists x :: x in c && p == (x.key, x.entry))
    && (forall q | q in evicted :: exists x :: x in c && x.entry.path == q && (x.key, x.entry) !in entries)
  }

  /** One round of the rebuilding loop, which is an insertion under the same rule as a publication's. */
  method Admit(cache: CacheState, x: Candidate) returns (gone: seq<FileName>)
    requires cache.Valid()
    modifies cache
    ensures cache.Valid() && cache.generations == old(cache.generations)
    ensures var (m', _, evicted) := Insert(old(cache.Value()), cache.limits, x.key, x.entry, IfGeneration(0));
      cache.Value() == m' && gone == Replaced(old(cache.entries), x.key) + evicted
  {
    var popped := cache.Pop(x.key);
    gone := if popped.Some? then [popped.value.path] else [];
    ghost var w := cache.entries;
    var forEntry := cache.EvictForEntry();
    assert Lru.Find(cache.entries, x.key).None? by {
      forall i | 0 <= i < |cache.entries| ensures cache.entries[i].0 != x.key {
        assert w[i] in w;
      }
    }
    Lru.ConsDistinct(cache.entries, x.key, x.entry);
    cache.entries := Lru.Put(cache.entries, cache.limits.capacity, x.key, x.entry);
    cache.currentBytes := SatAdd(cache.currentBytes, x.entry.size);
    var forBytes := cache.EvictForBytes();
    gone := gone + (forEntry + forBytes);
  }

  /** A second record of one key would replace the first; with one metadata file a key it never happens. */
  function Replaced(entries: Entries, key: Key): seq<FileName> {
    match Lru.Find(entries, key) case None => [] case Some(e) => [e.path]
  }

  ghost predicate ContentPaths(l: Entries) {
    forall p | p in l :: p.1.path.Content?
  }

  lemma InsertContentPaths(m: Memory, lim: Limits, key: Key, e: Entry)
    requires ContentPaths(m.entries) && e.path.Content?
    ensures var (m', _, evicted) := Insert(m, lim, key, e, IfGeneration(0));
      ContentPaths(m'.entries) && forall q | q in Replaced(m.entries, key) + evicted :: q.Content?
  {
    hide Insert;
    InsertSplits(m, lim, key, e, IfGeneration(0));
    var all := [(key, e)] + Lru.Without(m.entries, key);
    assert ContentPaths(all);
    var kept := Insert(m, lim, key, e, IfGeneration(0)).0.entries;
    assert forall p | p in kept :: p in all;
    assert forall p | p in all[|kept|..] :: p in all;
    if Lru.Find(m.entries, key).Some? {
      assert (key, Lru.Find(m.entries, key).value) in m.entries;
    }
  }

  lemma AdmitStep(lim: Limits, c: seq<Candidate>, x: Candidate, entries: Entries, evicted: seq<FileName>)
    requires ValidLimits(lim) && DistinctKeys(c + [x]) && x.entry.size <= lim.maxBytes
    requires entries == Trim(Newest(c), lim) && DropsInto(c, entries, evicted)
    ensures var m := Memory(entries, SizeOf(entries), map[]);
      var (m', _, gone) := Insert(m, lim, x.key, x.entry, IfGeneration(0));
      && Lru.Find(entries, x.key).None? && Lru.Distinct(entries)
      && m'.entries == Trim(Newest(c + [x]), lim) && m'.currentBytes == SizeOf(m'.entries)
      && DropsInto(c + [x], m'.entries, evicted + gone)
  {
    var m := Memory(entries, SizeOf(entries), map[]);
    AdmitReady(lim, c, x, entries, evicted);
    MakeRoomExact(m, lim, x.key);
    hide Insert;
    hide DropsInto;
    hide Trim;
    InsertIsExactLru(m, lim, x.key, x.entry, IfGeneration(0));
    TrimOfTrim((x.key, x.entry), Newest(c), lim);
    assert (c + [x])[..|c|] == c;
    AdmitDrops(lim, c, x, m, evicted);
  }

  lemma AdmitReady(lim: Limits, c: seq<Candidate>, x: Candidate, entries: Entries, evicted: seq<FileName>)
    requires ValidLimits(lim) && DistinctKeys(c + [x])
    requires entries == Trim(Newest(c), lim) && DropsInto(c, entries, evicted)
    ensures Accounted(Memory(entries, SizeOf(entries), map[]), lim)
    ensures Lru.Find(entries, x.key).None? && Lru.Without(entries, x.key) == entries
    ensures Replaced(entries, x.key) == []
    ensures forall y | y in c :: y.key != x.key
  {
    assert DistinctKeys(c) by {
      assert forall i | 0 <= i < |c| :: (c + [x])[i] == c[i];
    }
    NewestMeans(c);
    TrimIsLongest(Newest(c), lim);
    Lru.PrefixDistinct(Newest(c), |entries|);
    forall y | y in c ensures y.key != x.key {
      var j :| 0 <= j < |c| && c[j] == y;
      assert (c + [x])[j] == y && (c + [x])[|c|] == x;
    }
    forall i | 0 <= i < |entries| ensures entries[i].0 != x.key {
      assert entries[i] in entries;
      var y :| y in c && entries[i] == (y.key, y.entry);
    }
    assert Lru.Find(entries, x.key).None?;
    Lru.WithoutDistinct(entries, x.key);
  }

  lemma AdmitDrops(lim: Limits, c: seq<Candidate>, x: Candidate, m: Memory, evicted: seq<FileName>)
    requires Lru.Distinct(m.entries) && Lru.Find(m.entries, x.key).None?
    requires forall y | y in c :: y.key != x.key
    requires Insert(m, lim, x.key, x.entry, IfGeneration(0)).0.entries != []
    requires Insert(m, lim, x.key, x.entry, IfGeneration(0)).0.entries[0] == (x.key, x.entry)
    requires DropsInto(c, m.entries, evicted)
    ensures var (m', _, gone) := Insert(m, lim, x.key, x.entry, IfGeneration(0));
      DropsInto(c + [x], m'.entries, evicted + gone)
  {
    hide Insert;
    hide Newest;
    var (m', _, gone) := Insert(m, lim, x.key, x.entry, IfGeneration(0));
    AdmitKeepsOnly(lim, c, x, m);
    assert forall y | y in c + [x] :: y in c || y == x;
    forall y | y in c + [x] ensures (y.key, y.entry) in m'.entries || y.entry.path in evicted + gone {
      if y in c && (y.key, y.entry) in m.entries && (y.key, y.entry) !in m'.entries {
        InsertEvictsAll(m, lim, x.key, x.entry, IfGeneration(0), (y.key, y.entry));
      }
    }
    forall p | p in m'.entries ensures exists y :: y in c + [x] && p == (y.key, y.entry) {
      if p == (x.key, x.entry) {
        assert x in c + [x];
      } else {
        var y :| y in c && p == (y.key, y.entry);
        assert y in c + [x];
      }
    }
    forall q | q in evicted + gone ensures exists y :: y in c + [x] && y.entry.path == q && (y.key, y.entry) !in m'.entries {
      AdmitEvicts(lim, c, x, m, evicted, q);
    }
  }

  lemma AdmitKeepsOnly(lim: Limits, c: seq<Candidate>, x: Candidate, m: Memory)
    requires Lru.Distinct(m.entries) && Lru.Find(m.entries, x.key).None?
    ensures forall p | p in Insert(m, lim, x.key, x.entry, IfGeneration(0)).0.entries :: p == (x.key, x.entry) || p in m.entries
  {
    InsertSplits(m, lim, x.key, x.entry, IfGeneration(0));
    hide Insert;
    var all := [(x.key, x.entry)] + Lru.Without(m.entries, x.key);
    var kept := Insert(m, lim, x.key, x.entry, IfGeneration(0)).0.entries;
    assert forall p | p in kept :: p in all;
  }

  lemma AdmitEvicts(lim: Limits, c: seq<Candidate>, x: Candidate, m: Memory, evicted: seq<FileName>, q: FileName)
    requires Lru.Distinct(m.entries) && DropsInto(c, m.entries, evicted) && forall y | y in c :: y.key != x.key
    requires Insert(m, lim, x.key, x.entry, IfGeneration(0)).0.entries != []
    requires forall p | p in Insert(m, lim, x.key, x.entry, IfGeneration(0)).0.entries :: p == (x.key, x.entry) || p in m.entries
    requires q in evicted || q in Insert(m, lim, x.key, x.entry, IfGeneration(0)).2
    ensures exists y :: y in c + [x] && y.entry.path == q
                     && (y.key, y.entry) !in Insert(m, lim, x.key, x.entry, IfGeneration(0)).0.entries
  {
    hide Insert;
    if q in evicted {
      var y :| y in c && y.entry.path == q && (y.key, y.entry) !in m.entries;
      assert y in c + [x];
    } else {
      InsertEvicts(m, lim, x.key, x.entry, IfGeneration(0), q);
      var p :| p in m.entries && p.0 != x.key && p !in Insert(m, lim, x.key, x.entry, IfGeneration(0)).0.entries && p.1.path == q;
      var y :| y in c && p == (y.key, y.entry);
      assert y in c + [x];
    }
  }

  /** The rebuilding loop: insert oldest first, evict as publication does, and end with the newest that fit. */
  method Rebuild(lim: Limits, c: seq<Candidate>) returns (entries: Entries, evicted: seq<FileName>)
    requires 1 <= lim.capacity
    ensures ValidLimits(lim) && WellSized(lim, c) ==> entries == Trim(Newest(c), lim) && DropsInto(c, entries, evicted)
    ensures Lru.Distinct(entries)
    ensures AllContent(c) ==> forall q | q in evicted :: q.Content?
  {
    var cache := new CacheState(lim, [], 0);
    evicted := [];
    assert c[..0] == [];
    RebuiltFromNothing(lim);
    for i := 0 to |c|
      invariant cache.Valid() && fresh(cache) && cache.limits == lim && cache.generations == map[]
      invariant Rebuilt(lim, c[..i], cache.entries, cache.currentBytes, evicted)
    {
      RebuiltStep(lim, c, i, cache.Value(), evicted);
      var gone := Admit(cache, c[i]);
      evicted := evicted + gone;
    }
    assert c[..|c|] == c;
    entries := cache.entries;
  }

  /** After some candidates: the newest of them that fit, an exact count, and the paths of the rest. */
  ghost predicate Rebuilt(lim: Limits, c: seq<Candidate>, entries: Entries, bytes: nat, evicted: seq<FileName>) {
    && (AllContent(c) ==> ContentPaths(entries) && forall q | q in evicted :: q.Content?)
    && (ValidLimits(lim) && WellSized(lim, c) ==>
          entries == Trim(Newest(c), lim) && bytes == SizeOf(entries) && DropsInto(c, entries, evicted))
  }

  lemma RebuiltFromNothing(lim: Limits)
    ensures Rebuilt(lim, [], [], 0, [])
  {
  }

  lemma RebuiltStep(lim: Limits, c: seq<Candidate>, i: nat, m: Memory, evicted: seq<FileName>)
    requires i < |c| && m.generations == map[] && Rebuilt(lim, c[..i], m.entries, m.currentBytes, evicted)
    ensures var (m', _, gone) := Insert(m, lim, c[i].key, c[i].entry, IfGeneration(0));
      Rebuilt(lim, c[..i + 1], m'.entries, m'.currentBytes, evicted + (Replaced(m.entries, c[i].key) + gone))
  {
    hide Insert;
    hide Trim;
    hide Newest;
    hide SizeOf;
    hide DropsInto;
    hide ContentPaths;
    var before, x := c[..i], c[i];
    assert c[..i + 1] == before + [x];
    assert x in c[..i + 1] && forall y | y in before :: y in c[..i + 1];
    if AllContent(c[..i + 1]) {
      InsertContentPaths(m, lim, x.key, x.entry);
    }
    if ValidLimits(lim) && WellSized(lim, c[..i + 1]) {
      assert DistinctKeys(before) by {
        assert forall j | 0 <= j < i :: before[j] == c[..i + 1][j];
      }
      AdmitStep(lim, before, x, m.entries, evicted);
      AdmitReady(lim, before, x, m.entries, evicted);
      var gone := Insert(m, lim, x.key, x.entry, IfGeneration(0)).2;
      assert [] + gone == gone;
    }
  }

  ghost predicate WellSized(lim: Limits, c: seq<Candidate>) {
    DistinctKeys(c) && forall x | x in c :: x.entry.size <= lim.maxBytes
  }

  /** A file an eviction takes: the content of an evicted entry, or its metadata file. */
  ghost predicate Evicts(evicted: seq<FileName>, f: FileName) {
    f in evicted || exists q :: q in evicted && q.Content? && f == Metadata(q.key)
  }

  /** `remove_owned_files` for every evicted path. */
  method RemoveEvicted(disk: Disk, evicted: seq<FileName>) returns (clean: bool)
    modifies disk
    ensures forall f | f in disk.files :: f in old(disk.files) && disk.files[f] == old(disk.files)[f]
    ensures forall f | f in old(disk.files) && f !in disk.files :: Evicts(evicted, f)
    ensures disk.failures >= old(disk.failures) && (clean <==> disk.failures == old(disk.failures))
    ensures clean ==> forall q | q in evicted && q.Content? :: q !in disk.files && Metadata(q.key) !in disk.files
  {
    clean := true;
    for i := 0 to |evicted|
      invariant disk.failures >= old(disk.failures) && (clean <==> disk.failures == old(disk.failures))
      invariant forall f | f in disk.files :: f in old(disk.files) && disk.files[f] == old(disk.files)[f]
      invariant forall f | f in old(disk.files) && f !in disk.files :: Evicts(evicted, f)
      invariant clean ==> forall q | q in evicted[..i] && q.Content? :: q !in disk.files && Metadata(q.key) !in disk.files
    {
      var q := evicted[i];
      assert evicted[..i + 1] == evicted[..i] + [q] && q in evicted;
      var ok := disk.TryRemove(q);
      clean := clean && ok;
      if q.Content? {
        ok := disk.TryRemove(Metadata(q.key));
        clean := clean && ok;
      }
    }
    assert evicted[..|evicted|] == evicted;
  }

  /** The files a recovered cache stands on. */
  ghost predicate Stands(entries: Entries, f: FileName) {
    exists p :: p in entries && (f == Metadata(p.0) || f == p.1.path)
  }

  /** What recovery leaves of a directory: the user's files, and the two files of every recovered entry. */
  ghost predicate CleanedTo(before: Files, entries: Entries, now: Files) {
    forall f :: f in now <==> f in before && (!Owned(f) || Stands(entries, f))
  }

  function KeepSet(found: seq<Candidate>): set<FileName> {
    (set x | x in found :: Metadata(x.key)) + (set x | x in found :: x.entry.path)
  }

  /**
   `recover_entries`, on any directory. No file whose name the tests do not recognise is ever touched. As long as no
   misfiled record claims a valid pair's content, the result is the specification and both files of every recovered
   entry are kept, whatever the removals did; and if they all succeeded, only the recovered pairs and the unrecognised
   files are left. See `RemovedBySpelling`.
   */
  method RecoverEntries(disk: Disk, lim: Limits, listing: seq<FileName>) returns (entries: Entries, clean: bool)
    requires 1 <= lim.capacity && 1 <= lim.maxBytes && Lists(listing, disk.files)
    modifies disk
    ensures forall f | f in disk.files :: f in old(disk.files) && disk.files[f] == old(disk.files)[f]
    ensures forall f | f in old(disk.files) && !Owned(f) :: f in disk.files
    ensures disk.failures >= old(disk.failures) && (clean <==> disk.failures == old(disk.failures))
    ensures Lru.Distinct(entries)
    ensures Sound(lim, old(disk.files)) ==> entries == Recovered(lim, old(disk.files), listing)
    ensures Sound(lim, old(disk.files)) ==> forall f | Stands(entries, f) :: f in disk.files
    ensures Sound(lim, old(disk.files)) && clean ==> CleanedTo(old(disk.files), entries, disk.files)
  {
    ghost var before := disk.files;
    var found, c1 := FirstPass(disk, lim, listing);
    ghost var first := disk.files;
    assert forall f | f in first :: f in before && first[f] == before[f];
    assert forall f | f in before && !Owned(f) :: f in first;
    var keep := KeepSet(found);
    var c2 := SecondPass(disk, listing, keep);
    ghost var second := disk.files;
    var sorted := SortByTime(found);
    SortKeepsMembers(found);
    var evicted;
    entries, evicted := Rebuild(lim, sorted);
    var c3 := RemoveEvicted(disk, evicted);
    clean := c1 && c2 && c3;
    if Sound(lim, before) {
      SortedWellSized(lim, before, listing);
      hide *;
      RecoveredFilesStay(lim, before, listing, first, second, disk.files, entries, evicted);
      if clean {
        SweepIsSwept(lim, before, first, second, disk.files, keep, evicted);
        RecoveryCleans(lim, before, listing, disk.files, entries, evicted);
      }
    }
  }

  lemma SortKeepsMembers(c: seq<Candidate>)
    ensures forall x :: x in SortByTime(c) <==> x in c
  {
    SortByTimeSorts(c);
    forall x ensures x in SortByTime(c) <==> x in c {
      assert x in SortByTime(c) <==> x in multiset(SortByTime(c));
      assert x in c <==> x in multiset(c);
    }
  }

  lemma SortedWellSized(lim: Limits, files: Files, listing: seq<FileName>)
    requires Lists(listing, files)
    ensures WellSized(lim, SortByTime(Candidates(lim, files, listing)))
  {
    SortedCandidates(lim, files, listing);
  }

  /** Both passes and the evictions, file by file: what is left, and why anything is gone. */
  ghost predicate Swept(lim: Limits, before: Files, now: Files, keep: set<FileName>, evicted: seq<FileName>) {
    && (forall f | f in now :: f in before && (!Owned(f) || f in keep))
    && (forall f | f in before && !Owned(f) && f !in now :: Evicts(evicted, f))
    && (forall k | ValidPair(lim, before, k) ::
          && (Metadata(k) in keep && Metadata(k) !in now ==> Evicts(evicted, Metadata(k)))
          && (before[Metadata(k)].record.path in keep && before[Metadata(k)].record.path !in now ==>
                Evicts(evicted, before[Metadata(k)].record.path)))
    && (forall q | q in evicted && q.Content? :: q !in now && Metadata(q.key) !in now)
  }

  lemma SweepIsSwept(lim: Limits, before: Files, first: Files, second: Files, now: Files, keep: set<FileName>, evicted: seq<FileName>)
    requires Unclaimed(lim, before) && Untouched(lim, before, first)
    requires forall f | f in second :: f in first
    requires forall f | f in first && (f in keep || !Owned(f)) :: f in second
    requires forall f | f in second && Owned(f) :: f in keep
    requires forall f | f in now :: f in second
    requires forall f | f in second && f !in now :: Evicts(evicted, f)
    requires forall q | q in evicted && q.Content? :: q !in now && Metadata(q.key) !in now
    ensures Swept(lim, before, now, keep, evicted)
  {
    hide Evicts;
    forall k | ValidPair(lim, before, k)
      ensures Metadata(k) in first && before[Metadata(k)].record.path in first
    {
    }
  }

  /** No removal, whichever of them succeed, takes a file that a recovered entry stands on. */
  lemma RecoveredFilesStay(lim: Limits, before: Files, listing: seq<FileName>, first: Files, second: Files, now: Files,
                           entries: Entries, evicted: seq<FileName>)
    requires Lists(listing, before) && PairsSpared(lim, before, first)
    requires DropsInto(SortByTime(Candidates(lim, before, listing)), entries, evicted)
    requires forall f | f in first && f in KeepSet(Candidates(lim, before, listing)) :: f in second
    requires forall f | f in second && f !in now :: Evicts(evicted, f)
    ensures forall f | Stands(entries, f) :: f in now
  {
    EvictedAreEvictable(lim, before, listing, entries, evicted);
    hide Candidates;
    hide DropsInto;
    hide KeepSet;
    hide ValidPair;
    hide Evictable;
    hide Stands;
    hide Evicts;
    forall f | Stands(entries, f) ensures f in now {
      StandsIsKept(lim, before, listing, entries, evicted, f);
    }
  }

  /** Taking files away leaves a sound directory sound: so it is after a recovery that stopped half-way. */
  lemma FewerFilesAreSound(lim: Limits, before: Files, now: Files)
    requires Sound(lim, before) && forall f | f in now :: f in before && now[f] == before[f]
    ensures Sound(lim, now)
  {
    hide IsRecordFile;
    hide RecordAccepted;
    forall f, k | Misfiled(now, f) && ValidPair(lim, now, k) ensures now[f].record.path != now[Metadata(k)].record.path {
      assert Misfiled(before, f) && ValidPair(lim, before, k);
    }
  }

  lemma RecoveryCleans(lim: Limits, before: Files, listing: seq<FileName>, now: Files, entries: Entries, evicted: seq<FileName>)
    requires Lists(listing, before)
    requires Swept(lim, before, now, KeepSet(Candidates(lim, before, listing)), evicted)
    requires DropsInto(SortByTime(Candidates(lim, before, listing)), entries, evicted)
    ensures CleanedTo(before, entries, now)
  {
    EvictedAreEvictable(lim, before, listing, entries, evicted);
    hide Candidates;
    hide DropsInto;
    hide KeepSet;
    hide ValidPair;
    hide Evictable;
    hide Stands;
    hide Evicts;
    forall f | f in now && Owned(f) ensures Stands(entries, f) {
      KeptStands(lim, before, listing, entries, evicted, now, f);
    }
    forall f | f in before && Stands(entries, f) ensures f in now {
      StandsIsKept(lim, before, listing, entries, evicted, f);
    }
    forall f | f in before && !Owned(f) ensures f in now {
      UserFileStays(lim, before, entries, evicted, f);
    }
  }

  lemma KeptStands(lim: Limits, before: Files, listing: seq<FileName>, entries: Entries, evicted: seq<FileName>,
                   now: Files, f: FileName)
    requires Lists(listing, before) && f in now && f in KeepSet(Candidates(lim, before, listing))
    requires DropsInto(SortByTime(Candidates(lim, before, listing)), entries, evicted)
    requires forall q | q in evicted && q.Content? :: q !in now && Metadata(q.key) !in now
    ensures Stands(entries, f)
  {
    var found := Candidates(lim, before, listing);
    SortKeepsMembers(found);
    CandidatesAreValidPairs(lim, before, listing);
    KeptIsCandidate(found, f);
    var x :| x in found && (f == Metadata(x.key) || f == x.entry.path);
    assert (x.key, x.entry) in entries || x.entry.path in evicted;
    assert (x.key, x.entry) in entries;
  }

  lemma StandsIsKept(lim: Limits, before: Files, listing: seq<FileName>, entries: Entries, evicted: seq<FileName>, f: FileName)
    requires Lists(listing, before) && Stands(entries, f)
    requires DropsInto(SortByTime(Candidates(lim, before, listing)), entries, evicted)
    requires Evictable(lim, before, entries, evicted)
    ensures f in KeepSet(Candidates(lim, before, listing))
    ensures exists k :: ValidPair(lim, before, k) && (f == Metadata(k) || f == before[Metadata(k)].record.path)
    ensures !Evicts(evicted, f)
  {
    var found := Candidates(lim, before, listing);
    SortKeepsMembers(found);
    var p :| p in entries && (f == Metadata(p.0) || f == p.1.path);
    var x :| x in SortByTime(found) && p == (x.key, x.entry);
    assert x in found;
    StaysIfKept(lim, before, entries, evicted, p, f);
  }

  lemma KeptIsCandidate(found: seq<Candidate>, f: FileName)
    requires f in KeepSet(found)
    ensures exists x :: x in found && (f == Metadata(x.key) || f == x.entry.path)
  {
  }

  lemma UserFileStays(lim: Limits, before: Files, entries: Entries, evicted: seq<FileName>, f: FileName)
    requires Evictable(lim, before, entries, evicted) && !Owned(f)
    ensures !Evicts(evicted, f)
  {
  }

  lemma EvictedAreEvictable(lim: Limits, before: Files, listing: seq<FileName>, entries: Entries, evicted: seq<FileName>)
    requires Lists(listing, before)
    requires DropsInto(SortByTime(Candidates(lim, before, listing)), entries, evicted)
    ensures Evictable(lim, before, entries, evicted)
  {
    var c := SortByTime(Candidates(lim, before, listing));
    SortedCandidates(lim, before, listing);
    forall q | q in evicted
      ensures exists k :: ValidPair(lim, before, k) && before[Metadata(k)].record.path == q
                       && (k, CandidateOf(before[Metadata(k)].record).entry) !in entries
    {
      var x :| x in c && x.entry.path == q && (x.key, x.entry) !in entries;
      assert ValidPair(lim, before, x.key) && x == CandidateOf(before[Metadata(x.key)].record);
    }
  }

  /** Every evicted path is the content of a valid pair that was not kept. */
  ghost predicate Evictable(lim: Limits, before: Files, entries: Entries, evicted: seq<FileName>) {
    && (forall q | q in evicted :: exists k :: ValidPair(lim, before, k) && before[Metadata(k)].record.path == q
                                            && (k, CandidateOf(before[Metadata(k)].record).entry) !in entries)
    && (forall p | p in entries :: ValidPair(lim, before, p.0) && p.1 == CandidateOf(before[Metadata(p.0)].record).entry)
  }

  lemma StaysIfKept(lim: Limits, before: Files, entries: Entries, evicted: seq<FileName>, p: (Key, Entry), f: FileName)
    requires Evictable(lim, before, entries, evicted) && p in entries && (f == Metadata(p.0) || f == p.1.path)
    ensures !Evicts(evicted, f)
  {
    forall q | q in evicted ensures q != f && !(q.Content? && f == Metadata(q.key)) {
      var k :| ValidPair(lim, before, k) && before[Metadata(k)].record.path == q
            && (k, CandidateOf(before[Metadata(k)].record).entry) !in entries;
      assert k != p.0;
    }
  }

  /** On spellings: of a directory, recovery removes exactly the recognised names that no recovered entry stands on. */
  lemma RemovedBySpelling(n: Naming, before: Files, entries: Entries, now: Files, f: FileName)
    requires Faithful(n) && CleanedTo(before, entries, now) && f in before
    ensures var (d, x) := Render(n, f);
      f !in now <==>
        && IsPrefixDir(d) && (IsOwnedMetadata(x) || IsOwnedLegacyContent(x) || IsOwnedGeneration(x) || IsOwnedTemp(x))
        && !Stands(entries, f)
  {
    KindIsSpelled(n, f);
    hide Render;
    hide Stands;
  }
}
