/**
 `multipart_copy`: an object too large for one copy request is copied by ranges, each on the condition that the
 source is still the version that was measured. The destination changes only when all parts are put together.
 */
module MultipartCopy {
  import opened Basics
  import opened S3

  newtype i32 = x: int | -0x8000_0000 <= x < 0x8000_0000

  const PART_SIZE: u64 := 64 * 1024 * 1024
  const MAX_PARTS: u64 := 10_000

  /** Object sizes come from a signed 64-bit length. */
  const MAX_OBJECT_SIZE: int := 0x8000_0000_0000_0000

  // ---- The ranges ----

  /** `u64::div_ceil` */
  method DivCeil64(a: u64, b: u64) returns (q: u64)
    requires b > 0
    ensures q as int == DivCeil(a as int, b as int)
  {
    DivCeilIsLeast(a as int, b as int);
    q := a / b;
    if a % b > 0 {
      q := q + 1;
    }
  }

  function PartSize(size: nat): nat {
    var spread := DivCeil(size, 10_000);
    if spread <= PART_SIZE as int then PART_SIZE as int else spread
  }

  function PartCount(size: nat): nat {
    DivCeil(size, PartSize(size))
  }

  function StartAt(part: nat, partSize: nat): nat {
    part * partSize
  }

  function StartOf(size: nat, part: nat): nat {
    StartAt(part, PartSize(size))
  }

  /** Where the part ends, exclusive: the source asks for the bytes up to one less. */
  function EndOf(size: nat, part: nat): nat {
    var end := StartOf(size, part) + PartSize(size);
    if end <= size then end else size
  }

  /**
   The ranges partition the object: each is non-empty and starts where the previous one ends, the first at 0, the
   last ending at the size; all but the last have the part size, at least 64 MiB; and there are at most 10,000.
   */
  lemma RangesPartition(size: nat)
    ensures PartCount(size) <= 10_000 && PartSize(size) >= 67_108_864
    ensures forall k | 0 <= k < PartCount(size) :: StartOf(size, k) < EndOf(size, k) <= size
    ensures forall k | 0 <= k < PartCount(size) - 1 :: EndOf(size, k) == StartOf(size, k + 1) == StartOf(size, k) + PartSize(size)
    ensures StartOf(size, 0) == 0
    ensures size > 0 ==> PartCount(size) > 0 && EndOf(size, PartCount(size) - 1) == size
    ensures size == 0 ==> PartCount(size) == 0
  {
    assert PartSize(size) >= 67_108_864;
    hide PartSize;
    hide PartCount;
    PartsCover(size);
    TenThousandSuffice(size, PartSize(size), PartCount(size));
    hide StartOf;
    hide EndOf;
    forall k | 0 <= k < PartCount(size)
      ensures StartOf(size, k) < EndOf(size, k) <= size
      ensures k < PartCount(size) - 1 ==> EndOf(size, k) == StartOf(size, k + 1) == StartOf(size, k) + PartSize(size)
      ensures k == PartCount(size) - 1 ==> EndOf(size, k) == size
    {
      RangeFacts(size, k);
    }
    assert StartOf(size, 0) == 0 by { FirstStart(size); }
  }

  lemma FirstStart(size: nat)
    ensures StartOf(size, 0) == 0
  {
  }

  lemma RangeFacts(size: nat, k: nat)
    requires k < PartCount(size)
    ensures StartOf(size, k) < EndOf(size, k) <= size
    ensures k < PartCount(size) - 1 ==> EndOf(size, k) == StartOf(size, k + 1) == StartOf(size, k) + PartSize(size)
    ensures k == PartCount(size) - 1 ==> EndOf(size, k) == size
  {
    hide PartSize;
    hide PartCount;
    PartsCover(size);
    PartWithin(size, PartSize(size), PartCount(size), k);
  }

  lemma PartsCover(size: nat)
    ensures PartSize(size) > 0 && size <= 10_000 * PartSize(size)
    ensures size <= PartCount(size) * PartSize(size) < size + PartSize(size)
    ensures size == 0 <==> PartCount(size) == 0
  {
    DivCeilIsLeast(size, 10_000);
    hide DivCeil;
    DivCeilIsLeast(size, PartSize(size));
  }

  lemma TenThousandSuffice(size: nat, p: nat, n: nat)
    requires p > 0 && size <= 10_000 * p && n * p < size + p
    ensures n <= 10_000
  {
    assert n >= 10_001 ==> n * p >= 10_001 * p by {
      if n >= 10_001 {
        MulMono(10_001, n, p);
      }
    }
  }

  lemma PartWithin(size: nat, p: nat, n: nat, k: nat)
    requires p > 0 && size <= n * p < size + p && k < n
    ensures k * p < size
    ensures k < n - 1 ==> k * p + p == (k + 1) * p <= size
    ensures k == n - 1 ==> k * p + p >= size
  {
    assert (n - 1) * p == n * p - p && (k + 1) * p == k * p + p;
    MulMono(k, n - 1, p);
    if k < n - 1 {
      MulMono(k + 1, n - 1, p);
    }
  }

  /** No smaller part size of at least 64 MiB would do with 10,000 parts. */
  lemma PartSizeIsLeast(size: nat, smaller: nat)
    requires PART_SIZE as int <= smaller < PartSize(size)
    ensures DivCeil(size, smaller) > 10_000
  {
    DivCeilIsLeast(size, smaller);
    DivCeilIsLeast(size, 10_000);
    hide DivCeil;
    var n, q := DivCeil(size, smaller), DivCeil(size, 10_000);
    assert smaller + 1 <= q && smaller * 10_000 < size;
    assert n <= 10_000 ==> n * smaller <= 10_000 * smaller by {
      if n <= 10_000 {
        MulMono(n, 10_000, smaller);
      }
    }
  }

  function Slices(content: Bytes, n: nat): seq<Bytes>
    requires n <= PartCount(|content|)
  {
    seq(n, k requires 0 <= k < n => Slice(content, k))
  }

  function Slice(content: Bytes, k: nat): Bytes
    requires k < PartCount(|content|)
  {
    RangesPartition(|content|);
    content[StartOf(|content|, k)..EndOf(|content|, k)]
  }

  /** Put together in order, the first `n` parts are the object up to the end of the last of them. */
  lemma {:induction false} SlicesJoin(content: Bytes, n: nat)
    requires n <= PartCount(|content|)
    ensures var end := if n == 0 then 0 else EndOf(|content|, n - 1); end <= |content| && Flatten(Slices(content, n)) == content[..end]
  {
    RangesPartition(|content|);
    if n > 0 {
      SlicesJoin(content, n - 1);
      assert Slices(content, n) == Slices(content, n - 1) + [Slice(content, n - 1)];
      FlattenPush(Slices(content, n - 1), Slice(content, n - 1));
      assert n > 1 ==> EndOf(|content|, n - 2) == StartOf(|content|, n - 1);
      assert content[..EndOf(|content|, n - 1)] == content[..StartOf(|content|, n - 1)] + Slice(content, n - 1);
    }
  }

  /** The copied parts, joined, are the source. */
  lemma PartsMakeTheObject(content: Bytes)
    ensures Flatten(Slices(content, PartCount(|content|))) == content
  {
    RangesPartition(|content|);
    SlicesJoin(content, PartCount(|content|));
  }

  // ---- The copy ----

  datatype PartAnswer = Copied | NoEtag | Failed | DeadlinePassed

  /** A completion reported as failed may have been applied. */
  datatype Completion = Completed | NotCompleted(applied: bool) | TooLate

  datatype Part = Part(number: i32, bytes: Bytes)

  /** The uploaded part of a number: the last one, if the number was used again. */
  function PartOf(parts: seq<Part>, number: i32): (r: Option<Part>)
    ensures r.Some? <==> exists i | 0 <= i < |parts| :: parts[i].number == number
  {
    if parts == [] then None
    else if parts[|parts| - 1].number == number then Some(parts[|parts| - 1])
    else
      assert forall i | 0 <= i < |parts| - 1 :: parts[i] == parts[..|parts| - 1][i];
      PartOf(parts[..|parts| - 1], number)
  }

  /** What S3 asks of the list a completion sends: numbers from 1 to 10,000, ascending, each of an uploaded part. */
  ghost predicate Acceptable(parts: seq<Part>, numbers: seq<i32>) {
    && (forall i | 0 <= i < |numbers| :: 1 <= numbers[i] <= 10_000 && PartOf(parts, numbers[i]).Some?)
    && (forall i, j | 0 <= i < j < |numbers| :: numbers[i] < numbers[j])
  }

  /** The object S3 makes of them: the listed parts one after the other. */
  function Assembled(parts: seq<Part>, numbers: seq<i32>): Bytes
    requires forall i | 0 <= i < |numbers| :: PartOf(parts, numbers[i]).Some?
  {
    Flatten(seq(|numbers|, i requires 0 <= i < |numbers| => PartOf(parts, numbers[i]).value.bytes))
  }

  function Joined(parts: seq<Part>): Bytes {
    Flatten(seq(|parts|, i requires 0 <= i < |parts| => parts[i].bytes))
  }

  /** The parts are numbered from 1 in the order of their upload, and listed so. */
  ghost predicate NumberedInOrder(parts: seq<Part>, numbers: seq<i32>) {
    && |numbers| == |parts|
    && (forall i | 0 <= i < |parts| :: parts[i].number == numbers[i] && numbers[i] as int == i + 1)
  }

  lemma {:induction false} PartOfDistinct(parts: seq<Part>, i: nat)
    requires i < |parts| && forall j, k | 0 <= j < k < |parts| :: parts[j].number != parts[k].number
    ensures PartOf(parts, parts[i].number) == Some(parts[i])
  {
    var s := parts[..|parts| - 1];
    if i < |s| {
      assert s[i] == parts[i];
      PartOfDistinct(s, i);
    }
  }

  /** Then a completion is acceptable, and makes the parts in the order of their upload. */
  lemma NumberedIsJoined(parts: seq<Part>, numbers: seq<i32>)
    requires NumberedInOrder(parts, numbers) && |parts| <= 10_000
    ensures Acceptable(parts, numbers) && Assembled(parts, numbers) == Joined(parts)
  {
    forall i | 0 <= i < |parts| ensures PartOf(parts, numbers[i]) == Some(parts[i]) {
      assert forall j, k | 0 <= j < k < |parts| :: parts[j].number != parts[k].number;
      PartOfDistinct(parts, i);
    }
    hide PartOf;
    assert seq(|numbers|, i requires 0 <= i < |numbers| => PartOf(parts, numbers[i]).value.bytes)
        == seq(|parts|, i requires 0 <= i < |parts| => parts[i].bytes);
  }

  lemma JoinedPush(parts: seq<Part>, part: Part)
    ensures Joined(parts + [part]) == Joined(parts) + part.bytes
  {
    var s := seq(|parts|, i requires 0 <= i < |parts| => parts[i].bytes);
    FlattenPush(s, part.bytes);
    var t := seq(|parts + [part]|, i requires 0 <= i < |parts + [part]| => (parts + [part])[i].bytes);
    assert t == s + [part.bytes];
  }

  /** The destination key, and the multipart upload in progress for it. */
  class Destination {
    var content: Option<Bytes>
    var upload: Option<seq<Part>>

    constructor (initial: Option<Bytes>)
      ensures content == initial && upload == None
    {
      content, upload := initial, None;
    }

    /** `upload_part_copy` of the bytes `start` to `end` inclusive, on the condition that the source has the etag. */
    method CopyPart(source: Option<Object>, etag: nat, number: i32, start: u64, end: u64, answer: PartAnswer) returns (copied: bool)
      requires upload.Some?
      requires Matches(source, etag) ==> start as int <= end as int < |source.value.bytes|
      modifies this`upload
      ensures copied ==> Matches(source, etag) && upload == Some(old(upload).value + [Part(number, source.value.bytes[start as int..end as int + 1])])
      ensures !copied ==> upload == old(upload)
      ensures copied <==> Matches(source, etag) && answer.Copied?
    {
      copied := answer.Copied? && Matches(source, etag);
      if copied {
        upload := Some(upload.value + [Part(number, source.value.bytes[start as int..end as int + 1])]);
      }
    }

    /** `complete_multipart_upload`: S3 refuses an unacceptable list, and otherwise may answer or not. */
    method Complete(numbers: seq<i32>, answer: Completion) returns (ok: bool)
      requires upload.Some?
      modifies this
      ensures ok <==> answer.Completed? && Acceptable(old(upload).value, numbers)
      ensures ok || (answer == NotCompleted(true) && Acceptable(old(upload).value, numbers)) ==>
        upload == None && Acceptable(old(upload).value, numbers) && content == Some(Assembled(old(upload).value, numbers))
      ensures !ok && !(answer == NotCompleted(true) && Acceptable(old(upload).value, numbers)) ==>
        content == old(content) && upload == old(upload)
    {
      var acceptable := (forall i | 0 <= i < |numbers| :: 1 <= numbers[i] <= 10_000 && PartOf(upload.value, numbers[i]).Some?)
                     && (forall i, j | 0 <= i < j < |numbers| :: numbers[i] < numbers[j]);
      if acceptable && (answer.Completed? || answer == NotCompleted(true)) {
        content, upload := Some(Assembled(upload.value, numbers)), None;
      }
      ok := acceptable && answer.Completed?;
    }

    /** `abort_multipart_copy`, best effort. */
    method Abort(aborted: bool)
      modifies this`upload
      ensures upload == if aborted then None else old(upload)
    {
      if aborted {
        upload := None;
      }
    }

    /**
     `source` is what the source key holds at each part request, `answers` what the requests report. Ok means the
     destination is the version measured, whatever happened to the source meanwhile; an error leaves the
     destination alone, unless it is only the report of a completion that was lost; and it aborts the upload.
     */
    method MultipartCopy(size: u64, etag: nat, ghost version: Bytes, source: nat -> Option<Object>,
                         answers: nat -> PartAnswer, completion: Completion, aborted: bool)
      returns (ok: bool)
      requires size as int < MAX_OBJECT_SIZE && |version| == size as int
      requires forall n :: Matches(source(n), etag) ==> source(n).value.bytes == version
      modifies this
      ensures ok ==> content == Some(version) && upload.None?
      ensures !ok ==> content == old(content) || (completion == NotCompleted(true) && content == Some(version))
      ensures !ok && aborted ==> upload.None?
      ensures ok <==> completion.Completed? && (forall k | 0 <= k < PartCount(size as int) :: answers(k).Copied? && Matches(source(k), etag))
    {
      upload := Some([]);
      var partSize := MeasurePart(size);
      var partCount := DivCeil64(size, partSize);
      RangesPartition(size as int);
      hide PartSize;
      hide PartCount;
      hide StartAt;
      hide StartOf;
      hide EndOf;
      hide Slice;
      hide Slices;
      hide Joined;
      hide Flatten;
      hide DivCeil;
      hide Acceptable;
      hide Assembled;
      var part: u64 := 0;
      var completed: seq<i32> := [];
      NoneJoined(version);
      while part < partCount
        invariant part <= partCount
        invariant content == old(content) && upload.Some? && |completed| == part as int
        invariant NumberedInOrder(upload.value, completed)
        invariant Joined(upload.value) == Flatten(Slices(version, part as int))
        invariant forall k | 0 <= k < part as int :: answers(k).Copied? && Matches(source(k), etag)
      {
        PartStarts(size as int, partSize as int, part as int);
        var start, end := RangeOf(size, partSize, part);
        if answers(part as int).DeadlinePassed? {
          Abort(aborted);
          return false;
        }
        ghost var before := upload.value;
        var copied := CopyPart(source(part as int), etag, (part + 1) as i32, start, end, answers(part as int));
        if !copied {
          Abort(aborted);
          return false;
        }
        OneMorePart(version, part as int, before, (part + 1) as i32);
        completed := completed + [(part + 1) as i32];
        part := part + 1;
      }
      PartsMakeTheObject(version);
      NumberedIsJoined(upload.value, completed);
      if completion.TooLate? {
        Abort(aborted);
        return false;
      }
      ok := Complete(completed, completion);
      if !ok {
        Abort(aborted);
      }
    }
  }

  lemma NoneJoined(version: Bytes)
    ensures Joined([]) == Flatten(Slices(version, 0))
  {
    assert Slices(version, 0) == [];
  }

  lemma OneMorePart(version: Bytes, k: nat, before: seq<Part>, number: i32)
    requires k < PartCount(|version|) && Joined(before) == Flatten(Slices(version, k))
    requires StartOf(|version|, k) < EndOf(|version|, k) <= |version|
    ensures Joined(before + [Part(number, version[StartOf(|version|, k)..EndOf(|version|, k)])]) == Flatten(Slices(version, k + 1))
  {
    hide PartCount;
    hide StartOf;
    hide EndOf;
    JoinedPush(before, Part(number, Slice(version, k)));
    assert Slices(version, k + 1) == Slices(version, k) + [Slice(version, k)];
    FlattenPush(Slices(version, k), Slice(version, k));
  }

  /** `MULTIPART_COPY_PART_SIZE.max(object_size.div_ceil(10_000))` */
  method MeasurePart(size: u64) returns (partSize: u64)
    ensures partSize as int == PartSize(size as int) > 0
  {
    var spread := DivCeil64(size, MAX_PARTS);
    partSize := if PART_SIZE >= spread then PART_SIZE else spread;
  }

  /** The range of one part that starts within the object, its end inclusive. No step leaves 64 bits. */
  method RangeOf(size: u64, partSize: u64, part: u64) returns (start: u64, end: u64)
    requires size as int < MAX_OBJECT_SIZE && 0 < partSize as int < MAX_OBJECT_SIZE
    requires StartAt(part as int, partSize as int) < size as int
    ensures start as int == StartAt(part as int, partSize as int) <= end as int < size as int
    ensures end as int - start as int < partSize as int
    ensures end as int == size as int - 1 || end as int - start as int + 1 == partSize as int
    ensures partSize as int == PartSize(size as int) ==>
      start as int == StartOf(size as int, part as int) && end as int == EndOf(size as int, part as int) - 1
  {
    hide PartSize;
    start := part * partSize;
    end := (if start + partSize <= size then start + partSize else size) - 1;
  }

  /** The range of every part starts within the object, and the part size fits the range's arithmetic. */
  lemma PartStarts(size: nat, partSize: nat, part: nat)
    requires size < MAX_OBJECT_SIZE && part < PartCount(size) && partSize == PartSize(size)
    ensures StartAt(part, partSize) < size && 0 < partSize < MAX_OBJECT_SIZE
    ensures StartOf(size, part) < EndOf(size, part) <= size
  {
    DivCeilIsLeast(size, 10_000);
    PartsCover(size);
    hide PartSize;
    hide PartCount;
    RangeFacts(size, part);
  }
}
