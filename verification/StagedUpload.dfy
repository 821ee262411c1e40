/**
 One staged upload: its staging file, the S3 object it starts from, and the destination its finalisation
 writes. Appends, finalisation and clean-up of an upload exclude each other by its operation lock (see
 `LockTables`); other writers of the two objects do not. Requests may fail, may be applied although they are
 reported as failed, and may be applied after they were reported as failed.
 */
module StagedUpload {
  import opened Basics
  import opened S3

  datatype Staging = Staging(file: Bytes, size: nat, baseEtag: Option<nat>)

  /** How one append to the staging file ends. `written` bytes of the chunk reached the file before the error. */
  datatype Ending = Written | OverBudget | Interrupted(written: nat, truncated: bool)

  datatype Pc = Idle | Putting | Heading | Deleting

  datatype Reply = Accepted | Conflicted | OtherError

  datatype HeadReply = NoAnswer | Found(lengthGiven: bool)

  /**
   `latePuts` and `lateDelete` are requests reported as failed that may still be applied. `base` and `chunks` are
   history: what the upload started from, and the chunks whose append returned Ok.
   */
  datatype Upload = Upload(
    source: Option<Object>,
    destination: Option<Object>,
    tags: Etags,
    staging: Option<Staging>,
    pc: Pc,
    latePuts: set<Bytes>,
    lateDelete: Option<nat>,
    done: bool,
    base: Bytes,
    chunks: seq<Bytes>)

  datatype Action =
    | Seed
    | Append(chunk: Bytes, ending: Ending)
    | StartFinalise
    | Put(etag: nat, applied: bool, reply: Reply)
    | Head(found: HeadReply)
    | Delete(applied: bool, accepted: bool)
    | LatePut(bytes: Bytes, etag: nat)
    | LateDelete
    | OverwriteSource(after: Option<Object>)

  /** `set_len` */
  function SetLen(f: Bytes, n: nat): Bytes {
    if n <= |f| then f[..n] else f + seq(n - |f|, _ => 0)
  }

  /** What `append_file_staged` does to the file and to the recorded size. The result of `set_len` is ignored. */
  function AppendTo(st: Staging, chunk: Bytes, ending: Ending): Staging
    requires ending.Interrupted? ==> ending.written <= |chunk|
  {
    match ending
    case Written => st.(file := st.file + chunk, size := st.size + |chunk|)
    case OverBudget => st
    case Interrupted(n, truncated) =>
      var f := st.file + chunk[..n];
      st.(file := if truncated then SetLen(f, st.size) else f)
  }

  /** `set_len` cuts a longer file off and fills a shorter one up with zeros. */
  lemma SetLenMeans(f: Bytes, n: nat)
    ensures |SetLen(f, n)| == n
    ensures forall i | 0 <= i < n :: SetLen(f, n)[i] == if i < |f| then f[i] else 0
  {
  }

  predicate Enabled(s: Upload, a: Action) {
    match a
    case Seed => s.pc.Idle? && s.staging.None? && !s.done
    case Append(chunk, ending) =>
      s.pc.Idle? && s.staging.Some? && (ending.Interrupted? ==> ending.written <= |chunk|)
    case StartFinalise => s.pc.Idle? && s.staging.Some?
    case Put(etag, applied, reply) =>
      && s.pc.Putting? && s.staging.Some?
      && (applied ==> s.destination.None? && Fits(s.tags, Object(etag, s.staging.value.file)))
      && (reply.Accepted? ==> applied)
    case Head(found) => s.pc.Heading? && s.staging.Some? && (found.Found? ==> s.destination.Some?)
    case Delete(applied, accepted) =>
      && s.pc.Deleting? && s.staging.Some?
      && (if s.staging.value.baseEtag.None? then !applied && accepted
          else (applied ==> Matches(s.source, s.staging.value.baseEtag.value)) && (accepted ==> applied || s.source.None?))
    case LatePut(bytes, etag) => bytes in s.latePuts && s.destination.None? && Fits(s.tags, Object(etag, bytes))
    case LateDelete => s.lateDelete.Some? && Matches(s.source, s.lateDelete.value)
    case OverwriteSource(after) => after.Some? ==> Fits(s.tags, after.value)
  }

  function HeadSize(found: HeadReply, current: Option<Object>): nat {
    if found.Found? && found.lengthGiven then |BytesIn(current)| else 0
  }

  function WriteDestination(s: Upload, o: Object): Upload {
    s.(destination := Some(o), tags := Learn(s.tags, o))
  }

  function Step(s: Upload, a: Action): Upload
    requires Enabled(s, a)
  {
    match a
    case Seed =>
      s.(staging := Some(Staging(BytesIn(s.source), |BytesIn(s.source)|, if s.source.Some? then Some(s.source.value.etag) else None)),
         base := BytesIn(s.source), chunks := [])
    case Append(chunk, ending) =>
      s.(staging := Some(AppendTo(s.staging.value, chunk, ending)),
         chunks := if ending.Written? then s.chunks + [chunk] else s.chunks)
    case StartFinalise => s.(pc := Putting)
    case Put(etag, applied, reply) =>
      var s1 := if applied then WriteDestination(s, Object(etag, s.staging.value.file)) else s;
      var s2 := if reply.OtherError? && !applied then s1.(latePuts := s.latePuts + {s.staging.value.file}) else s1;
      s2.(pc := match reply case Accepted => Deleting case Conflicted => Heading case OtherError => Idle)
    case Head(found) =>
      s.(pc := if found.Found? && HeadSize(found, s.destination) == s.staging.value.size then Deleting else Idle)
    case Delete(applied, accepted) =>
      var s1 := if applied then s.(source := None) else s;
      if accepted then s1.(pc := Idle, staging := None, done := true)
      else s1.(pc := Idle, lateDelete := if applied then s.lateDelete else s.staging.value.baseEtag)
    case LatePut(bytes, etag) => WriteDestination(s, Object(etag, bytes))
    case LateDelete => s.(source := None)
    case OverwriteSource(after) =>
      if after.Some? then s.(source := after, tags := Learn(s.tags, after.value)) else s.(source := None)
  }

  // ---- The append log ----

  function Log(s: Upload): Bytes {
    s.base + Flatten(s.chunks)
  }

  /** The file is the base followed by the chunks, and is as long as recorded. */
  ghost predicate Clean(st: Staging, log: Bytes) {
    st.file == log && st.size == |log|
  }

  /** The failure that breaks the log: some of the chunk was written, and could not be cut off again. */
  predicate Tears(ending: Ending) {
    ending.Interrupted? && ending.written > 0 && !ending.truncated
  }

  /** One append extends the log by the whole chunk or by nothing, exactly when it does not tear the file. */
  lemma AppendRefinesLogIff(st: Staging, log: Bytes, chunk: Bytes, ending: Ending)
    requires Clean(st, log) && (ending.Interrupted? ==> ending.written <= |chunk|)
    ensures Clean(AppendTo(st, chunk, ending), if ending.Written? then log + chunk else log) <==> !Tears(ending)
  {
    if ending.Interrupted? {
      var f := log + chunk[..ending.written];
      assert f[..|log|] == log;
      assert ending.written == 0 ==> f == log;
      assert ending.written > 0 ==> |f| > |log|;
    }
  }

  /** A later failure whose truncation succeeds repairs a torn file, if nothing was appended in between. */
  lemma TruncationRepairs(st: Staging, log: Bytes, garbage: Bytes, chunk: Bytes, written: nat)
    requires st.file == log + garbage && st.size == |log| && written <= |chunk|
    ensures Clean(AppendTo(st, chunk, Interrupted(written, true)), log)
  {
    assert (log + garbage + chunk[..written])[..|log|] == log;
  }

  // ---- Nothing is lost ----

  predicate Ordinary(a: Action) {
    a.Append? ==> !Tears(a.ending)
  }

  /** The upload's bytes are in the staging file or at the destination. */
  ghost predicate Somewhere(s: Upload) {
    || (s.staging.Some? && Clean(s.staging.value, Log(s)))
    || (s.destination.Some? && s.destination.value.bytes == Log(s))
  }

  ghost predicate BaseKnown(s: Upload) {
    s.staging.Some? ==>
      var tag := s.staging.value.baseEtag;
      if tag.Some? then Known(s.tags, Object(tag.value, s.base)) else s.base == []
  }

  /** The invariant, whatever was at the destination before: it only speaks of the upload's own bytes. */
  ghost predicate Kept(s: Upload) {
    && CurrentKnown(s.tags, s.source) && CurrentKnown(s.tags, s.destination) && BaseKnown(s)
    && (s.staging.Some? ==> Clean(s.staging.value, Log(s)))
    && (s.done ==> s.staging.None? && s.pc.Idle?)
    && (s.staging.None? && !s.done ==> s.base == [] && s.chunks == [] && s.latePuts == {} && s.lateDelete.None?)
    && (s.lateDelete.Some? ==> Known(s.tags, Object(s.lateDelete.value, s.base)))
  }

  /** The destination was absent, and nobody else writes it: it holds an earlier state of the log, or all of it. */
  ghost predicate Inv(s: Upload) {
    && Kept(s)
    && (s.staging.None? && !s.done ==> s.destination.None?)
    && (s.destination.Some? ==> s.destination.value.bytes <= Log(s))
    && (forall b | b in s.latePuts :: b <= Log(s))
    && (s.pc.Deleting? || s.done ==> s.destination.Some? && s.destination.value.bytes == Log(s))
  }

  predicate Possible(s: Upload, run: seq<Action>)
    decreases |run|
  {
    run == [] || (Enabled(s, run[0]) && Possible(Step(s, run[0]), run[1..]))
  }

  function Run(s: Upload, run: seq<Action>): Upload
    requires Possible(s, run)
    decreases |run|
  {
    if run == [] then s else Run(Step(s, run[0]), run[1..])
  }

  /** The chunks of the appends that returned Ok, in order. */
  function OkChunks(run: seq<Action>): seq<Bytes> {
    if run == [] then []
    else if run[0].Append? && run[0].ending.Written? then [run[0].chunk] + OkChunks(run[1..])
    else OkChunks(run[1..])
  }

  function Fresh(source: Option<Object>, destination: Option<Object>, tags: Etags): Upload {
    Upload(source, destination, tags, None, Idle, {}, None, false, [], [])
  }

  lemma LogOfAppend(s: Upload, chunk: Bytes)
    ensures s.base + Flatten(s.chunks + [chunk]) == Log(s) + chunk
  {
    FlattenPush(s.chunks, chunk);
    assert s.base + (Flatten(s.chunks) + chunk) == s.base + Flatten(s.chunks) + chunk;
  }

  lemma AppendKeepsBytes(s: Upload, chunk: Bytes, ending: Ending)
    requires Kept(s) && Enabled(s, Append(chunk, ending)) && !Tears(ending)
    ensures Kept(Step(s, Append(chunk, ending)))
  {
    AppendRefinesLogIff(s.staging.value, Log(s), chunk, ending);
    LogOfAppend(s, chunk);
    hide Flatten;
    hide CurrentKnown;
  }

  lemma SeedKeepsBytes(s: Upload)
    requires Kept(s) && Enabled(s, Seed)
    ensures Kept(Step(s, Seed))
  {
    assert BytesIn(s.source) + [] == BytesIn(s.source);
    hide CurrentKnown;
    hide BytesIn;
  }

  lemma PutKeepsBytes(s: Upload, a: Action)
    requires Kept(s) && Enabled(s, a) && (a.Put? || a.LatePut?)
    ensures Kept(Step(s, a))
  {
    hide Flatten;
    hide BytesIn;
  }

  lemma FinaliseKeepsBytes(s: Upload, a: Action)
    requires Kept(s) && Enabled(s, a) && !a.Seed? && !a.Append? && !a.Put? && !a.LatePut?
    ensures Kept(Step(s, a))
  {
    hide Flatten;
    hide AppendTo;
    hide SetLen;
  }

  lemma StepKeepsBytes(s: Upload, a: Action)
    requires Kept(s) && Enabled(s, a) && Ordinary(a)
    ensures Kept(Step(s, a))
  {
    hide *;
    match a
    case Seed => SeedKeepsBytes(s);
    case Append(chunk, ending) =>
      AppendOrdinary(chunk, ending);
      AppendKeepsBytes(s, chunk, ending);
    case Put(_, _, _) => PutKeepsBytes(s, a);
    case LatePut(_, _) => PutKeepsBytes(s, a);
    case _ => FinaliseKeepsBytes(s, a);
  }

  lemma AppendOrdinary(chunk: Bytes, ending: Ending)
    requires Ordinary(Append(chunk, ending))
    ensures !Tears(ending)
  {
  }

  lemma StepKeepsInv(s: Upload, a: Action)
    requires Inv(s) && Enabled(s, a) && Ordinary(a)
    ensures Inv(Step(s, a))
  {
    StepKeepsBytes(s, a);
    if a.Append? {
      LogOfAppend(s, a.chunk);
    }
  }

  /** Only a version whose bytes are safe at the destination is ever deleted, and it is the one the upload started from. */
  lemma OnlyTheBaseIsDeleted(s: Upload, a: Action)
    requires Inv(s) && Enabled(s, a) && !a.OverwriteSource? && Step(s, a).source != s.source
    ensures s.source.Some? && s.source.value.bytes == s.base && Step(s, a).source.None?
    ensures a.Delete? ==> s.destination.Some? && s.base <= s.destination.value.bytes == Log(s)
  {
  }

  lemma {:induction false} RunKeepsInv(s: Upload, run: seq<Action>)
    requires Inv(s) && Possible(s, run) && forall a | a in run :: Ordinary(a)
    ensures Inv(Run(s, run))
    decreases |run|
  {
    hide Inv;
    hide Step;
    hide Enabled;
    if run != [] {
      StepKeepsInv(s, run[0]);
      RunKeepsInv(Step(s, run[0]), run[1..]);
    }
  }

  lemma {:induction false} ChunksAreTheOkOnes(s: Upload, run: seq<Action>)
    requires Possible(s, run) && (s.staging.None? && !s.done ==> s.chunks == [])
    requires s.done ==> s.staging.None?
    ensures Run(s, run).chunks == s.chunks + OkChunks(run)
    decreases |run|
  {
    if run == [] {
      assert s.chunks + [] == s.chunks;
    } else {
      ChunksAreTheOkOnes(Step(s, run[0]), run[1..]);
      if run[0].Append? && run[0].ending.Written? {
        assert s.chunks + [run[0].chunk] + OkChunks(run[1..]) == s.chunks + ([run[0].chunk] + OkChunks(run[1..]));
      }
    }
  }

  /**
   The main result. From an absent destination nobody else writes, through any failures, retries and late
   requests: the upload's bytes (the base, then exactly the chunks whose append returned Ok, in order) are in
   staging or at the destination, and a finalisation that returned Ok has them all at the destination.
   */
  lemma NothingIsLost(source: Option<Object>, tags: Etags, run: seq<Action>)
    requires CurrentKnown(tags, source)
    requires Possible(Fresh(source, None, tags), run) && forall a | a in run :: Ordinary(a)
    ensures var z := Run(Fresh(source, None, tags), run);
      && Log(z) == z.base + Flatten(OkChunks(run))
      && (Log(z) != [] ==> Somewhere(z))
      && (z.staging.Some? ==> z.staging.value.file == Log(z))
      && (z.done ==> z.destination.Some? && z.destination.value.bytes == Log(z))
  {
    var s := Fresh(source, None, tags);
    RunKeepsInv(s, run);
    ChunksAreTheOkOnes(s, run);
    assert [] + OkChunks(run) == OkChunks(run);
  }

  // ---- A destination that was there before ----

  predicate Finalising(a: Action) {
    !a.Seed? && !a.Append?
  }

  /** An upload about to be finalised against a destination that was there before. */
  ghost predicate Occupied(s: Upload) {
    Kept(s) && s.pc.Idle? && s.staging.Some? && s.destination.Some?
  }

  ghost predicate StillOccupied(s: Upload, o: Object, log: Bytes) {
    && Kept(s) && Log(s) == log && s.destination == Some(o)
    && (s.staging.None? ==> s.done)
    && (s.done || s.pc.Deleting? ==> |o.bytes| == |log| || log == [])
  }

  /** Against an occupied destination no upload is applied, and only an object of its size ends one. */
  lemma FinalisingKeepsDestination(s: Upload, o: Object, a: Action)
    requires Enabled(s, a) && Finalising(a) && s.destination == Some(o) && (s.staging.None? ==> s.done)
    requires s.done ==> s.staging.None? && s.pc.Idle?
    ensures var z := Step(s, a);
      && z.destination == Some(o) && z.base == s.base && z.chunks == s.chunks && (z.staging.None? ==> z.done)
      && (z.done || z.pc.Deleting? ==>
            s.done || s.pc.Deleting? || (s.staging.Some? && s.staging.value.size in {0, |o.bytes|}))
  {
    hide Fits;
    hide Matches;
    hide Learn;
  }

  lemma StepStaysOccupied(s: Upload, o: Object, log: Bytes, a: Action)
    requires StillOccupied(s, o, log) && Enabled(s, a) && Finalising(a)
    ensures StillOccupied(Step(s, a), o, log)
  {
    StepKeepsBytes(s, a);
    FinalisingKeepsDestination(s, o, a);
    assert s.staging.Some? ==> s.staging.value.size == |log|;
    hide Kept;
    hide Step;
    hide Flatten;
  }

  lemma {:induction false} RunStaysOccupied(s: Upload, o: Object, log: Bytes, run: seq<Action>)
    requires StillOccupied(s, o, log) && Possible(s, run) && forall a | a in run :: Finalising(a)
    ensures StillOccupied(Run(s, run), o, log)
    decreases |run|
  {
    hide StillOccupied;
    hide Step;
    hide Enabled;
    if run != [] {
      StepStaysOccupied(s, o, log, run[0]);
      RunStaysOccupied(Step(s, run[0]), o, log, run[1..]);
    }
  }

  /** The retry that mistakes a same-sized object for its own: it deletes the staged bytes. */
  function MistakenRetry(s: Upload): seq<Action>
    requires s.destination.Some?
  {
    [StartFinalise, Put(0, false, Conflicted), Head(Found(|s.destination.value.bytes| == |Log(s)|)),
     OverwriteSource(None), Delete(false, true)]
  }

  lemma RunOfFive(s: Upload, r: seq<Action>, s1: Upload, s2: Upload, s3: Upload, s4: Upload, s5: Upload)
    requires |r| == 5
    requires Enabled(s, r[0]) && s1 == Step(s, r[0]) && Enabled(s1, r[1]) && s2 == Step(s1, r[1])
    requires Enabled(s2, r[2]) && s3 == Step(s2, r[2]) && Enabled(s3, r[3]) && s4 == Step(s3, r[3])
    requires Enabled(s4, r[4]) && s5 == Step(s4, r[4])
    ensures Possible(s, r) && Run(s, r) == s5
  {
    hide Step;
    hide Enabled;
    assert r[1..][1..] == r[2..] && r[2..][1..] == r[3..] && r[3..][1..] == r[4..] && r[4..][1..] == [];
    assert Possible(s5, []) && Run(s5, []) == s5;
    assert Possible(s4, r[4..]) && Run(s4, r[4..]) == s5;
    assert Possible(s3, r[3..]) && Run(s3, r[3..]) == s5;
    assert Possible(s2, r[2..]) && Run(s2, r[2..]) == s5;
    assert Possible(s1, r[1..]) && Run(s1, r[1..]) == s5;
  }

  lemma MistakenRetryLoses(s: Upload)
    requires Occupied(s) && s.destination.value.bytes != Log(s)
    requires |s.destination.value.bytes| == |Log(s)| || Log(s) == []
    ensures Possible(s, MistakenRetry(s)) && !Somewhere(Run(s, MistakenRetry(s)))
    ensures Run(s, MistakenRetry(s)).done
  {
    var r := MistakenRetry(s);
    hide Flatten;
    var s1 := Step(s, r[0]);
    var s2 := Step(s1, r[1]);
    var s3 := Step(s2, r[2]);
    assert s3.pc == Deleting;
    var s4 := Step(s3, r[3]);
    var s5 := Step(s4, r[4]);
    assert s5.done && s5.staging.None? && s5.destination == s.destination && Log(s5) == Log(s);
    hide Step;
    hide Enabled;
    RunOfFive(s, r, s1, s2, s3, s4, s5);
  }

  /**
   Finalising against a destination that was there before keeps the staged bytes, whatever the requests answer,
   exactly when that object already is the upload, or the upload is not empty and differs from it in size.
   */
  lemma OccupiedDestinationIff(s: Upload)
    requires Occupied(s)
    ensures (forall run | Possible(s, run) && (forall a | a in run :: Finalising(a)) :: Somewhere(Run(s, run)))
            <==> (s.destination.value.bytes == Log(s) || (Log(s) != [] && |s.destination.value.bytes| != |Log(s)|))
  {
    var o := s.destination.value;
    if o.bytes == Log(s) || (Log(s) != [] && |o.bytes| != |Log(s)|) {
      forall run | Possible(s, run) && (forall a | a in run :: Finalising(a)) ensures Somewhere(Run(s, run)) {
        RunStaysOccupied(s, o, Log(s), run);
      }
    } else {
      MistakenRetryLoses(s);
      assert forall a | a in MistakenRetry(s) :: Finalising(a);
    }
  }

  // ---- The answers, and an upload that nothing disturbs ----

  lemma StepAnswers(s: Upload, a: Action)
    requires Enabled(s, a)
    ensures Step(s, a).done <==> s.done || (a.Delete? && a.accepted)
  {
    hide AppendTo;
    hide Fits;
    hide Learn;
  }

  /** A finalisation has returned Ok exactly when the deletion of the base, or of nothing, was accepted. */
  lemma {:induction false} OkIffDeleted(s: Upload, run: seq<Action>)
    requires Possible(s, run)
    ensures Run(s, run).done <==> s.done || exists a :: a in run && a.Delete? && a.accepted
    decreases |run|
  {
    hide Step;
    hide Enabled;
    if run != [] {
      StepAnswers(s, run[0]);
      OkIffDeleted(Step(s, run[0]), run[1..]);
      assert forall a :: a in run <==> a == run[0] || a in run[1..];
    }
  }

  /** The source is still what the upload started from. */
  ghost predicate BaseUnchanged(s: Upload) {
    s.staging.Some? &&
    match s.staging.value.baseEtag
    case None => s.source.None?
    case Some(etag) => Matches(s.source, etag)
  }

  lemma DeleteCompletes(s: Upload)
    requires s.pc.Deleting? && s.staging.Some? && BaseUnchanged(s)
    ensures Enabled(s, Delete(s.staging.value.baseEtag.Some?, true))
    ensures var z := Step(s, Delete(s.staging.value.baseEtag.Some?, true));
      z.done && z.pc.Idle? && z.staging.None? && z.source.None? && z.destination == s.destination
  {
  }

  /** Finalising to an absent destination, with every request accepted: the file is there, the base is gone, and it is over. */
  lemma UndisturbedFinalise(s: Upload, etag: nat)
    requires s.pc.Idle? && s.staging.Some? && s.destination.None? && BaseUnchanged(s) && etag !in s.tags
    ensures Enabled(s, StartFinalise)
    ensures var s1 := Step(s, StartFinalise);
      && Enabled(s1, Put(etag, true, Accepted))
      && var s2 := Step(s1, Put(etag, true, Accepted));
      var last := Delete(s.staging.value.baseEtag.Some?, true);
      && Enabled(s2, last)
      && var z := Step(s2, last);
      z.done && z.pc.Idle? && z.staging.None? && z.source.None? && z.destination == Some(Object(etag, s.staging.value.file))
  {
    var s2 := Step(Step(s, StartFinalise), Put(etag, true, Accepted));
    assert s2.pc.Deleting? && s2.staging == s.staging && s2.source == s.source;
    assert s2.destination == Some(Object(etag, s.staging.value.file));
    DeleteCompletes(s2);
  }

  /** A retry after the upload reached the destination finds it there, in its size, and ends. */
  lemma UndisturbedRetry(s: Upload, etag: nat)
    requires s.pc.Idle? && s.staging.Some? && s.destination.Some? && BaseUnchanged(s)
    requires |s.destination.value.bytes| == s.staging.value.size
    ensures Enabled(s, StartFinalise)
    ensures var s1 := Step(s, StartFinalise);
      && Enabled(s1, Put(etag, false, Conflicted))
      && var s2 := Step(s1, Put(etag, false, Conflicted));
      && Enabled(s2, Head(Found(true)))
      && var s3 := Step(s2, Head(Found(true)));
      var last := Delete(s.staging.value.baseEtag.Some?, true);
      && Enabled(s3, last)
      && var z := Step(s3, last);
      z.done && z.pc.Idle? && z.staging.None? && z.source.None? && z.destination == s.destination
  {
    var s3 := Step(Step(Step(s, StartFinalise), Put(etag, false, Conflicted)), Head(Found(true)));
    assert s3.pc.Deleting? && s3.staging == s.staging && s3.source == s.source && s3.destination == s.destination;
    DeleteCompletes(s3);
  }

  /** An attempt that a request refuses ends with the upload still staged, so that it can be made again. */
  lemma RefusedAttemptKeepsStaging(s: Upload, a: Action)
    requires Enabled(s, a)
    requires match a
      case Put(_, _, reply) => reply.OtherError?
      case Head(NoAnswer) => true
      case Head(Found(lengthGiven)) => (if lengthGiven then |s.destination.value.bytes| else 0) != s.staging.value.size
      case Delete(_, accepted) => !accepted
      case _ => false
    ensures var z := Step(s, a);
      z.pc.Idle? && z.staging == s.staging && z.staging.Some? && z.done == s.done && Enabled(z, StartFinalise)
  {
  }

  /** A PUT reported as failed may still arrive, and so may a DELETE: the retry has to reckon with both. */
  lemma LatePutArrives(s: Upload, etag: nat)
    requires s.pc.Putting? && s.staging.Some? && s.destination.None? && etag !in s.tags
    ensures var file := s.staging.value.file;
      && Enabled(s, Put(etag, false, OtherError))
      && var s1 := Step(s, Put(etag, false, OtherError));
      && Enabled(s1, LatePut(file, etag))
      && var z := Step(s1, LatePut(file, etag));
      z.pc.Idle? && z.staging == s.staging && z.source == s.source && z.destination == Some(Object(etag, file))
  {
  }

  lemma LateDeleteArrives(s: Upload)
    requires s.pc.Deleting? && BaseUnchanged(s) && s.staging.value.baseEtag.Some?
    ensures Enabled(s, Delete(false, false))
    ensures var s1 := Step(s, Delete(false, false));
      && Enabled(s1, LateDelete)
      && var z := Step(s1, LateDelete);
      z.pc.Idle? && z.staging == s.staging && z.source.None? && z.destination == s.destination
  {
  }

  /** Another writer replaces the source, at any time. */
  lemma OverwriteReplaces(s: Upload, after: Option<Object>)
    requires after.Some? ==> Fits(s.tags, after.value)
    ensures Enabled(s, OverwriteSource(after)) && Step(s, OverwriteSource(after)).source == after
    ensures Step(s, OverwriteSource(after)).destination == s.destination && Step(s, OverwriteSource(after)).staging == s.staging
  {
  }

  /** Any request of an attempt may fail, or be applied and its answer lost; the upload stays staged. */
  lemma AnyRequestMayFail(s: Upload, etag: nat, applied: bool)
    requires s.staging.Some? && BaseUnchanged(s) && etag !in s.tags
    ensures s.pc.Putting? && (applied ==> s.destination.None?) ==>
      Enabled(s, Put(etag, applied, OtherError)) && Step(s, Put(etag, applied, OtherError)).staging == s.staging
    ensures s.pc.Heading? ==> Enabled(s, Head(NoAnswer)) && Step(s, Head(NoAnswer)).staging == s.staging
    ensures s.pc.Deleting? && s.staging.value.baseEtag.Some? ==>
      Enabled(s, Delete(applied, false)) && Step(s, Delete(applied, false)).staging == s.staging
  {
  }

  function Appends(chunks: seq<Bytes>): seq<Action> {
    seq(|chunks|, i requires 0 <= i < |chunks| => Append(chunks[i], Written))
  }

  lemma WrittenAppend(s: Upload, chunk: Bytes)
    requires s.pc.Idle? && s.staging.Some?
    ensures Enabled(s, Append(chunk, Written))
    ensures var st := s.staging.value;
      Step(s, Append(chunk, Written)) ==
        s.(staging := Some(Staging(st.file + chunk, st.size + |chunk|, st.baseEtag)), chunks := s.chunks + [chunk])
  {
  }

  ghost predicate Collected(s: Upload, z: Upload, chunks: seq<Bytes>) {
    && s.staging.Some? && z.staging.Some? && z.staging.value.file == s.staging.value.file + Flatten(chunks)
    && z.staging.value.baseEtag == s.staging.value.baseEtag
    && z.(staging := s.staging, chunks := s.chunks) == s && z.chunks == s.chunks + chunks
  }

  lemma CollectedMore(s: Upload, s1: Upload, z: Upload, chunks: seq<Bytes>)
    requires chunks != [] && Collected(s, s1, [chunks[0]]) && Collected(s1, z, chunks[1..])
    ensures Collected(s, z, chunks)
  {
    var file := s.staging.value.file;
    assert [chunks[0]][1..] == [] && Flatten([chunks[0]]) == chunks[0] + [];
    assert file + (chunks[0] + []) + Flatten(chunks[1..]) == file + (chunks[0] + Flatten(chunks[1..]));
    assert s.chunks + [chunks[0]] + chunks[1..] == s.chunks + chunks;
  }

  lemma {:induction false} AppendsCollect(s: Upload, chunks: seq<Bytes>)
    requires s.pc.Idle? && s.staging.Some?
    ensures Possible(s, Appends(chunks)) && Collected(s, Run(s, Appends(chunks)), chunks)
    decreases |chunks|
  {
    if chunks == [] {
      assert s.staging.value.file + [] == s.staging.value.file && s.chunks + [] == s.chunks;
    } else {
      WrittenAppend(s, chunks[0]);
      var s1 := Step(s, Append(chunks[0], Written));
      assert [chunks[0]][1..] == [] && Flatten([chunks[0]]) == chunks[0] + [] == chunks[0];
      assert Collected(s, s1, [chunks[0]]);
      hide Step;
      hide Enabled;
      hide Flatten;
      hide Collected;
      assert Appends(chunks)[0] == Append(chunks[0], Written) && Appends(chunks)[1..] == Appends(chunks[1..]);
      AppendsCollect(s1, chunks[1..]);
      CollectedMore(s, s1, Run(s1, Appends(chunks[1..])), chunks);
    }
  }

  /** A whole upload that nothing disturbs: the base and the chunks, in order, end up at the destination. */
  lemma UndisturbedUpload(source: Option<Object>, tags: Etags, chunks: seq<Bytes>, etag: nat)
    requires etag !in tags
    ensures var s := Fresh(source, None, tags);
      && Enabled(s, Seed)
      && var s1 := Step(s, Seed);
      && Possible(s1, Appends(chunks))
      && var s2 := Run(s1, Appends(chunks));
      && Enabled(s2, StartFinalise)
      && var s3 := Step(s2, StartFinalise);
      && Enabled(s3, Put(etag, true, Accepted))
      && var s4 := Step(s3, Put(etag, true, Accepted));
      && Enabled(s4, Delete(source.Some?, true))
      && var z := Step(s4, Delete(source.Some?, true));
      z.done && z.staging.None? && z.source.None? && z.destination == Some(Object(etag, BytesIn(source) + Flatten(chunks)))
  {
    var s1 := Step(Fresh(source, None, tags), Seed);
    AppendsCollect(s1, chunks);
    var s2 := Run(s1, Appends(chunks));
    hide Run;
    hide Possible;
    hide Flatten;
    UndisturbedFinalise(s2, etag);
  }

  // ---- The object the source mutates ----

  /** What the file system answers while a chunk is written. */
  datatype Disk = Disk(writes: Option<nat>, flushes: bool, truncates: bool)

  function EndingOf(chunk: Bytes, admitted: bool, disk: Disk): Ending {
    if !admitted then OverBudget
    else if disk.writes.Some? then Interrupted(disk.writes.value, disk.truncates)
    else if !disk.flushes then Interrupted(|chunk|, disk.truncates)
    else Written
  }

  /** The staging file and the size its entry records, under the upload's operation lock. */
  class StagingFile {
    var file: Bytes
    var size: nat
    const baseEtag: Option<nat>

    ghost function Value(): Staging
      reads this
    {
      Staging(file, size, baseEtag)
    }

    constructor (base: Bytes, etag: Option<nat>)
      ensures Value() == Staging(base, |base|, etag)
    {
      file, size, baseEtag := base, |base|, etag;
    }

    /** `append_file_staged`: `admitted` is the answer of `reserve_staged_size`; a write may stop after some bytes. */
    method Append(chunk: Bytes, admitted: bool, disk: Disk) returns (appended: Option<nat>)
      requires disk.writes.Some? ==> disk.writes.value <= |chunk|
      modifies this
      ensures Value() == AppendTo(old(Value()), chunk, EndingOf(chunk, admitted, disk))
      ensures appended == if EndingOf(chunk, admitted, disk).Written? then Some(|chunk|) else None
    {
      var currentSize := size;
      if !admitted {
        return None;
      }
      size := size + |chunk|;
      var written := if disk.writes.Some? then disk.writes.value else |chunk|;
      file := file + chunk[..written];
      if disk.writes.Some? || !disk.flushes {
        if disk.truncates {
          file := SetLen(file, currentSize);
        }
        size := SatSub(size, |chunk|);
        return None;
      }
      assert chunk[..written] == chunk;
      appended := Some(|chunk|);
    }
  }
}
