/**
 The server-side half of `move_file`: measure the source, copy it on the condition that it is still the version
 measured (in one request, or by parts above 5 GiB), then delete it on the same condition. Other clients overwrite
 either key between any two requests; a request reported as failed may have been applied, or may still be.
 */
module GuardedMove {
  import opened Basics
  import opened S3
  import MultipartCopy

  const MULTIPART_COPY_THRESHOLD: nat := 5 * 1024 * 1024 * 1024

  datatype Result = Moved | Missing | Failed

  datatype Pc = Starting | Copying | CopyingParts(parts: seq<Bytes>) | Deleting | Over(result: Result)

  datatype Late = Nothing | WholeCopy | JoinedParts

  /**
   `version` is what the HEAD measured: its etag guards every later request. History: `copied`, whether a copy of it
   was applied to the destination, and `deleted`, what this call removed from the source.
   */
  datatype Move = Move(
    source: Option<Object>,
    destination: Option<Object>,
    tags: Etags,
    pc: Pc,
    version: Option<Object>,
    lateCopy: Late,
    lateDelete: bool,
    copied: bool,
    deleted: Option<Bytes>)

  datatype Action =
    | Head(answered: bool, hasEtag: bool, lengthGiven: bool)
    | Copy(etag: nat, applied: bool, accepted: bool)
    | CopyPart(accepted: bool)
    | CompleteParts(etag: nat, applied: bool, accepted: bool)
    | Delete(applied: bool, accepted: bool)
    | LateCopyApplied(etag: nat)
    | LateDeleteApplied
    | OverwriteSource(after: Option<Object>)
    | OverwriteDestination(after: Option<Object>)

  predicate SourceUnchanged(s: Move) {
    s.version.Some? && Matches(s.source, s.version.value.etag)
  }

  function VersionBytes(s: Move): Bytes {
    BytesIn(s.version)
  }

  predicate Enabled(s: Move, a: Action) {
    match a
    case Head(_, _, _) => s.pc.Starting?
    case Copy(etag, applied, accepted) =>
      && s.pc.Copying?
      && (applied ==> SourceUnchanged(s) && Fits(s.tags, Object(etag, s.source.value.bytes))) && (accepted ==> applied)
    case CopyPart(accepted) =>
      && s.pc.CopyingParts? && |s.pc.parts| < MultipartCopy.PartCount(|VersionBytes(s)|)
      && (accepted ==> SourceUnchanged(s) && |s.source.value.bytes| == |VersionBytes(s)|)
    case CompleteParts(etag, applied, accepted) =>
      && s.pc.CopyingParts? && |s.pc.parts| == MultipartCopy.PartCount(|VersionBytes(s)|)
      && (applied ==> Fits(s.tags, Object(etag, Flatten(s.pc.parts)))) && (accepted ==> applied)
    case Delete(applied, accepted) =>
      s.pc.Deleting? && (applied ==> SourceUnchanged(s)) && (accepted ==> applied || s.source.None?)
    case LateCopyApplied(etag) =>
      || (s.lateCopy.WholeCopy? && SourceUnchanged(s) && Fits(s.tags, Object(etag, s.source.value.bytes)))
      || (s.lateCopy.JoinedParts? && Fits(s.tags, Object(etag, VersionBytes(s))))
    case LateDeleteApplied => s.lateDelete && SourceUnchanged(s)
    case OverwriteSource(after) => after.Some? ==> Fits(s.tags, after.value)
    case OverwriteDestination(after) => after.Some? ==> Fits(s.tags, after.value)
  }

  function WriteDestination(s: Move, o: Object): Move {
    s.(destination := Some(o), tags := Learn(s.tags, o), copied := true)
  }

  function DeleteSource(s: Move): Move
    requires s.source.Some?
  {
    s.(source := None, deleted := Some(s.source.value.bytes))
  }

  function LearnOption(tags: Etags, o: Option<Object>): Etags {
    if o.Some? then Learn(tags, o.value) else tags
  }

  function Step(s: Move, a: Action): Move
    requires Enabled(s, a)
  {
    match a
    case Head(answered, hasEtag, lengthGiven) =>
      if !answered then s.(pc := Over(Failed))
      else if s.source.None? then s.(pc := Over(Missing))
      else if !hasEtag then s.(pc := Over(Failed))
      else s.(version := s.source,
              pc := if !lengthGiven || |s.source.value.bytes| <= MULTIPART_COPY_THRESHOLD then Copying else CopyingParts([]))
    case Copy(etag, applied, accepted) =>
      var s1 := if applied then WriteDestination(s, Object(etag, s.source.value.bytes)) else s.(lateCopy := WholeCopy);
      s1.(pc := if accepted then Deleting else Over(Failed))
    case CopyPart(accepted) =>
      if accepted then
        s.(pc := CopyingParts(s.pc.parts + [MultipartCopy.Slice(s.source.value.bytes, |s.pc.parts|)]))
      else s.(pc := Over(Failed))
    case CompleteParts(etag, applied, accepted) =>
      var s1 := if applied then WriteDestination(s, Object(etag, Flatten(s.pc.parts))) else s.(lateCopy := JoinedParts);
      s1.(pc := if accepted then Deleting else Over(Failed))
    case Delete(applied, accepted) =>
      var s1 := if applied then DeleteSource(s) else s.(lateDelete := !accepted);
      s1.(pc := Over(if accepted then Moved else Failed))
    case LateCopyApplied(etag) =>
      WriteDestination(s, Object(etag, if s.lateCopy.WholeCopy? then s.source.value.bytes else VersionBytes(s))).(lateCopy := Nothing)
    case LateDeleteApplied => DeleteSource(s).(lateDelete := false)
    case OverwriteSource(after) => s.(source := after, tags := LearnOption(s.tags, after))
    case OverwriteDestination(after) => s.(destination := after, tags := LearnOption(s.tags, after))
  }

  // ---- Whatever others do to either key ----

  /** The parts collected are the slices of the version measured, whatever the source holds by now. */
  ghost predicate PartsOk(s: Move) {
    s.pc.CopyingParts? ==>
      var n := |s.pc.parts|;
      n <= MultipartCopy.PartCount(|VersionBytes(s)|) && s.pc.parts == MultipartCopy.Slices(VersionBytes(s), n)
  }

  ghost predicate AllKnown(s: Move) {
    CurrentKnown(s.tags, s.source) && CurrentKnown(s.tags, s.destination) && CurrentKnown(s.tags, s.version)
  }

  ghost predicate Inv(s: Move) {
    && AllKnown(s)
    && PartsOk(s)
    && Progress(s)
  }

  /** How far the move has come, and what it has deleted. */
  ghost predicate Progress(s: Move) {
    && (s.pc.Starting? <==> s.version.None? && !s.pc.Over?)
    && (s.pc.Deleting? || s.lateDelete || s.deleted.Some? ==> s.copied)
    && (s.pc == Over(Moved) ==> s.copied)
    && (s.copied || !s.lateCopy.Nothing? ==> s.version.Some?)
    && (s.deleted.Some? ==> s.deleted.value == VersionBytes(s))
  }

  /** The destination as this call alone would leave it. */
  ghost predicate OwnDestination(s: Move, initial: Option<Object>) {
    if s.copied then s.destination.Some? && s.destination.value.bytes == VersionBytes(s) else s.destination == initial
  }

  /** The source as this call alone would leave it. */
  ghost predicate OwnSource(s: Move, initial: Option<Object>) {
    && s.source == (if s.deleted.Some? then None else initial)
    && (s.version.Some? ==> s.version == initial)
    && (s.pc == Over(Moved) ==> s.source.None?)
  }

  lemma CollectedParts(s: Move, accepted: bool)
    requires Inv(s) && Enabled(s, CopyPart(accepted))
    ensures PartsOk(Step(s, CopyPart(accepted)))
  {
    if accepted {
      var n := |s.pc.parts|;
      assert s.source.value.bytes == VersionBytes(s);
      assert MultipartCopy.Slices(VersionBytes(s), n + 1) ==
             MultipartCopy.Slices(VersionBytes(s), n) + [MultipartCopy.Slice(VersionBytes(s), n)];
    }
  }

  lemma PartsAreTheVersion(s: Move)
    requires PartsOk(s) && s.pc.CopyingParts? && |s.pc.parts| == MultipartCopy.PartCount(|VersionBytes(s)|)
    ensures Flatten(s.pc.parts) == VersionBytes(s)
  {
    MultipartCopy.PartsMakeTheObject(VersionBytes(s));
  }

  lemma NoParts(s: Move)
    requires s.pc == CopyingParts([])
    ensures PartsOk(s)
  {
    assert MultipartCopy.Slices(VersionBytes(s), 0) == [];
  }

  lemma DeletesTheVersion(s: Move)
    requires AllKnown(s) && SourceUnchanged(s)
    ensures s.source.value.bytes == VersionBytes(s)
  {
  }

  lemma StepKeepsParts(s: Move, a: Action)
    requires Inv(s) && Enabled(s, a)
    ensures PartsOk(Step(s, a))
  {
    if a.CopyPart? {
      CollectedParts(s, a.accepted);
    } else if Step(s, a).pc == CopyingParts([]) {
      NoParts(Step(s, a));
    } else {
      hide Flatten;
    }
  }

  lemma LearnKeepsKnown(s: Move, o: Object)
    requires AllKnown(s) && Fits(s.tags, o)
    ensures AllKnown(s.(tags := Learn(s.tags, o))) && CurrentKnown(Learn(s.tags, o), Some(o))
  {
  }

  lemma StepKeepsKnown(s: Move, a: Action)
    requires AllKnown(s) && Enabled(s, a)
    ensures AllKnown(Step(s, a))
  {
    assert CurrentKnown(s.tags, None);
    hide Flatten;
    hide MultipartCopy.PartCount;
    hide MultipartCopy.Slice;
    hide Fits;
    hide Learn;
    hide CurrentKnown;
    var z := Step(s, a);
    match a
    case Copy(_, applied, _) => if applied { LearnKeepsKnown(s, z.destination.value); }
    case CompleteParts(_, applied, _) => if applied { LearnKeepsKnown(s, z.destination.value); }
    case LateCopyApplied(_) => LearnKeepsKnown(s, z.destination.value);
    case OverwriteSource(after) => if after.Some? { LearnKeepsKnown(s, after.value); }
    case OverwriteDestination(after) => if after.Some? { LearnKeepsKnown(s, after.value); }
    case _ =>
  }

  lemma StepKeepsProgress(s: Move, a: Action)
    requires Progress(s) && Enabled(s, a)
    requires SourceUnchanged(s) ==> s.source.Some? && s.source.value.bytes == VersionBytes(s)
    ensures Progress(Step(s, a))
  {
    hide Fits;
    hide Flatten;
    hide Learn;
    hide MultipartCopy.PartCount;
    hide MultipartCopy.Slice;
  }

  lemma StepKeepsInv(s: Move, a: Action)
    requires Inv(s) && Enabled(s, a)
    ensures Inv(Step(s, a))
  {
    StepKeepsParts(s, a);
    StepKeepsKnown(s, a);
    if SourceUnchanged(s) {
      DeletesTheVersion(s);
    }
    hide Step;
    hide Enabled;
    hide AllKnown;
    hide PartsOk;
    hide Progress;
    StepKeepsProgress(s, a);
  }

  lemma StepKeepsDestination(s: Move, a: Action, initial: Option<Object>)
    requires Inv(s) && Enabled(s, a) && !a.OverwriteDestination? && OwnDestination(s, initial)
    ensures OwnDestination(Step(s, a), initial)
  {
    if a.CompleteParts? {
      PartsAreTheVersion(s);
    }
    hide PartsOk;
    hide Flatten;
    hide MultipartCopy.PartCount;
    hide MultipartCopy.Slice;
  }

  lemma StepKeepsSource(s: Move, a: Action, initial: Option<Object>)
    requires Inv(s) && Enabled(s, a) && !a.OverwriteSource? && OwnSource(s, initial)
    ensures OwnSource(Step(s, a), initial)
  {
    hide PartsOk;
    hide Flatten;
    hide MultipartCopy.PartCount;
    hide MultipartCopy.Slice;
  }

  predicate Possible(s: Move, run: seq<Action>)
    decreases |run|
  {
    run == [] || (Enabled(s, run[0]) && Possible(Step(s, run[0]), run[1..]))
  }

  function Run(s: Move, run: seq<Action>): Move
    requires Possible(s, run)
    decreases |run|
  {
    if run == [] then s else Run(Step(s, run[0]), run[1..])
  }

  function Fresh(source: Option<Object>, destination: Option<Object>, tags: Etags): Move {
    Move(source, destination, tags, Starting, None, Nothing, false, false, None)
  }

  lemma {:induction false} RunKeepsInv(s: Move, run: seq<Action>, source: Option<Object>, destination: Option<Object>)
    requires Inv(s) && Possible(s, run)
    ensures Inv(Run(s, run))
    ensures OwnDestination(s, destination) && (forall a | a in run :: !a.OverwriteDestination?) ==> OwnDestination(Run(s, run), destination)
    ensures OwnSource(s, source) && (forall a | a in run :: !a.OverwriteSource?) ==> OwnSource(Run(s, run), source)
    decreases |run|
  {
    hide Inv;
    hide OwnDestination;
    hide OwnSource;
    hide Step;
    hide Enabled;
    if run != [] {
      assert run[0] in run && forall a | a in run[1..] :: a in run;
      StepKeepsInv(s, run[0]);
      if OwnDestination(s, destination) && !run[0].OverwriteDestination? {
        StepKeepsDestination(s, run[0], destination);
      }
      if OwnSource(s, source) && !run[0].OverwriteSource? {
        StepKeepsSource(s, run[0], source);
      }
      RunKeepsInv(Step(s, run[0]), run[1..], source, destination);
    }
  }

  /** Only the version that was measured, and whose copy the destination received, is ever deleted. */
  lemma OnlyCopiedVersionsAreDeleted(source: Option<Object>, destination: Option<Object>, tags: Etags, run: seq<Action>)
    requires CurrentKnown(tags, source) && CurrentKnown(tags, destination)
    requires Possible(Fresh(source, destination, tags), run)
    ensures var z := Run(Fresh(source, destination, tags), run);
      && (z.deleted.Some? ==> z.copied && z.version.Some? && z.deleted.value == z.version.value.bytes)
      && (z.pc == Over(Moved) ==> z.copied)
  {
    RunKeepsInv(Fresh(source, destination, tags), run, source, destination);
  }

  /**
   With no other writer of the destination, what the call deleted from the source is there; with none of the source
   either, the content is at the source or at the destination in every state, and at the destination after Ok(true).
   Nothing to move leaves both as they were.
   */
  lemma MoveKeepsContent(source: Option<Object>, destination: Option<Object>, tags: Etags, run: seq<Action>)
    requires CurrentKnown(tags, source) && CurrentKnown(tags, destination)
    requires Possible(Fresh(source, destination, tags), run) && forall a | a in run :: !a.OverwriteDestination?
    ensures var z := Run(Fresh(source, destination, tags), run);
      && (z.deleted.Some? ==> z.destination.Some? && z.destination.value.bytes == z.deleted.value)
      && (z.pc == Over(Moved) ==> z.version.Some? && z.destination.Some? && z.destination.value.bytes == z.version.value.bytes)
      && (z.destination == destination || (z.version.Some? && z.destination.Some? && z.destination.value.bytes == z.version.value.bytes))
      && ((forall a | a in run :: !a.OverwriteSource?) && source.Some? ==>
            || z.source == source
            || (z.source.None? && z.destination.Some? && z.destination.value.bytes == source.value.bytes))
      && ((forall a | a in run :: !a.OverwriteSource?) && z.pc == Over(Moved) ==>
            source.Some? && z.source.None? && z.destination.Some? && z.destination.value.bytes == source.value.bytes)
  {
    RunKeepsInv(Fresh(source, destination, tags), run, source, destination);
  }

  // ---- The answers ----

  /** The request that ends the call with this result. */
  ghost predicate EndsWith(s: Move, a: Action, result: Result) {
    match result
    case Moved => a.Delete? && a.accepted
    case Missing => a.Head? && a.answered && s.source.None?
    case Failed =>
      || (a.Head? && (!a.answered || (s.source.Some? && !a.hasEtag)))
      || ((a.Copy? || a.CopyPart? || a.CompleteParts? || a.Delete?) && !a.accepted)
  }

  lemma StepAnswers(s: Move, a: Action, result: Result)
    requires Enabled(s, a)
    ensures Step(s, a).pc == Over(result) <==> s.pc == Over(result) || EndsWith(s, a, result)
  {
    hide Flatten;
    hide MultipartCopy.PartCount;
    hide MultipartCopy.Slice;
    hide Fits;
    hide Learn;
  }

  /** A request of the run ended the call with this result. */
  ghost predicate EndedWith(s: Move, run: seq<Action>, result: Result)
    requires Possible(s, run)
    decreases |run|
  {
    run != [] && (EndsWith(s, run[0], result) || EndedWith(Step(s, run[0]), run[1..], result))
  }

  /**
   The answers over whole runs: Ok(true) exactly when the delete was accepted, Ok(false) exactly when the HEAD was
   answered and there was no source, and an error exactly when a request failed or the version has no ETag.
   */
  lemma {:induction false} AnswersIff(s: Move, run: seq<Action>, result: Result)
    requires Possible(s, run)
    ensures Run(s, run).pc == Over(result) <==> s.pc == Over(result) || EndedWith(s, run, result)
    decreases |run|
  {
    hide Step;
    hide Enabled;
    hide EndsWith;
    if run != [] {
      StepAnswers(s, run[0], result);
      AnswersIff(Step(s, run[0]), run[1..], result);
    }
  }

  /** Measured with its ETag, a version is copied in one request when no length was given or up to 5 GiB, else by parts. */
  lemma HeadChooses(s: Move, lengthGiven: bool)
    requires s.pc.Starting? && s.source.Some?
    ensures Enabled(s, Head(true, true, lengthGiven))
    ensures var z := Step(s, Head(true, true, lengthGiven));
      && z.version == s.source
      && z.pc == if lengthGiven && |s.source.value.bytes| > 5_368_709_120 then CopyingParts([]) else Copying
  {
  }

  /** A small object moves in three requests when nothing disturbs them. */
  lemma UndisturbedMove(source: Object, destination: Option<Object>, tags: Etags, etag: nat)
    requires |source.bytes| <= MULTIPART_COPY_THRESHOLD && Known(tags, source) && etag !in tags
    ensures var s := Fresh(Some(source), destination, tags);
      && Enabled(s, Head(true, true, true))
      && var s1 := Step(s, Head(true, true, true));
      && Enabled(s1, Copy(etag, true, true))
      && var s2 := Step(s1, Copy(etag, true, true));
      && Enabled(s2, Delete(true, true))
      && var z := Step(s2, Delete(true, true));
      z.pc == Over(Moved) && z.source.None? && z.destination == Some(Object(etag, source.bytes))
  {
  }

  /** A copy reported as failed may still arrive, and so may a delete: the call has returned an error by then. */
  lemma LateCopyArrives(source: Object, destination: Option<Object>, tags: Etags, etag: nat)
    requires |source.bytes| <= MULTIPART_COPY_THRESHOLD && Known(tags, source) && etag !in tags
    ensures var s1 := Step(Fresh(Some(source), destination, tags), Head(true, true, true));
      && Enabled(s1, Copy(etag, false, false))
      && var s2 := Step(s1, Copy(etag, false, false));
      && s2.destination == destination && Enabled(s2, LateCopyApplied(etag))
      && var z := Step(s2, LateCopyApplied(etag));
      z.pc == Over(Failed) && z.source == Some(source) && z.destination == Some(Object(etag, source.bytes))
  {
  }

  lemma LateJoinArrives(s: Move, etag: nat)
    requires s.pc.CopyingParts? && |s.pc.parts| == MultipartCopy.PartCount(|VersionBytes(s)|) && etag !in s.tags
    ensures Enabled(s, CompleteParts(etag, false, false))
    ensures var s1 := Step(s, CompleteParts(etag, false, false));
      && s1.destination == s.destination && Enabled(s1, LateCopyApplied(etag))
      && var z := Step(s1, LateCopyApplied(etag));
      z.pc == Over(Failed) && z.source == s.source && z.destination == Some(Object(etag, VersionBytes(s)))
  {
    hide Flatten;
    hide MultipartCopy.PartCount;
  }

  lemma LateDeleteArrives(s: Move)
    requires s.pc.Deleting? && SourceUnchanged(s)
    ensures Enabled(s, Delete(false, false))
    ensures var s1 := Step(s, Delete(false, false));
      && s1.source == s.source && Enabled(s1, LateDeleteApplied)
      && var z := Step(s1, LateDeleteApplied);
      z.pc == Over(Failed) && z.source.None? && z.destination == s.destination
  {
    hide Flatten;
    hide MultipartCopy.PartCount;
  }

  /** Other writers replace what is at either end. */
  lemma OverwritesReplace(s: Move, after: Option<Object>)
    requires after.Some? ==> Fits(s.tags, after.value)
    ensures Enabled(s, OverwriteSource(after)) && Enabled(s, OverwriteDestination(after))
    ensures Step(s, OverwriteSource(after)).source == after && Step(s, OverwriteSource(after)).destination == s.destination
    ensures Step(s, OverwriteDestination(after)).destination == after && Step(s, OverwriteDestination(after)).source == s.source
  {
  }

  /** Any request may fail, or be applied and its answer lost; the call is over with an error. */
  lemma AnyRequestMayFail(s: Move, etag: nat, applied: bool)
    requires s.source.Some? && AllKnown(s) && etag !in s.tags && SourceUnchanged(s)
    ensures s.pc.Copying? ==> Enabled(s, Copy(etag, applied, false)) && Step(s, Copy(etag, applied, false)).pc == Over(Failed)
    ensures s.pc.CopyingParts? && |s.pc.parts| < MultipartCopy.PartCount(|VersionBytes(s)|) ==>
      Enabled(s, CopyPart(false)) && Step(s, CopyPart(false)).pc == Over(Failed)
    ensures s.pc.CopyingParts? && |s.pc.parts| == MultipartCopy.PartCount(|VersionBytes(s)|) ==>
      Enabled(s, CompleteParts(etag, applied, false)) && Step(s, CompleteParts(etag, applied, false)).pc == Over(Failed)
    ensures s.pc.Deleting? ==> Enabled(s, Delete(applied, false)) && Step(s, Delete(applied, false)).pc == Over(Failed)
  {
    hide Flatten;
    hide MultipartCopy.PartCount;
    hide MultipartCopy.Slice;
  }

  /** The state with so many parts copied. */
  function WithParts(s: Move, n: nat): Move
    requires n <= MultipartCopy.PartCount(|VersionBytes(s)|)
  {
    s.(pc := CopyingParts(MultipartCopy.Slices(VersionBytes(s), n)))
  }

  lemma NextPart(s: Move, n: nat)
    requires s.version.Some? && s.source == s.version && n < MultipartCopy.PartCount(|VersionBytes(s)|)
    ensures Enabled(WithParts(s, n), CopyPart(true))
    ensures Step(WithParts(s, n), CopyPart(true)) == WithParts(s, n + 1)
  {
    assert MultipartCopy.Slices(VersionBytes(s), n + 1) ==
           MultipartCopy.Slices(VersionBytes(s), n) + [MultipartCopy.Slice(VersionBytes(s), n)];
  }

  lemma {:induction false} PartsCopied(s: Move, n: nat)
    requires s.version.Some? && s.source == s.version && n <= MultipartCopy.PartCount(|VersionBytes(s)|)
    ensures var run := seq(MultipartCopy.PartCount(|VersionBytes(s)|) - n, _ => CopyPart(true));
      Possible(WithParts(s, n), run) && Run(WithParts(s, n), run) == WithParts(s, MultipartCopy.PartCount(|VersionBytes(s)|))
    decreases MultipartCopy.PartCount(|VersionBytes(s)|) - n
  {
    var count := MultipartCopy.PartCount(|VersionBytes(s)|);
    hide MultipartCopy.PartCount;
    if n < count {
      NextPart(s, n);
      PartsCopied(s, n + 1);
      var run := seq(count - n, _ => CopyPart(true));
      assert run[0] == CopyPart(true) && run[1..] == seq(count - (n + 1), _ => CopyPart(true));
      hide WithParts;
      hide Step;
      hide Enabled;
    }
  }

  /** A large one by parts. */
  lemma UndisturbedMoveByParts(source: Object, destination: Option<Object>, tags: Etags, etag: nat)
    requires |source.bytes| > MULTIPART_COPY_THRESHOLD && Known(tags, source) && etag !in tags
    ensures var s := Fresh(Some(source), destination, tags);
      var parts := seq(MultipartCopy.PartCount(|source.bytes|), _ => CopyPart(true));
      && Enabled(s, Head(true, true, true))
      && var s1 := Step(s, Head(true, true, true));
      && Possible(s1, parts)
      && var s2 := Run(s1, parts);
      && Enabled(s2, CompleteParts(etag, true, true))
      && var s3 := Step(s2, CompleteParts(etag, true, true));
      && Enabled(s3, Delete(true, true))
      && var z := Step(s3, Delete(true, true));
      z.pc == Over(Moved) && z.source.None? && z.destination == Some(Object(etag, source.bytes))
  {
    var s := Fresh(Some(source), destination, tags);
    var s1 := Step(s, Head(true, true, true));
    assert MultipartCopy.Slices(source.bytes, 0) == [];
    assert WithParts(s1, 0) == s1;
    PartsCopied(s1, 0);
    var count := MultipartCopy.PartCount(|source.bytes|);
    assert count - 0 == count;
    hide Run;
    hide Possible;
    hide MultipartCopy.PartCount;
    MultipartCopy.PartsMakeTheObject(source.bytes);
    hide Flatten;
    hide MultipartCopy.Slice;
  }
}
