/**
 `append_file`: any number of appends to one object, each a GET followed by a PUT on the condition that the
 object is still the one that was read. Steps of different calls interleave; other clients overwrite or delete
 the object; a PUT reported as failed may have been applied, or may still be.
 */
module AppendFile {
  import opened Basics
  import opened S3

  type Id = nat

  datatype Call =
    | Read(chunk: Bytes, seen: Option<Object>)
    | Unanswered(chunk: Bytes, seen: Option<Object>)
    | Over(chunk: Bytes, ok: bool)

  /** `log` is history: the calls whose PUT was applied, in that order. From `since` on nobody else wrote: `base` was there. */
  datatype State = State(
    current: Option<Object>,
    tags: Etags,
    calls: map<Id, Call>,
    log: seq<Id>,
    since: nat,
    base: Bytes)

  datatype Action =
    | Get(id: Id, chunk: Bytes)
    | Put(id: Id, etag: nat, applied: bool, accepted: bool)
    | LatePut(id: Id, etag: nat)
    | Overwrite(after: Option<Object>)

  /** `if-match` what was read, or `if-none-match` when there was nothing. */
  predicate Unchanged(current: Option<Object>, seen: Option<Object>) {
    if seen.Some? then Matches(current, seen.value.etag) else current.None?
  }

  function Combined(c: Call): Bytes
    requires !c.Over?
  {
    BytesIn(c.seen) + c.chunk
  }

  predicate MayApply(s: State, c: Call, etag: nat) {
    !c.Over? && Unchanged(s.current, c.seen) && Fits(s.tags, Object(etag, Combined(c)))
  }

  predicate Enabled(s: State, a: Action) {
    match a
    case Get(id, _) => id !in s.calls
    case Put(id, etag, applied, accepted) =>
      && id in s.calls && s.calls[id].Read?
      && (applied ==> MayApply(s, s.calls[id], etag)) && (accepted ==> applied)
    case LatePut(id, etag) => id in s.calls && s.calls[id].Unanswered? && MayApply(s, s.calls[id], etag)
    case Overwrite(after) => after.Some? ==> Fits(s.tags, after.value)
  }

  function Commit(s: State, id: Id, etag: nat, ok: bool): State
    requires id in s.calls && !s.calls[id].Over?
  {
    var o := Object(etag, Combined(s.calls[id]));
    s.(current := Some(o), tags := Learn(s.tags, o), log := s.log + [id], calls := s.calls[id := Over(s.calls[id].chunk, ok)])
  }

  function Step(s: State, a: Action): State
    requires Enabled(s, a)
  {
    match a
    case Get(id, chunk) => s.(calls := s.calls[id := Read(chunk, s.current)])
    case Put(id, etag, applied, accepted) =>
      if applied then Commit(s, id, etag, accepted)
      else s.(calls := s.calls[id := Unanswered(s.calls[id].chunk, s.calls[id].seen)])
    case LatePut(id, etag) => Commit(s, id, etag, false)
    case Overwrite(after) =>
      s.(current := after, tags := if after.Some? then Learn(s.tags, after.value) else s.tags,
         since := |s.log|, base := BytesIn(after))
  }

  function ChunkOf(calls: map<Id, Call>, id: Id): Bytes {
    if id in calls then calls[id].chunk else []
  }

  function ChunksOf(calls: map<Id, Call>, ids: seq<Id>): seq<Bytes> {
    seq(|ids|, i requires 0 <= i < |ids| => ChunkOf(calls, ids[i]))
  }

  function Since(s: State): seq<Id>
    requires s.since <= |s.log|
  {
    s.log[s.since..]
  }

  ghost predicate Logged(s: State) {
    && (forall id | id in s.log :: id in s.calls && s.calls[id].Over?)
    && (forall id | id in s.calls && s.calls[id].Over? :: id in s.log)
    && (forall i, j | 0 <= i < j < |s.log| :: s.log[i] != s.log[j])
  }

  ghost predicate Inv(s: State) {
    && CurrentKnown(s.tags, s.current)
    && (forall id | id in s.calls && !s.calls[id].Over? :: CurrentKnown(s.tags, s.calls[id].seen))
    && s.since <= |s.log| && Logged(s)
    && BytesIn(s.current) == s.base + Flatten(ChunksOf(s.calls, Since(s)))
    && (s.current.None? ==> s.base == [] && s.since == |s.log|)
  }

  /** What was read cannot have changed, so what is written is what is there, with the chunk after it. */
  lemma CommitAppends(s: State, id: Id, etag: nat, ok: bool)
    requires Inv(s) && id in s.calls && MayApply(s, s.calls[id], etag)
    ensures BytesIn(Commit(s, id, etag, ok).current) == BytesIn(s.current) + s.calls[id].chunk
  {
    hide Logged;
    hide Flatten;
    hide ChunksOf;
  }

  lemma CommitIsLogged(s: State, id: Id, etag: nat, ok: bool)
    requires Logged(s) && id in s.calls && !s.calls[id].Over?
    ensures Logged(Commit(s, id, etag, ok)) && id !in s.log
  {
  }

  lemma ChunksPush(s: State, id: Id, etag: nat, ok: bool)
    requires Logged(s) && s.since <= |s.log| && id in s.calls && !s.calls[id].Over?
    requires Logged(Commit(s, id, etag, ok))
    ensures var z := Commit(s, id, etag, ok);
      Flatten(ChunksOf(z.calls, Since(z))) == Flatten(ChunksOf(s.calls, Since(s))) + s.calls[id].chunk
  {
    var z := Commit(s, id, etag, ok);
    assert Since(z) == Since(s) + [id];
    assert ChunksOf(z.calls, Since(z)) == ChunksOf(s.calls, Since(s)) + [s.calls[id].chunk] by {
      assert forall x | x in Since(s) :: x in s.log && x != id;
    }
    FlattenPush(ChunksOf(s.calls, Since(s)), s.calls[id].chunk);
  }

  lemma CommitKeepsInv(s: State, id: Id, etag: nat, ok: bool)
    requires Inv(s) && id in s.calls && MayApply(s, s.calls[id], etag)
    ensures Inv(Commit(s, id, etag, ok))
  {
    hide Logged;
    hide ChunksOf;
    hide Flatten;
    CommitAppends(s, id, etag, ok);
    CommitIsLogged(s, id, etag, ok);
    ChunksPush(s, id, etag, ok);
    hide Combined;
    hide BytesIn;
    var before := Flatten(ChunksOf(s.calls, Since(s)));
    assert s.base + (before + s.calls[id].chunk) == s.base + before + s.calls[id].chunk;
  }

  lemma SameChunks(s: State, z: State)
    requires s.since <= |s.log| && z.log == s.log && z.since == s.since
    requires forall id | id in s.log :: id in s.calls && id in z.calls && z.calls[id] == s.calls[id]
    ensures ChunksOf(z.calls, Since(z)) == ChunksOf(s.calls, Since(s))
  {
  }

  /** An answer that was not a commit changes nothing of the object or the log. */
  lemma UnansweredKeepsInv(s: State, id: Id, etag: nat, accepted: bool)
    requires Inv(s) && Enabled(s, Put(id, etag, false, accepted))
    ensures Inv(Step(s, Put(id, etag, false, accepted)))
  {
    assert id !in s.log;
    var z := Step(s, Put(id, etag, false, accepted));
    SameChunks(s, z);
    hide Flatten;
    hide ChunksOf;
  }

  lemma GetKeepsInv(s: State, id: Id, chunk: Bytes)
    requires Inv(s) && Enabled(s, Get(id, chunk))
    ensures Inv(Step(s, Get(id, chunk)))
  {
    var z := Step(s, Get(id, chunk));
    SameChunks(s, z);
    hide Flatten;
    hide ChunksOf;
  }

  lemma OverwriteKeepsInv(s: State, after: Option<Object>)
    requires Inv(s) && Enabled(s, Overwrite(after))
    ensures Inv(Step(s, Overwrite(after)))
  {
    assert ChunksOf(s.calls, s.log[|s.log|..]) == [];
    hide Logged;
    hide ChunksOf;
  }

  lemma PutIs(s: State, id: Id, etag: nat, applied: bool, accepted: bool)
    requires Enabled(s, Put(id, etag, applied, accepted))
    ensures applied ==> id in s.calls && MayApply(s, s.calls[id], etag) && Step(s, Put(id, etag, applied, accepted)) == Commit(s, id, etag, accepted)
    ensures !applied ==> Step(s, Put(id, etag, applied, accepted)).log == s.log
  {
    hide Combined;
  }

  lemma StepKeepsInv(s: State, a: Action)
    requires Inv(s) && Enabled(s, a)
    ensures Inv(Step(s, a)) && s.log <= Step(s, a).log
  {
    hide Inv;
    match a
    case Get(id, chunk) => GetKeepsInv(s, id, chunk);
    case Put(id, etag, applied, accepted) =>
      PutIs(s, id, etag, applied, accepted);
      if applied {
        CommitKeepsInv(s, id, etag, accepted);
      } else {
        UnansweredKeepsInv(s, id, etag, accepted);
      }
    case LatePut(id, etag) => CommitKeepsInv(s, id, etag, false);
    case Overwrite(after) => OverwriteKeepsInv(s, after);
  }

  predicate Possible(s: State, run: seq<Action>)
    decreases |run|
  {
    run == [] || (Enabled(s, run[0]) && Possible(Step(s, run[0]), run[1..]))
  }

  function Run(s: State, run: seq<Action>): State
    requires Possible(s, run)
    decreases |run|
  {
    if run == [] then s else Run(Step(s, run[0]), run[1..])
  }

  function Fresh(initial: Option<Object>, tags: Etags): State {
    State(initial, tags, map[], [], 0, BytesIn(initial))
  }

  lemma {:induction false} RunKeepsInv(s: State, run: seq<Action>)
    requires Inv(s) && Possible(s, run)
    ensures Inv(Run(s, run)) && s.log <= Run(s, run).log
    decreases |run|
  {
    hide Inv;
    hide Step;
    hide Enabled;
    if run != [] {
      StepKeepsInv(s, run[0]);
      RunKeepsInv(Step(s, run[0]), run[1..]);
    }
  }

  lemma {:induction false} UndisturbedBase(s: State, run: seq<Action>)
    requires Possible(s, run) && forall a | a in run :: !a.Overwrite?
    ensures Run(s, run).base == s.base && Run(s, run).since == s.since
    decreases |run|
  {
    if run != [] {
      assert !run[0].Overwrite?;
      UndisturbedBase(Step(s, run[0]), run[1..]);
    }
  }

  /**
   No lost update. After any run, the object is what was last put there by somebody else, followed by the chunks
   committed since, each once, in the order of their commits; a call that returned Ok has committed; what was
   committed once stays committed, in its place.
   */
  lemma NoLostUpdate(initial: Option<Object>, tags: Etags, run: seq<Action>, more: seq<Action>)
    requires CurrentKnown(tags, initial) && Possible(Fresh(initial, tags), run) && Possible(Run(Fresh(initial, tags), run), more)
    ensures var z := Run(Fresh(initial, tags), run);
      && z.since <= |z.log| && (forall id | id in z.log :: id in z.calls)
      && BytesIn(z.current) == z.base + Flatten(ChunksOf(z.calls, Since(z)))
      && (forall i, j | 0 <= i < j < |z.log| :: z.log[i] != z.log[j])
      && (forall id | id in z.calls :: z.calls[id].Over? <==> id in z.log)
      && z.log <= Run(z, more).log
      && ((forall a | a in run :: !a.Overwrite?) ==> z.since == 0 && z.base == BytesIn(initial))
  {
    var s := Fresh(initial, tags);
    assert ChunksOf(s.calls, Since(s)) == [];
    assert BytesIn(initial) + [] == BytesIn(initial);
    RunKeepsInv(s, run);
    RunKeepsInv(Run(s, run), more);
    if forall a | a in run :: !a.Overwrite? {
      UndisturbedBase(s, run);
    }
  }

  /**
   Of two calls that read the same version, at most one commits while it can still be seen: the commit of one
   with a chunk to append makes the other's condition false.
   */
  lemma SecondWriterIsRefused(s: State, a: Id, b: Id, etag: nat, tag: nat, ok: bool)
    requires Inv(s) && a != b && a in s.calls && b in s.calls && MayApply(s, s.calls[a], etag) && !s.calls[b].Over?
    requires s.calls[a].seen == s.calls[b].seen && s.calls[a].chunk != []
    ensures !MayApply(Commit(s, a, etag, ok), s.calls[b], tag)
  {
    var z := Commit(s, a, etag, ok);
    CommitAppends(s, a, etag, ok);
    assert |BytesIn(z.current)| > |BytesIn(s.current)|;
  }

  // ---- The answers ----

  /** The call has returned Ok. */
  predicate ReturnedOk(s: State, id: Id) {
    id in s.calls && s.calls[id].Over? && s.calls[id].ok
  }

  /** A PUT of the call that was applied and answered so. */
  predicate IsAccepted(a: Action, id: Id) {
    a.Put? && a.id == id && a.applied && a.accepted
  }

  lemma StepAnswers(s: State, a: Action, id: Id)
    requires Enabled(s, a)
    ensures ReturnedOk(Step(s, a), id) <==> ReturnedOk(s, id) || IsAccepted(a, id)
  {
    hide Combined;
    hide Learn;
  }

  lemma {:induction false} RunAnswers(s: State, run: seq<Action>, id: Id)
    requires Possible(s, run)
    ensures ReturnedOk(Run(s, run), id) <==> ReturnedOk(s, id) || exists a :: a in run && IsAccepted(a, id)
    decreases |run|
  {
    hide Step;
    hide Enabled;
    hide ReturnedOk;
    hide IsAccepted;
    if run != [] {
      StepAnswers(s, run[0], id);
      RunAnswers(Step(s, run[0]), run[1..], id);
      assert forall a :: a in run <==> a == run[0] || a in run[1..];
    }
  }

  /**
   The answers over whole runs: a call has returned Ok exactly when a PUT of it was applied and answered so. One whose
   answer was lost has not, though it may have committed.
   */
  lemma OkIffAccepted(initial: Option<Object>, tags: Etags, run: seq<Action>, id: Id)
    requires Possible(Fresh(initial, tags), run)
    ensures var z := Run(Fresh(initial, tags), run);
      id in z.calls && z.calls[id].Over? && z.calls[id].ok <==>
        exists etag :: Put(id, etag, true, true) in run
  {
    var z := Run(Fresh(initial, tags), run);
    RunAnswers(Fresh(initial, tags), run, id);
    if ReturnedOk(z, id) {
      var a :| a in run && IsAccepted(a, id);
      assert a == Put(id, a.etag, true, true);
    }
    if etag :| Put(id, etag, true, true) in run {
      assert IsAccepted(Put(id, etag, true, true), id);
    }
  }

  /** A call that nothing disturbs appends its chunk to what is there and returns Ok. */
  lemma UndisturbedAppend(s: State, id: Id, chunk: Bytes, etag: nat)
    requires Inv(s) && id !in s.calls && etag !in s.tags
    ensures Enabled(s, Get(id, chunk)) && Enabled(Step(s, Get(id, chunk)), Put(id, etag, true, true))
    ensures var z := Step(Step(s, Get(id, chunk)), Put(id, etag, true, true));
      && z.current == Some(Object(etag, BytesIn(s.current) + chunk)) && ReturnedOk(z, id) && z.log == s.log + [id]
      && z.since == s.since && z.base == s.base
  {
    hide Logged;
    hide Flatten;
    hide ChunksOf;
  }

  /** One whose PUT is reported as failed may append it all the same, at once or late, and does not return Ok. */
  lemma LostPutMayCommit(s: State, id: Id, chunk: Bytes, etag: nat, late: bool)
    requires Inv(s) && id !in s.calls && etag !in s.tags
    ensures Enabled(s, Get(id, chunk))
    ensures var s1 := Step(s, Get(id, chunk));
      && Enabled(s1, Put(id, etag, !late, false))
      && var s2 := Step(s1, Put(id, etag, !late, false));
      && (late ==> s2.current == s.current && Enabled(s2, LatePut(id, etag)))
      && var z := if late then Step(s2, LatePut(id, etag)) else s2;
      && z.current == Some(Object(etag, BytesIn(s.current) + chunk)) && z.log == s.log + [id]
      && id in z.calls && z.calls[id].Over? && !ReturnedOk(z, id)
  {
    hide Logged;
    hide Flatten;
    hide ChunksOf;
  }

  /** Another writer's object replaces what is there and starts the account anew. */
  lemma OverwriteReplaces(s: State, after: Option<Object>)
    requires after.Some? ==> Fits(s.tags, after.value)
    ensures Enabled(s, Overwrite(after)) && var z := Step(s, Overwrite(after));
      z.current == after && z.base == BytesIn(after) && z.since == |z.log| && z.calls == s.calls && z.log == s.log
  {
  }
}
