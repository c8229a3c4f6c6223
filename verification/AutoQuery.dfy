/**
 * `createAutoQuery`: executions of one automatic search share a prepared vector. Executions,
 * schema changes and the preparations themselves interleave freely; what runs between two
 * awaits is one step.
 */
module AutoQuery {
  import opened Values

  /** The embedding metadata of a table version; `None` routes to full-text search. */
  type Metadata = Option<string>

  datatype Outcome = Pending | Ready(vector: nat) | Rejected

  /** A cached preparation: an object with the metadata its vector is computed for. */
  datatype Preparation = Preparation(metadata: string, outcome: Outcome)

  datatype Execution =
    | Routed(snapshot: Metadata)
    | Awaiting(metadata: string, preparation: nat)
    | FullText
    | Vector(metadata: string, preparation: nat, vector: nat)
    | Threw

  /** `live` is the metadata of the current version; preparations are named by their identity. */
  datatype State = State(
    live: Metadata,
    cached: Option<nat>,
    preparations: map<nat, Preparation>,
    executions: map<nat, Execution>)

  datatype Step =
    | ChangeSchema(live: Metadata)
    | Snapshot(id: nat)
    | Prepare(id: nat, made: nat)
    | Settle(preparation: nat, outcome: Outcome)
    | Resume(id: nat)

  predicate Init(s: State) {
    s.cached.None? && s.preparations == map[] && s.executions == map[]
  }

  /** The cached preparation serves this metadata. */
  predicate Serves(s: State, metadata: string) {
    s.cached.Some? && s.cached.value in s.preparations && s.preparations[s.cached.value].metadata == metadata
  }

  predicate Enabled(s: State, step: Step) {
    match step
    case ChangeSchema(_) => true
    case Snapshot(id) => id !in s.executions
    case Prepare(id, made) => id in s.executions && s.executions[id].Routed? && made !in s.preparations
    case Settle(p, outcome) => p in s.preparations && s.preparations[p].outcome.Pending? && !outcome.Pending?
    case Resume(id) =>
      && id in s.executions && s.executions[id].Awaiting?
      && s.executions[id].preparation in s.preparations
      && !s.preparations[s.executions[id].preparation].outcome.Pending?
  }

  function Next(s: State, step: Step): State
    requires Enabled(s, step)
  {
    match step
    case ChangeSchema(live) => s.(live := live)
    case Snapshot(id) => s.(executions := s.executions[id := Routed(s.live)])
    case Prepare(id, made) => PrepareStep(s, id, made)
    case Settle(p, outcome) => s.(preparations := s.preparations[p := s.preparations[p].(outcome := outcome)])
    case Resume(id) => ResumeStep(s, id)
  }

  /** From the routing decision to the await. */
  function PrepareStep(s: State, id: nat, made: nat): State
    requires Enabled(s, Prepare(id, made))
  {
    match s.executions[id].snapshot
    case None => s.(executions := s.executions[id := FullText])
    case Some(metadata) =>
      if Serves(s, metadata) then
        s.(executions := s.executions[id := Awaiting(metadata, s.cached.value)])
      else
        s.(cached := Some(made),
           preparations := s.preparations[made := Preparation(metadata, Pending)],
           executions := s.executions[id := Awaiting(metadata, made)])
  }

  /** After the await: run the vector query, or evict the preparation if it is still the cached one. */
  function ResumeStep(s: State, id: nat): State
    requires Enabled(s, Resume(id))
  {
    var p := s.executions[id].preparation;
    match s.preparations[p].outcome
    case Ready(vector) => s.(executions := s.executions[id := Vector(s.executions[id].metadata, p, vector)])
    case _ =>
      s.(cached := if s.cached == Some(p) then None else s.cached,
         executions := s.executions[id := Threw])
  }

  ghost predicate Run(states: seq<State>, steps: seq<Step>) {
    && |states| == |steps| + 1 && Init(states[0])
    && forall i | 0 <= i < |steps| :: Enabled(states[i], steps[i]) && states[i + 1] == Next(states[i], steps[i])
  }

  // ---------------------------------------------------------------- the invariant

  ghost predicate ExecutionInv(s: State, e: Execution) {
    match e
    case Awaiting(snapshot, p) => p in s.preparations && s.preparations[p].metadata == snapshot
    case Vector(snapshot, p, vector) => p in s.preparations && s.preparations[p] == Preparation(snapshot, Ready(vector))
    case _ => true
  }

  ghost predicate AwaitedBy(s: State, p: nat, id: nat) {
    id in s.executions && s.executions[id].Awaiting? && s.executions[id].preparation == p
  }

  /** A failed preparation stays cached only while someone still has to see it fail. */
  ghost predicate Inv(s: State) {
    && (forall id | id in s.executions :: ExecutionInv(s, s.executions[id]))
    && (s.cached.Some? ==> s.cached.value in s.preparations)
    && (s.cached.Some? && !s.preparations[s.cached.value].outcome.Ready? ==>
      exists id :: AwaitedBy(s, s.cached.value, id))
  }

  lemma StepKeepsInv(s: State, step: Step)
    requires Inv(s) && Enabled(s, step)
    ensures Inv(Next(s, step))
  {
    var s' := Next(s, step);
    forall id | id in s'.executions ensures ExecutionInv(s', s'.executions[id]) {
      if id in s.executions { assert ExecutionInv(s, s.executions[id]); }
    }
    if s'.cached.Some? && !s'.preparations[s'.cached.value].outcome.Ready? {
      WitnessKept(s, step);
    }
  }

  lemma WitnessKept(s: State, step: Step)
    requires Inv(s) && Enabled(s, step)
    requires Next(s, step).cached.Some? && Next(s, step).cached.value in Next(s, step).preparations
    requires !Next(s, step).preparations[Next(s, step).cached.value].outcome.Ready?
    ensures exists id :: AwaitedBy(Next(s, step), Next(s, step).cached.value, id)
  {
    var s' := Next(s, step);
    if s'.cached == s.cached && !s.preparations[s.cached.value].outcome.Ready? {
      var w :| AwaitedBy(s, s.cached.value, w);
      assert AwaitedBy(s', s'.cached.value, w);
    } else {
      assert AwaitedBy(s', s'.cached.value, step.id);
    }
  }

  lemma {:induction false} RunKeepsInv(states: seq<State>, steps: seq<Step>, i: nat)
    requires Run(states, steps) && i < |states|
    ensures Inv(states[i])
    decreases i
  {
    if i > 0 {
      RunKeepsInv(states, steps, i - 1);
      StepKeepsInv(states[i - 1], steps[i - 1]);
    }
  }

  // ---------------------------------------------------------------- what it promises

  /** An execution's route is the metadata of the version it pinned, whatever happens to the schema later. */
  ghost predicate RouteOf(e: Execution, pinned: Metadata) {
    match e
    case Routed(snapshot) => snapshot == pinned
    case Awaiting(snapshot, _) => pinned == Some(snapshot)
    case Vector(snapshot, _, _) => pinned == Some(snapshot)
    case FullText => pinned.None?
    case Threw => pinned.Some?
  }

  lemma {:induction false} RouteIsPinned(states: seq<State>, steps: seq<Step>, from: nat, i: nat, id: nat)
    requires Run(states, steps) && from < i < |states|
    requires steps[from] == Snapshot(id)
    ensures id in states[i].executions && RouteOf(states[i].executions[id], states[from].live)
    decreases i
  {
    assert Enabled(states[i - 1], steps[i - 1]) && states[i] == Next(states[i - 1], steps[i - 1]);
    if from < i - 1 { RouteIsPinned(states, steps, from, i - 1, id); }
  }

  /**
   * In every interleaving a vector query runs on a pinned version whose embedding metadata is
   * exactly the metadata its vector was computed for.
   */
  lemma VectorMatchesSnapshot(states: seq<State>, steps: seq<Step>, from: nat, i: nat, id: nat)
    requires Run(states, steps) && from < i < |states| && steps[from] == Snapshot(id)
    requires id in states[i].executions && states[i].executions[id].Vector?
    ensures
      var e := states[i].executions[id];
      && e.preparation in states[i].preparations
      && states[from].live == Some(states[i].preparations[e.preparation].metadata)
      && states[i].preparations[e.preparation].outcome == Ready(e.vector)
  {
    RunKeepsInv(states, steps, i);
    RouteIsPinned(states, steps, from, i, id);
    assert ExecutionInv(states[i], states[i].executions[id]);
  }

  /** An execution has resumed after the preparation it awaited had this outcome. */
  ghost predicate ResumedWith(
    states: seq<State>, steps: seq<Step>, i: nat, id: nat, k: nat, p: nat, outcome: Outcome)
    requires i < |states| == |steps| + 1
  {
    && k < i && steps[k] == Resume(id)
    && id in states[k].executions && states[k].executions[id].Awaiting?
    && states[k].executions[id].preparation == p
    && p in states[k].preparations && states[k].preparations[p].outcome == outcome
  }

  /** The end of an execution whose preparation had this outcome. */
  predicate EndedBy(e: Execution, p: nat, outcome: Outcome) {
    match outcome
    case Ready(vector) => e.Vector? && e.preparation == p && e.vector == vector
    case Rejected => e.Threw?
    case Pending => false
  }

  /** Whatever is cached or live by then, an execution ends as the preparation it awaited had ended. */
  lemma {:induction false} ResumedEndsSo(
    states: seq<State>, steps: seq<Step>, i: nat, id: nat, k: nat, p: nat, outcome: Outcome)
    requires Run(states, steps) && i < |states| && ResumedWith(states, steps, i, id, k, p, outcome)
    ensures id in states[i].executions && EndedBy(states[i].executions[id], p, outcome)
    decreases i
  {
    assert Enabled(states[i - 1], steps[i - 1]) && states[i] == Next(states[i - 1], steps[i - 1]);
    if k < i - 1 { ResumedEndsSo(states, steps, i - 1, id, k, p, outcome); }
  }

  /**
   * In every run an execution throws if and only if it has resumed after the preparation it
   * awaited was rejected, and runs a vector query if and only if it has resumed after that
   * preparation was ready, with exactly its vector.
   */
  lemma EndsExactly(states: seq<State>, steps: seq<Step>, i: nat, id: nat, p: nat, vector: nat)
    requires Run(states, steps) && i < |states|
    ensures id in states[i].executions && states[i].executions[id].Threw? <==>
            exists k, q :: ResumedWith(states, steps, i, id, k, q, Rejected)
    ensures id in states[i].executions && EndedBy(states[i].executions[id], p, Ready(vector)) <==>
            exists k :: ResumedWith(states, steps, i, id, k, p, Ready(vector))
  {
    forall k, q, outcome | ResumedWith(states, steps, i, id, k, q, outcome)
      ensures id in states[i].executions && EndedBy(states[i].executions[id], q, outcome)
    {
      ResumedEndsSo(states, steps, i, id, k, q, outcome);
    }
    if id in states[i].executions && (states[i].executions[id].Threw? || states[i].executions[id].Vector?) {
      var k, q, outcome := EndHasACause(states, steps, i, id);
    }
  }

  /** An execution that has ended with a vector or an error has resumed. */
  lemma {:induction false} EndHasACause(states: seq<State>, steps: seq<Step>, i: nat, id: nat)
    returns (k: nat, p: nat, outcome: Outcome)
    requires Run(states, steps) && i < |states| && id in states[i].executions
    requires states[i].executions[id].Threw? || states[i].executions[id].Vector?
    ensures ResumedWith(states, steps, i, id, k, p, outcome) && EndedBy(states[i].executions[id], p, outcome)
    decreases i
  {
    var s, step := states[i - 1], steps[i - 1];
    assert Enabled(s, step) && states[i] == Next(s, step);
    if id in s.executions && s.executions[id] == states[i].executions[id] {
      k, p, outcome := EndHasACause(states, steps, i - 1, id);
    } else {
      k, p := i - 1, s.executions[id].preparation;
      outcome := s.preparations[p].outcome;
    }
  }

  /** Past its routing decision an execution is a full-text query exactly if its version had no metadata. */
  lemma {:induction false} RoutedForGood(
    states: seq<State>, steps: seq<Step>, from: nat, k: nat, i: nat, id: nat, made: nat)
    requires Run(states, steps) && from < k < i < |states|
    requires steps[from] == Snapshot(id) && steps[k] == Prepare(id, made)
    ensures id in states[i].executions && !states[i].executions[id].Routed?
    ensures states[i].executions[id].FullText? <==> states[from].live.None?
    decreases i
  {
    RouteIsPinned(states, steps, from, i, id);
    assert Enabled(states[i - 1], steps[i - 1]) && states[i] == Next(states[i - 1], steps[i - 1]);
    if k < i - 1 { RoutedForGood(states, steps, from, k, i - 1, id, made); }
  }

  /** Once no execution is under way, what is cached is a finished vector. */
  lemma SettledCacheIsGood(states: seq<State>, steps: seq<Step>, i: nat)
    requires Run(states, steps) && i < |states|
    requires forall id | id in states[i].executions :: !states[i].executions[id].Awaiting?
    ensures states[i].cached.Some? ==>
              states[i].cached.value in states[i].preparations &&
                states[i].preparations[states[i].cached.value].outcome.Ready?
  {
    RunKeepsInv(states, steps, i);
  }

  /** A step after which a cached preparation is no longer cached, and why. */
  ghost predicate Evicts(s: State, step: Step, p: nat)
    requires Enabled(s, step)
  {
    match step
    case Resume(id) => s.executions[id].preparation == p && p in s.preparations && s.preparations[p].outcome.Rejected?
    case Prepare(id, _) =>
      s.executions[id].snapshot.Some? && p in s.preparations &&
        s.executions[id].snapshot.value != s.preparations[p].metadata
    case _ => false
  }

  /**
   * In every run a preparation leaves the cache only by the failure of an execution that awaits it, or
   * for one of other metadata: an execution that fails never evicts a newer preparation.
   */
  lemma {:induction false} EvictedOnlyByItsOwn(states: seq<State>, steps: seq<Step>, from: nat, until: nat, p: nat)
    requires Run(states, steps) && from <= until < |states|
    requires states[from].cached == Some(p) && states[until].cached != Some(p)
    ensures exists k | from <= k < until ::
              states[k].cached == Some(p) && states[k + 1].cached != Some(p) && Evicts(states[k], steps[k], p)
    decreases until
  {
    var s, step := states[until - 1], steps[until - 1];
    assert Enabled(s, step) && states[until] == Next(s, step);
    if s.cached == Some(p) {
      RunKeepsInv(states, steps, until - 1);
      assert Evicts(s, step, p);
    } else {
      EvictedOnlyByItsOwn(states, steps, from, until - 1, p);
    }
  }

  /** A preparation that left the cache never comes back. */
  lemma {:induction false} EvictedForGood(states: seq<State>, steps: seq<Step>, from: nat, until: nat, p: nat)
    requires Run(states, steps) && from <= until < |states|
    requires p in states[from].preparations && states[from].cached != Some(p)
    ensures p in states[until].preparations && states[until].cached != Some(p)
    decreases until
  {
    if from < until {
      EvictedForGood(states, steps, from, until - 1, p);
      assert Enabled(states[until - 1], steps[until - 1]);
      assert states[until] == Next(states[until - 1], steps[until - 1]);
    }
  }

  // ---------------------------------------------------------------- one preparation per metadata

  /** A step that makes a preparation for some metadata. */
  ghost predicate Makes(s: State, step: Step, p: nat, metadata: string)
    requires Enabled(s, step)
  {
    p !in s.preparations && p in Next(s, step).preparations && Next(s, step).preparations[p].metadata == metadata
  }

  /** A preparation keeps its metadata. */
  lemma {:induction false} MetadataStays(states: seq<State>, steps: seq<Step>, from: nat, until: nat, p: nat)
    requires Run(states, steps) && from <= until < |states| && p in states[from].preparations
    ensures p in states[until].preparations
    ensures states[until].preparations[p].metadata == states[from].preparations[p].metadata
    decreases until
  {
    if from < until {
      MetadataStays(states, steps, from, until - 1, p);
      assert Enabled(states[until - 1], steps[until - 1]);
      assert states[until] == Next(states[until - 1], steps[until - 1]);
    }
  }

  /** In every run, metadata that has a cached preparation gets another one only after that was evicted. */
  lemma RemadeOnlyAfterEviction(states: seq<State>, steps: seq<Step>, from: nat, k: nat, p: nat, q: nat)
    requires Run(states, steps) && from <= k < |steps|
    requires states[from].cached == Some(p) && p in states[from].preparations
    requires Enabled(states[k], steps[k]) && Makes(states[k], steps[k], q, states[from].preparations[p].metadata)
    ensures exists e | from <= e < k ::
              states[e].cached == Some(p) && states[e + 1].cached != Some(p) && Evicts(states[e], steps[e], p)
  {
    MetadataStays(states, steps, from, k, p);
    EvictedOnlyByItsOwn(states, steps, from, k, p);
  }

  /** While the metadata stays the same and nothing fails, all executions share one preparation. */
  lemma {:induction false} OnePreparationWhileQuiet(states: seq<State>, steps: seq<Step>, i: nat, metadata: string)
    requires Run(states, steps) && i < |states|
    requires states[0].live == Some(metadata)
    requires forall k | 0 <= k < |steps| :: !steps[k].ChangeSchema? && !(steps[k].Settle? && steps[k].outcome.Rejected?)
    ensures states[i].live == Some(metadata)
    ensures forall id | id in states[i].executions ::
              RouteOf(states[i].executions[id], Some(metadata)) && !states[i].executions[id].Threw?
    ensures forall p | p in states[i].preparations ::
              && states[i].cached == Some(p) && states[i].preparations[p].metadata == metadata
              && !states[i].preparations[p].outcome.Rejected?
    decreases i
  {
    if i > 0 {
      OnePreparationWhileQuiet(states, steps, i - 1, metadata);
      RunKeepsInv(states, steps, i - 1);
      var s, step := states[i - 1], steps[i - 1];
      assert Enabled(s, step) && states[i] == Next(s, step);
      forall id | id in states[i].executions
        ensures RouteOf(states[i].executions[id], Some(metadata)) && !states[i].executions[id].Threw?
      {
        if id in s.executions { assert ExecutionInv(s, s.executions[id]); }
      }
    }
  }
}
