/**
 * `toArrow` with `blobMode: "bytes"`: snapshot, run the query on the live table, check that the
 * version has not moved, up to three times. Any number of such queries run against a table
 * that others commit to; the steps of all of them interleave freely.
 */
module BlobBytesQuery {
  const BLOB_BYTES_ATTEMPTS := 3

  /** Where a query stands. Versions are those seen through the table handle. */
  datatype Phase =
    | Starting(attempt: nat)
    | Pinned(attempt: nat, snapshot: nat)
    | Collected(attempt: nat, snapshot: nat, rows: nat)
    | Done(rows: nat, bytes: nat)
    | DonePlain(rows: nat)
    | Failed

  /** `begun` is the version at the time of the call. */
  datatype Query = Query(begun: nat, phase: Phase)

  datatype State = State(live: nat, queries: map<nat, Query>)

  datatype Step =
    | Commit(count: nat)
    | Call(id: nat)
    | Snapshot(id: nat)
    | Collect(id: nat)
    | Recheck(id: nat)

  predicate Init(s: State) {
    s.queries == map[]
  }

  function Put(s: State, id: nat, phase: Phase): State
    requires id in s.queries
  {
    s.(queries := s.queries[id := s.queries[id].(phase := phase)])
  }

  predicate Enabled(s: State, step: Step) {
    match step
    case Commit(count) => count > 0
    case Call(id) => id !in s.queries
    case Snapshot(id) => id in s.queries && s.queries[id].phase.Starting?
    case Collect(id) => id in s.queries && s.queries[id].phase.Pinned?
    case Recheck(id) => id in s.queries && s.queries[id].phase.Collected?
  }

  /** What the recheck decides: accept the rows, try again, or give up. */
  function Decide(live: nat, p: Phase): Phase
    requires p.Collected?
  {
    if live == p.snapshot then Done(p.rows, p.snapshot)
    else if p.attempt == BLOB_BYTES_ATTEMPTS then Failed
    else Starting(p.attempt + 1)
  }

  /** One step; `hasBlobs` says which versions have a projected blob column. */
  function Next(hasBlobs: nat -> bool, s: State, step: Step): State
    requires Enabled(s, step)
  {
    match step
    case Commit(count) => s.(live := s.live + count)
    case Call(id) => s.(queries := s.queries[id := Query(s.live, Starting(1))])
    case Snapshot(id) => Put(s, id, Pinned(s.queries[id].phase.attempt, s.live))
    case Collect(id) =>
      var p := s.queries[id].phase;
      Put(s, id, if hasBlobs(p.snapshot) then Collected(p.attempt, p.snapshot, s.live) else DonePlain(s.live))
    case Recheck(id) => Put(s, id, Decide(s.live, s.queries[id].phase))
  }

  /** A run: from an initial state, every step enabled where it is taken. */
  ghost predicate Run(hasBlobs: nat -> bool, states: seq<State>, steps: seq<Step>) {
    && |states| == |steps| + 1 && Init(states[0])
    && forall i | 0 <= i < |steps| ::
         Enabled(states[i], steps[i]) && states[i + 1] == Next(hasBlobs, states[i], steps[i])
  }

  // ---------------------------------------------------------------- safety

  /** Some version of a stretch has no projected blob column. */
  predicate Gap(hasBlobs: nat -> bool, from: nat, until: nat) {
    exists v | from <= v <= until :: !hasBlobs(v)
  }

  /** Each attempt that came to nothing saw the version move. */
  predicate QueryInv(hasBlobs: nat -> bool, live: nat, q: Query) {
    q.begun <= live &&
    match q.phase
    case Starting(a) => 1 <= a <= BLOB_BYTES_ATTEMPTS && q.begun + (a - 1) <= live
    case Pinned(a, snapshot) => 1 <= a <= BLOB_BYTES_ATTEMPTS && q.begun + (a - 1) <= snapshot <= live
    case Collected(a, snapshot, rows) =>
      1 <= a <= BLOB_BYTES_ATTEMPTS && q.begun + (a - 1) <= snapshot <= rows <= live && hasBlobs(snapshot)
    case Done(rows, bytes) => rows == bytes && q.begun <= rows <= live && hasBlobs(rows)
    case DonePlain(rows) => q.begun <= rows <= live && Gap(hasBlobs, q.begun, rows)
    case Failed => q.begun + BLOB_BYTES_ATTEMPTS <= live
  }

  ghost predicate Inv(hasBlobs: nat -> bool, s: State) {
    forall id | id in s.queries :: QueryInv(hasBlobs, s.live, s.queries[id])
  }

  lemma StepKeepsInv(hasBlobs: nat -> bool, s: State, step: Step)
    requires Inv(hasBlobs, s) && Enabled(s, step)
    ensures Inv(hasBlobs, Next(hasBlobs, s, step))
  {
    var s' := Next(hasBlobs, s, step);
    forall id | id in s'.queries ensures QueryInv(hasBlobs, s'.live, s'.queries[id]) {
      if id in s.queries { assert QueryInv(hasBlobs, s.live, s.queries[id]); }
    }
  }

  lemma {:induction false} RunKeepsInv(hasBlobs: nat -> bool, states: seq<State>, steps: seq<Step>, i: nat)
    requires Run(hasBlobs, states, steps) && i < |states|
    ensures Inv(hasBlobs, states[i])
    decreases i
  {
    if i > 0 {
      RunKeepsInv(hasBlobs, states, steps, i - 1);
      StepKeepsInv(hasBlobs, states[i - 1], steps[i - 1]);
    }
  }

  /**
   * In every interleaving a result with bytes pairs rows and bytes of one version, one that the
   * table had during the call. A result without bytes has rows of such a version too, and an earlier
   * version of the call, or that one, had no blob column. The error needs a rise of at least three.
   */
  lemma RowsAndBytesAgree(hasBlobs: nat -> bool, states: seq<State>, steps: seq<Step>, i: nat, id: nat)
    requires Run(hasBlobs, states, steps) && i < |states| && id in states[i].queries
    ensures
      var q := states[i].queries[id];
      && (q.phase.Done? ==>
            q.phase.rows == q.phase.bytes && q.begun <= q.phase.rows <= states[i].live && hasBlobs(q.phase.rows))
      && (q.phase.DonePlain? ==> q.begun <= q.phase.rows <= states[i].live && Gap(hasBlobs, q.begun, q.phase.rows))
      && (q.phase.Failed? ==> states[i].live >= q.begun + 3)
  {
    RunKeepsInv(hasBlobs, states, steps, i);
    assert QueryInv(hasBlobs, states[i].live, states[i].queries[id]);
  }

  // ---------------------------------------------------------------- rows of blobs without bytes

  /** Some run has a call that began at a version come to a phase. */
  ghost predicate Reached(hasBlobs: nat -> bool, begun: nat, phase: Phase) {
    exists states, steps :: Run(hasBlobs, states, steps) && EndsWith(states[|steps|], Query(begun, phase))
  }

  predicate EndsWith(s: State, q: Query) {
    0 in s.queries && s.queries[0] == q
  }

  /** Only the rows come back, although their version has a blob column: a commit came in between. */
  lemma DescriptorsWithoutBytes()
    ensures
      var hasBlobs := (v: nat) => v == 1;
      hasBlobs(1) && Reached(hasBlobs, 0, DonePlain(1))
  {
    var hasBlobs := (v: nat) => v == 1;
    assert !hasBlobs(0);
    PlainIsReached(hasBlobs, 0, 0, 1);
  }

  /** A call that finds no blob column at one version returns the rows of any later one. */
  lemma PlainIsReached(hasBlobs: nat -> bool, begun: nat, snapshot: nat, rows: nat)
    requires begun <= snapshot <= rows && !hasBlobs(snapshot)
    ensures Reached(hasBlobs, begun, DonePlain(rows))
  {
    var states, steps := Extend(hasBlobs, [State(begun, map[])], [], Call(0));
    states, steps := MoveTo(hasBlobs, states, steps, snapshot);
    states, steps := Extend(hasBlobs, states, steps, Snapshot(0));
    states, steps := MoveTo(hasBlobs, states, steps, rows);
    states, steps := Extend(hasBlobs, states, steps, Collect(0));
    assert EndsWith(states[|steps|], Query(begun, DonePlain(rows)));
  }

  /** Which plain results there are: exactly those after a version without blob columns. */
  lemma PlainResults(hasBlobs: nat -> bool, begun: nat, rows: nat)
    ensures Reached(hasBlobs, begun, DonePlain(rows)) <==> Gap(hasBlobs, begun, rows)
  {
    if Gap(hasBlobs, begun, rows) {
      var snapshot: nat :| begun <= snapshot <= rows && !hasBlobs(snapshot);
      PlainIsReached(hasBlobs, begun, snapshot, rows);
    }
    if Reached(hasBlobs, begun, DonePlain(rows)) {
      var states, steps :|
        Run(hasBlobs, states, steps) && EndsWith(states[|steps|], Query(begun, DonePlain(rows)));
      RowsAndBytesAgree(hasBlobs, states, steps, |steps|, 0);
    }
  }

  /**
   * A call may return rows of a version with blob columns and no bytes if and only if, within the
   * call, a version without blob columns comes before one with them.
   */
  lemma BytesAreMissedExactly(hasBlobs: nat -> bool, begun: nat, live: nat)
    ensures
      (exists rows | begun <= rows <= live :: hasBlobs(rows) && Reached(hasBlobs, begun, DonePlain(rows))) <==>
      (exists u, v | begun <= u < v <= live :: !hasBlobs(u) && hasBlobs(v))
  {
    if u: nat, v: nat :| begun <= u < v <= live && !hasBlobs(u) && hasBlobs(v) {
      PlainResults(hasBlobs, begun, v);
    }
    if rows: nat :| begun <= rows <= live && hasBlobs(rows) && Reached(hasBlobs, begun, DonePlain(rows)) {
      PlainResults(hasBlobs, begun, rows);
      var u: nat :| begun <= u <= rows && !hasBlobs(u);
      assert u < rows && hasBlobs(rows);
    }
  }

  /** While commits neither add nor drop blob columns, a result has bytes exactly if its rows have blobs. */
  lemma SteadyColumnsAreSafe(hasBlobs: nat -> bool, states: seq<State>, steps: seq<Step>, i: nat, id: nat)
    requires Run(hasBlobs, states, steps) && i < |states| && id in states[i].queries
    requires forall v | states[i].queries[id].begun <= v <= states[i].live ::
               hasBlobs(v) == hasBlobs(states[i].queries[id].begun)
    ensures
      var p := states[i].queries[id].phase;
      && (p.DonePlain? ==> !hasBlobs(p.rows))
      && (p.Done? ==> hasBlobs(p.rows) && p.rows == p.bytes)
  {
    RowsAndBytesAgree(hasBlobs, states, steps, i, id);
  }

  // ---------------------------------------------------------------- attempts

  /** Snapshots taken by a query in the first `i` steps. */
  function Attempts(steps: seq<Step>, i: nat, id: nat): nat
    requires i <= |steps|
  {
    if i == 0 then 0 else Attempts(steps, i - 1, id) + (if steps[i - 1] == Snapshot(id) then 1 else 0)
  }

  predicate AttemptsMatch(p: Phase, n: nat) {
    match p
    case Starting(a) => n == a - 1
    case Pinned(a, _) => n == a
    case Collected(a, _, _) => n == a
    case Done(_, _) => 1 <= n <= BLOB_BYTES_ATTEMPTS
    case DonePlain(_) => 1 <= n <= BLOB_BYTES_ATTEMPTS
    case Failed => n == BLOB_BYTES_ATTEMPTS
  }

  /** The loop makes at most three attempts, and exactly three when it fails. */
  lemma {:induction false} AtMostThreeAttempts(
    hasBlobs: nat -> bool, states: seq<State>, steps: seq<Step>, i: nat, id: nat)
    requires Run(hasBlobs, states, steps) && i < |states|
    ensures id !in states[i].queries ==> Attempts(steps, i, id) == 0
    ensures id in states[i].queries ==> AttemptsMatch(states[i].queries[id].phase, Attempts(steps, i, id))
    ensures Attempts(steps, i, id) <= BLOB_BYTES_ATTEMPTS
    decreases i
  {
    if i > 0 {
      AtMostThreeAttempts(hasBlobs, states, steps, i - 1, id);
      assert Enabled(states[i - 1], steps[i - 1]) && states[i] == Next(hasBlobs, states[i - 1], steps[i - 1]);
      RunKeepsInv(hasBlobs, states, steps, i - 1);
      RunKeepsInv(hasBlobs, states, steps, i);
      if id in states[i - 1].queries { assert QueryInv(hasBlobs, states[i - 1].live, states[i - 1].queries[id]); }
      if id in states[i].queries { assert QueryInv(hasBlobs, states[i].live, states[i].queries[id]); }
    }
  }

  // ---------------------------------------------------------------- success without interference

  /** The version does not move between two points of a run. */
  ghost predicate Quiet(states: seq<State>, from: nat, until: nat)
    requires from <= until < |states|
  {
    forall i | from <= i <= until :: states[i].live == states[from].live
  }

  /** An attempt during which nobody commits is the last one, and it succeeds. */
  lemma {:induction false} QuietAttemptSucceeds(
    hasBlobs: nat -> bool, states: seq<State>, steps: seq<Step>, from: nat, until: nat, id: nat)
    requires Run(hasBlobs, states, steps) && from <= until < |states| && Quiet(states, from, until)
    requires id in states[from].queries && states[from].queries[id].phase.Pinned?
    requires states[from].queries[id].phase.snapshot == states[from].live
    ensures id in states[until].queries
    ensures
      var p, v := states[until].queries[id].phase, states[from].live;
      p == states[from].queries[id].phase
      || (p.Collected? && p.snapshot == v && p.rows == v)
      || p == Done(v, v)
      || p == DonePlain(v)
    decreases until
  {
    if from < until {
      QuietAttemptSucceeds(hasBlobs, states, steps, from, until - 1, id);
      assert Enabled(states[until - 1], steps[until - 1]);
      assert states[until] == Next(hasBlobs, states[until - 1], steps[until - 1]);
      assert states[until].live == states[from].live && states[until - 1].live == states[from].live;
    }
  }

  /** A run goes on with any enabled step. */
  lemma Extend(hasBlobs: nat -> bool, states: seq<State>, steps: seq<Step>, step: Step)
    returns (states': seq<State>, steps': seq<Step>)
    requires Run(hasBlobs, states, steps) && Enabled(states[|steps|], step)
    ensures Run(hasBlobs, states', steps') && states'[|steps'|] == Next(hasBlobs, states[|steps|], step)
  {
    states', steps' := states + [Next(hasBlobs, states[|steps|], step)], steps + [step];
  }

  /** Others commit until the table is at a version. */
  lemma MoveTo(hasBlobs: nat -> bool, states: seq<State>, steps: seq<Step>, live: nat)
    returns (states': seq<State>, steps': seq<Step>)
    requires Run(hasBlobs, states, steps) && states[|steps|].live <= live
    ensures Run(hasBlobs, states', steps') && states'[|steps'|] == states[|steps|].(live := live)
  {
    if states[|steps|].live == live {
      return states, steps;
    }
    states', steps' := Extend(hasBlobs, states, steps, Commit(live - states[|steps|].live));
  }

  /** An attempt that one commit spoils. */
  lemma SpoiledAttempt(hasBlobs: nat -> bool, states: seq<State>, steps: seq<Step>, id: nat, begun: nat, a: nat)
    returns (states': seq<State>, steps': seq<Step>)
    requires Run(hasBlobs, states, steps) && id in states[|steps|].queries
    requires states[|steps|].queries[id] == Query(begun, Starting(a)) && hasBlobs(states[|steps|].live)
    ensures Run(hasBlobs, states', steps') && id in states'[|steps'|].queries
    ensures states'[|steps'|].live == states[|steps|].live + 1
    ensures states'[|steps'|].queries[id] ==
            Query(begun, if a == BLOB_BYTES_ATTEMPTS then Failed else Starting(a + 1))
  {
    states', steps' := Extend(hasBlobs, states, steps, Snapshot(id));
    states', steps' := Extend(hasBlobs, states', steps', Collect(id));
    states', steps' := Extend(hasBlobs, states', steps', Commit(1));
    states', steps' := Extend(hasBlobs, states', steps', Recheck(id));
  }

  /** Three commits, one in each attempt, are enough to fail: the bound is tight. */
  lemma ThreeCommitsCanFail(hasBlobs: nat -> bool, live: nat) returns (states: seq<State>, steps: seq<Step>)
    requires hasBlobs(live) && hasBlobs(live + 1) && hasBlobs(live + 2)
    ensures Run(hasBlobs, states, steps) && 0 in states[|steps|].queries
    ensures states[|steps|].queries[0] == Query(live, Failed) && states[|steps|].live == live + 3
  {
    states, steps := Extend(hasBlobs, [State(live, map[])], [], Call(0));
    states, steps := SpoiledAttempt(hasBlobs, states, steps, 0, live, 1);
    states, steps := SpoiledAttempt(hasBlobs, states, steps, 0, live, 2);
    states, steps := SpoiledAttempt(hasBlobs, states, steps, 0, live, 3);
  }

  // ---------------------------------------------------------------- the loop itself

  /** The versions one call sees, attempt by attempt: at the snapshot, by the query, at the recheck. */
  datatype Seen = Seen(snapshot: nat, rows: nat, recheck: nat)

  /** Through one handle the version never goes back. */
  ghost predicate Forward(seen: seq<Seen>) {
    && (forall i | 0 <= i < |seen| :: seen[i].snapshot <= seen[i].rows <= seen[i].recheck)
    && (forall i, j | 0 <= i < j < |seen| :: seen[i].recheck <= seen[j].snapshot)
  }

  /**
   * The loop of `toArrow`: how the call ends, and in which attempt. Its turns are the `Snapshot`,
   * `Collect` and `Recheck` steps of a run of the system in which the version moves as `seen` says.
   */
  method ToArrow(hasBlobs: nat -> bool, seen: seq<Seen>)
    returns (end: Phase, attempt: nat, ghost states: seq<State>, ghost steps: seq<Step>)
    requires |seen| == BLOB_BYTES_ATTEMPTS && Forward(seen)
    ensures 1 <= attempt <= BLOB_BYTES_ATTEMPTS
    ensures forall k | 0 <= k < attempt - 1 :: hasBlobs(seen[k].snapshot) && seen[k].recheck != seen[k].snapshot
    ensures
      var last := seen[attempt - 1];
      end == if !hasBlobs(last.snapshot) then DonePlain(last.rows)
             else if last.recheck == last.snapshot then Done(last.snapshot, last.snapshot)
             else Failed
    ensures end.Failed? ==> attempt == BLOB_BYTES_ATTEMPTS && seen[2].recheck >= seen[0].snapshot + 3
    ensures Run(hasBlobs, states, steps) && EndsWith(states[|steps|], Query(seen[0].snapshot, end))
  {
    states, steps := Extend(hasBlobs, [State(seen[0].snapshot, map[])], [], Call(0));
    attempt := 1;
    while true
      invariant 1 <= attempt <= BLOB_BYTES_ATTEMPTS
      invariant forall k | 0 <= k < attempt - 1 :: hasBlobs(seen[k].snapshot) && seen[k].recheck != seen[k].snapshot
      invariant Run(hasBlobs, states, steps) && states[|steps|].live <= seen[attempt - 1].snapshot
      invariant EndsWith(states[|steps|], Query(seen[0].snapshot, Starting(attempt)))
      decreases BLOB_BYTES_ATTEMPTS - attempt
    {
      var snapshot, rows := seen[attempt - 1].snapshot, seen[attempt - 1].rows;
      states, steps := CollectTurn(hasBlobs, states, steps, seen[attempt - 1]);
      if !hasBlobs(snapshot) {
        return DonePlain(rows), attempt, states, steps;
      }
      states, steps := RecheckTurn(hasBlobs, states, steps, seen[attempt - 1]);
      if seen[attempt - 1].recheck == snapshot {
        return Done(rows, snapshot), attempt, states, steps;
      }
      if attempt == BLOB_BYTES_ATTEMPTS {
        assert seen[0].recheck > seen[0].snapshot && seen[1].recheck > seen[1].snapshot;
        return Failed, attempt, states, steps;
      }
      attempt := attempt + 1;
    }
  }

  /** The first half of a turn: the snapshot and the query on the live table. */
  lemma CollectTurn(hasBlobs: nat -> bool, states: seq<State>, steps: seq<Step>, seen: Seen)
    returns (states': seq<State>, steps': seq<Step>)
    requires Run(hasBlobs, states, steps) && 0 in states[|steps|].queries
    requires states[|steps|].queries[0].phase.Starting?
    requires states[|steps|].live <= seen.snapshot <= seen.rows
    ensures Run(hasBlobs, states', steps') && states'[|steps'|].live == seen.rows
    ensures
      var q := states[|steps|].queries[0];
      EndsWith(states'[|steps'|],
               q.(phase := if hasBlobs(seen.snapshot) then Collected(q.phase.attempt, seen.snapshot, seen.rows)
                           else DonePlain(seen.rows)))
  {
    states', steps' := MoveTo(hasBlobs, states, steps, seen.snapshot);
    states', steps' := Extend(hasBlobs, states', steps', Snapshot(0));
    states', steps' := MoveTo(hasBlobs, states', steps', seen.rows);
    states', steps' := Extend(hasBlobs, states', steps', Collect(0));
  }

  /** The second half: the version is looked at again. */
  lemma RecheckTurn(hasBlobs: nat -> bool, states: seq<State>, steps: seq<Step>, seen: Seen)
    returns (states': seq<State>, steps': seq<Step>)
    requires Run(hasBlobs, states, steps) && 0 in states[|steps|].queries
    requires states[|steps|].queries[0].phase.Collected?
    requires states[|steps|].live == seen.rows <= seen.recheck
    ensures Run(hasBlobs, states', steps') && states'[|steps'|].live == seen.recheck
    ensures
      var q := states[|steps|].queries[0];
      EndsWith(states'[|steps'|], q.(phase := Decide(seen.recheck, q.phase)))
  {
    states', steps' := MoveTo(hasBlobs, states, steps, seen.recheck);
    states', steps' := Extend(hasBlobs, states', steps', Recheck(0));
  }
}
