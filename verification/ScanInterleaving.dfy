/**
 * Several streams over one closure. Each stream restarts the iterator at its first pull and then
 * takes whatever comes next, so pulls of another stream in between steal its batches. Says exactly
 * which schedules of pulls are safe for a stream.
 */
module ScanInterleaving {
  import opened Values
  import opened ScanProtocol

  /** Streams are numbered; `calls` is the factory call that each has started. */
  datatype System = System(
    closure: Closure, streams: map<nat, Stream>, given: map<nat, seq<Yield>>, calls: map<nat, nat>)

  const START := System(Closure(None, 0), map[], map[], map[])

  function StreamOf(s: System, k: nat): Stream {
    if k in s.streams then s.streams[k] else FRESH
  }

  function YieldsOf(s: System, k: nat): seq<Yield> {
    if k in s.given then s.given[k] else []
  }

  /** The factory call of a stream; one that has not been pulled will make the next call. */
  function CallOf(s: System, k: nat): nat {
    if k in s.calls then s.calls[k] else s.closure.calls
  }

  /** One pull of a stream; nothing happens once it has ended. */
  function PullOf(factory: Factory, s: System, k: nat): System {
    if StreamOf(s, k).ended then s
    else
      var (c, st, y) := Poll(factory, s.closure, StreamOf(s, k));
      System(c, s.streams[k := st],
             s.given[k := if y.Some? then YieldsOf(s, k) + [y.value] else YieldsOf(s, k)],
             s.calls[k := CallOf(s, k)])
  }

  /** The system after a schedule of pulls. */
  function After(factory: Factory, schedule: seq<nat>): System {
    if schedule == [] then START
    else PullOf(factory, After(factory, schedule[..|schedule| - 1]), schedule[|schedule| - 1])
  }

  /** A stream has handed out the first batches of its own factory call, and all of them if it has ended. */
  ghost predicate Right(factory: Factory, schedule: seq<nat>, k: nat) {
    RightIn(factory, After(factory, schedule), k)
  }

  ghost predicate RightIn(factory: Factory, s: System, k: nat) {
    && YieldsOf(s, k) <= ExpectedOf(factory(CallOf(s, k)))
    && (StreamOf(s, k).ended ==> YieldsOf(s, k) == ExpectedOf(factory(CallOf(s, k))))
  }

  /** No other stream is pulled between two pulls of this one. */
  ghost predicate Alone(schedule: seq<nat>, k: nat) {
    forall a, b, c | 0 <= a < b < c < |schedule| && schedule[a] == k && schedule[c] == k :: schedule[b] == k
  }

  // ---------------------------------------------------------------- a stream on its own is right

  /** One stream and the closure, as the system with a single stream. */
  ghost function Seen(s: System, k: nat): State {
    State(true, true, s.closure, Some(StreamOf(s, k)), YieldsOf(s, k), CallOf(s, k), s.closure.calls)
  }

  /** A pull of the stream itself is a step of that system. */
  lemma OwnPull(factory: Factory, s: System, k: nat)
    requires !StreamOf(s, k).ended && Inv(factory, Seen(s, k))
    ensures Seen(PullOf(factory, s, k), k).(starts := 0) == Next(factory, Seen(s, k), Pull).(starts := 0)
    ensures Inv(factory, Seen(PullOf(factory, s, k), k))
  {
    PullKeepsInv(factory, Seen(s, k));
    var next := Next(factory, Seen(s, k), Pull);
    assert Seen(PullOf(factory, s, k), k).closure == next.closure;
  }

  /** Pulls of others leave a stream as it is. */
  lemma OtherPull(factory: Factory, s: System, k: nat, m: nat)
    requires m != k
    ensures
      var s' := PullOf(factory, s, m);
      && StreamOf(s', k) == StreamOf(s, k) && YieldsOf(s', k) == YieldsOf(s, k)
      && (k in s.calls ==> CallOf(s', k) == CallOf(s, k)) && (k in s'.calls <==> k in s.calls)
  {
  }

  /** While a stream is alone, it and the closure are in step until others take over for good. */
  ghost predicate InStep(factory: Factory, schedule: seq<nat>, k: nat) {
    var s := After(factory, schedule);
    && (k in s.calls <==> k in schedule)
    && (k !in schedule ==> k !in s.streams && k !in s.given)
    && (k !in schedule || schedule[|schedule| - 1] == k ==> Inv(factory, Seen(s, k)))
    && Right(factory, schedule, k)
  }

  lemma {:induction false} AloneIsInStep(factory: Factory, schedule: seq<nat>, k: nat)
    requires Alone(schedule, k)
    ensures InStep(factory, schedule, k)
    decreases |schedule|
  {
    if schedule != [] {
      var last := |schedule| - 1;
      var front, m := schedule[..last], schedule[last];
      assert schedule == front + [m];
      AloneBefore(schedule, k);
      AloneIsInStep(factory, front, k);
      var s := After(factory, front);
      if m != k {
        OtherPull(factory, s, k, m);
        if k !in schedule { NotYetPulled(factory, After(factory, schedule), k); }
      } else {
        if k in front { LastWasOwn(schedule, k); }
        if !StreamOf(s, k).ended { OwnPull(factory, s, k); }
        InvIsRight(factory, After(factory, schedule), k);
      }
    } else {
      NotYetPulled(factory, START, k);
    }
  }

  lemma AloneBefore(schedule: seq<nat>, k: nat)
    requires schedule != [] && Alone(schedule, k)
    ensures Alone(schedule[..|schedule| - 1], k)
  {
    var front := schedule[..|schedule| - 1];
    forall a, b, c | 0 <= a < b < c < |front| && front[a] == k && front[c] == k ensures front[b] == k {
      assert schedule[a] == k && schedule[c] == k && schedule[b] == front[b];
    }
  }

  lemma LastWasOwn(schedule: seq<nat>, k: nat)
    requires schedule != [] && Alone(schedule, k) && schedule[|schedule| - 1] == k
    requires k in schedule[..|schedule| - 1]
    ensures |schedule| >= 2 && schedule[|schedule| - 2] == k
  {
    var front := schedule[..|schedule| - 1];
    var a :| 0 <= a < |front| && front[a] == k;
    assert schedule[a] == k;
    if a < |schedule| - 2 { assert schedule[|schedule| - 2] == k; }
  }

  lemma NotYetPulled(factory: Factory, s: System, k: nat)
    requires k !in s.streams && k !in s.given && k !in s.calls
    ensures Inv(factory, Seen(s, k)) && RightIn(factory, s, k)
  {
  }

  lemma InvIsRight(factory: Factory, s: System, k: nat)
    requires Inv(factory, Seen(s, k))
    ensures RightIn(factory, s, k)
  {
    var st := StreamOf(s, k);
    if !st.isFirstPull && !st.errored && !st.ended {
      YieldedSoFar(factory(CallOf(s, k)).value, YieldsOf(s, k), |YieldsOf(s, k)|);
    }
  }

  // ---------------------------------------------------------------- a disturbed stream can be wrong

  /** Where the iterator stands, and how far each stream should be in its own call. */
  datatype Progress = Progress(calls: nat, pos: nat, own: map<nat, (nat, nat)>)

  /** Progress as long as every call gives enough batches. */
  function Trace(schedule: seq<nat>): Progress {
    if schedule == [] then Progress(0, 0, map[])
    else
      Advance(Trace(schedule[..|schedule| - 1]), schedule[|schedule| - 1])
  }

  /** A factory whose calls all give the same number of batches, named by call and position. */
  function Naming(name: (nat, nat) -> nat, length: nat): Factory {
    (call: nat) => Some(Named(name, length, call))
  }

  function Named(name: (nat, nat) -> nat, length: nat, call: nat): (items: seq<Item>)
    ensures |items| == length && forall i | 0 <= i < length :: items[i] == Batch(name(call, i))
  {
    seq(length, i requires 0 <= i < length => Batch(name(call, i)))
  }

  /** A stream under way that has met no failure. */
  predicate UnderWay(st: Stream) {
    !st.refused && !st.isFirstPull && !st.errored && !st.ended
  }

  ghost predicate Follows(name: (nat, nat) -> nat, length: nat, s: System, a: Progress) {
    && s.closure.calls == a.calls
    && s.streams.Keys == s.given.Keys == s.calls.Keys == a.own.Keys
    && (a.own != map[] ==> a.calls > 0 && s.closure.iter == Some(Cursor(Named(name, length, a.calls - 1), a.pos)))
    && forall k | k in a.own :: UnderWay(s.streams[k]) && s.calls[k] == a.own[k].0 && |s.given[k]| == a.own[k].1
  }

  /** The batch that the next pull of a stream takes. */
  function Taken(name: (nat, nat) -> nat, a: Progress, k: nat): nat
    requires a.own != map[] ==> a.calls > 0
  {
    if k in a.own then name(a.calls - 1, a.pos) else name(a.calls, 0)
  }

  function Advance(a: Progress, m: nat): Progress {
    if m in a.own then Progress(a.calls, a.pos + 1, a.own[m := (a.own[m].0, a.own[m].1 + 1)])
    else Progress(a.calls + 1, 1, a.own[m := (a.calls, 1)])
  }

  lemma PullFollows(name: (nat, nat) -> nat, length: nat, s: System, a: Progress, m: nat)
    requires Follows(name, length, s, a) && a.pos < length
    ensures Follows(name, length, PullOf(Naming(name, length), s, m), Advance(a, m))
    ensures YieldsOf(PullOf(Naming(name, length), s, m), m) == YieldsOf(s, m) + [Good(Taken(name, a, m))]
  {
    PollFollows(name, length, s, a, m);
    assert m in Advance(a, m).own;
  }

  /** One poll with enough batches left. */
  lemma PollFollows(name: (nat, nat) -> nat, length: nat, s: System, a: Progress, m: nat)
    requires Follows(name, length, s, a) && a.pos < length
    ensures !StreamOf(s, m).ended
    ensures
      var (c, st, y) := Poll(Naming(name, length), s.closure, StreamOf(s, m));
      && UnderWay(st) && y == Some(Good(Taken(name, a, m)))
      && c == Closure(Some(Cursor(Named(name, length, Advance(a, m).calls - 1), Advance(a, m).pos)),
        Advance(a, m).calls)
  {
    assert Naming(name, length)(s.closure.calls) == Some(Named(name, length, s.closure.calls));
  }

  lemma {:induction false} RunFollows(name: (nat, nat) -> nat, length: nat, schedule: seq<nat>)
    requires |schedule| <= length
    ensures Follows(name, length, After(Naming(name, length), schedule), Trace(schedule))
    ensures Trace(schedule).pos <= |schedule|
    decreases |schedule|
  {
    if schedule != [] {
      var front, m := schedule[..|schedule| - 1], schedule[|schedule| - 1];
      RunFollows(name, length, front);
      PullFollows(name, length, After(Naming(name, length), front), Trace(front), m);
    }
  }

  /** The iterator is past the place where a stream should be. */
  predicate Overtaken(a: Progress, k: nat) {
    k in a.own && (a.own[k].0 + 1 < a.calls || (a.own[k].0 + 1 == a.calls && a.own[k].1 < a.pos))
  }

  /** The iterator is never behind a stream; a pull of another stream overtakes it for good. */
  lemma {:induction false} DisturbedIsOvertaken(schedule: seq<nat>, k: nat)
    ensures
      var a := Trace(schedule);
      && (k in a.own <==> k in schedule)
      && (k in a.own ==> Overtaken(a, k) || (a.own[k].0 + 1 == a.calls && a.own[k].1 == a.pos))
      && (Disturbed(schedule, k) ==> Overtaken(a, k))
    decreases |schedule|
  {
    if schedule != [] {
      var last := |schedule| - 1;
      var front, m := schedule[..last], schedule[last];
      assert schedule == front + [m];
      DisturbedIsOvertaken(front, k);
      forall i, j | 0 <= i < j < |schedule| && schedule[i] == k && schedule[j] != k
        ensures Disturbed(front, k) || (k in front && m != k)
      {
        assert front[i] == k;
        if j < last { assert front[j] == schedule[j]; }
      }
    }
  }

  /** Another stream is pulled after this one. */
  ghost predicate Disturbed(schedule: seq<nat>, k: nat) {
    exists i, j | 0 <= i < j < |schedule| :: schedule[i] == k && schedule[j] != k
  }

  /** What a stream has been given only grows, and its call stays. */
  lemma {:induction false} GivenGrows(factory: Factory, schedule: seq<nat>, t: nat, k: nat)
    requires t <= |schedule| && k in After(factory, schedule[..t]).calls
    ensures
      var before, after := After(factory, schedule[..t]), After(factory, schedule);
      YieldsOf(before, k) <= YieldsOf(after, k) && CallOf(before, k) == CallOf(after, k) && k in after.calls
    decreases |schedule|
  {
    if t < |schedule| {
      assert schedule[..|schedule| - 1][..t] == schedule[..t];
      GivenGrows(factory, schedule[..|schedule| - 1], t, k);
    } else {
      assert schedule[..t] == schedule;
    }
  }

  lemma AfterOneMore(factory: Factory, schedule: seq<nat>, t: nat)
    requires t < |schedule|
    ensures After(factory, schedule[..t + 1]) == PullOf(factory, After(factory, schedule[..t]), schedule[t])
  {
    var next := schedule[..t + 1];
    assert next[..|next| - 1] == schedule[..t] && next[|next| - 1] == schedule[t];
  }

  /** What a stream under way takes at its next pull. */
  lemma NextTaken(name: (nat, nat) -> nat, length: nat, s: System, a: Progress, k: nat)
    requires Follows(name, length, s, a) && a.pos < length && k in a.own
    ensures
      var s' := PullOf(Naming(name, length), s, k);
      && k in s'.calls && CallOf(s', k) == a.own[k].0 && |YieldsOf(s', k)| == a.own[k].1 + 1
      && a.calls > 0 && YieldsOf(s', k)[a.own[k].1] == Good(name(a.calls - 1, a.pos))
  {
    PullFollows(name, length, s, a, k);
  }

  lemma NamedExpected(name: (nat, nat) -> nat, length: nat, call: nat, n: nat)
    requires n < length
    ensures
      var due := ExpectedOf(Naming(name, length)(call));
      n < |due| && due[n] == Good(name(call, n))
  {
    ExpectedAt(Named(name, length, call), n);
  }

  /** A stream under way that takes a batch of another name than its own is wrong from then on. */
  lemma TookAnother(schedule: seq<nat>, t: nat, k: nat, name: (nat, nat) -> nat, a: Progress)
    requires t < |schedule| && schedule[t] == k && a == Trace(schedule[..t]) && k in a.own && a.calls > 0
    requires name(a.calls - 1, a.pos) != name(a.own[k].0, a.own[k].1)
    ensures !Right(Naming(name, |schedule| + 1), schedule, k)
  {
    var length := |schedule| + 1;
    TakenAt(schedule, t, k, name, length, a);
    NotTooFar(schedule[..t], k);
    NamedExpected(name, length, a.own[k].0, a.own[k].1);
    StaysWrong(Naming(name, length), schedule, t + 1, k);
  }

  lemma TakenAt(schedule: seq<nat>, t: nat, k: nat, name: (nat, nat) -> nat, length: nat, a: Progress)
    requires t < |schedule| < length && schedule[t] == k && a == Trace(schedule[..t]) && k in a.own
    ensures
      var s := After(Naming(name, length), schedule[..t + 1]);
      && k in s.calls && CallOf(s, k) == a.own[k].0 && |YieldsOf(s, k)| == a.own[k].1 + 1
      && a.calls > 0 && YieldsOf(s, k)[a.own[k].1] == Good(name(a.calls - 1, a.pos))
  {
    RunFollows(name, length, schedule[..t]);
    NextTaken(name, length, After(Naming(name, length), schedule[..t]), a, k);
    AfterOneMore(Naming(name, length), schedule, t);
  }

  /** A stream that has gone wrong is not made good by what comes later. */
  lemma StaysWrong(factory: Factory, schedule: seq<nat>, t: nat, k: nat)
    requires t <= |schedule| && k in After(factory, schedule[..t]).calls
    requires !RightIn(factory, After(factory, schedule[..t]), k)
    ensures !Right(factory, schedule, k)
  {
    var before, after := After(factory, schedule[..t]), After(factory, schedule);
    GivenGrows(factory, schedule, t, k);
    if YieldsOf(before, k) <= ExpectedOf(factory(CallOf(before, k))) { EndedStays(factory, schedule, t, k); }
  }

  /** Nothing is given to a stream that has ended. */
  lemma {:induction false} EndedStays(factory: Factory, schedule: seq<nat>, t: nat, k: nat)
    requires t <= |schedule| && StreamOf(After(factory, schedule[..t]), k).ended
    ensures
      var before, after := After(factory, schedule[..t]), After(factory, schedule);
      StreamOf(after, k).ended && YieldsOf(after, k) == YieldsOf(before, k)
    decreases |schedule|
  {
    if t < |schedule| {
      var front, m := schedule[..|schedule| - 1], schedule[|schedule| - 1];
      assert front[..t] == schedule[..t];
      EndedStays(factory, front, t, k);
      if m != k { OtherPull(factory, After(factory, front), k, m); }
    } else {
      assert schedule[..t] == schedule;
    }
  }

  lemma {:induction false} NotTooFar(schedule: seq<nat>, k: nat)
    requires k in Trace(schedule).own
    ensures Trace(schedule).own[k].1 <= |schedule|
    decreases |schedule|
  {
    if schedule != [] && k in Trace(schedule[..|schedule| - 1]).own { NotTooFar(schedule[..|schedule| - 1], k); }
  }

  /**
   * A schedule of pulls gives a stream the right batches, whatever the factory gives, if and only if
   * no other stream is pulled between two pulls of this one.
   */
  lemma SafeExactlyAlone(schedule: seq<nat>, k: nat)
    ensures (forall factory :: Right(factory, schedule, k)) <==> Alone(schedule, k)
  {
    if Alone(schedule, k) {
      forall factory ensures Right(factory, schedule, k) { AloneIsInStep(factory, schedule, k); }
    } else {
      var a, b, t :| 0 <= a < b < t < |schedule| && schedule[a] == k && schedule[t] == k && schedule[b] != k;
      var before := schedule[..t];
      assert before[a] == k && before[b] != k;
      DisturbedIsOvertaken(before, k);
      var p := Trace(before);
      if p.own[k].0 + 1 < p.calls {
        TookAnother(schedule, t, k, (call, _) => call, p);
      } else {
        TookAnother(schedule, t, k, (_, pos) => pos, p);
      }
    }
  }

  // ---------------------------------------------------------------- repeatable factories

  /** Where the iterator stands, how much each stream has been given, and which streams have ended. */
  datatype Standing = Standing(pos: nat, given: map<nat, nat>, done: set<nat>)

  /** Where the next pull of a stream reads. */
  function ReadsAt(a: Standing, m: nat): nat {
    if m in a.given then a.pos else 0
  }

  /** A pull over a source that gives the same number of batches in each call. */
  function Move(a: Standing, m: nat, length: nat): Standing {
    if m in a.done then a
    else
      var count := if m in a.given then a.given[m] else 0;
      if ReadsAt(a, m) < length then Standing(ReadsAt(a, m) + 1, a.given[m := count + 1], a.done)
      else Standing(0, a.given[m := count], a.done + {m})
  }

  function StandingAfter(schedule: seq<nat>, length: nat): Standing {
    if schedule == [] then Standing(0, map[], {})
    else Move(StandingAfter(schedule[..|schedule| - 1], length), schedule[|schedule| - 1], length)
  }

  /** A stream that is under way is where the iterator stands. */
  predicate InPlaceAt(a: Standing, k: nat) {
    k in a.given && k !in a.done ==> a.given[k] == a.pos
  }

  /** At every pull of a stream the iterator stands where the stream is, if not in the same call. */
  predicate InPlace(schedule: seq<nat>, k: nat, length: nat) {
    forall t | 0 <= t < |schedule| && schedule[t] == k :: InPlaceAt(StandingAfter(schedule[..t], length), k)
  }

  ghost predicate AllBatches(items: seq<Item>) {
    forall i | 0 <= i < |items| :: items[i].Batch?
  }

  /** A source whose calls all give the same. */
  function Repeating(items: seq<Item>): Factory {
    (_: nat) => Some(items)
  }

  ghost predicate Stands(items: seq<Item>, s: System, a: Standing) {
    && s.streams.Keys == s.given.Keys == s.calls.Keys == a.given.Keys
    && a.done <= a.given.Keys && IterStands(items, s.closure.iter, a.pos)
    && forall k | k in a.given :: StreamStands(s.streams[k], k in a.done) && |s.given[k]| == a.given[k]
  }

  predicate IterStands(items: seq<Item>, iter: Option<Cursor>, pos: nat) {
    pos <= |items| && if iter.None? then pos == 0 else iter.value == Cursor(items, pos)
  }

  predicate StreamStands(st: Stream, ended: bool) {
    if ended then st.ended else UnderWay(st)
  }

  lemma PullYields(items: seq<Item>, s: System, a: Standing, m: nat)
    requires AllBatches(items) && Stands(items, s, a)
    ensures
      YieldsOf(PullOf(Repeating(items), s, m), m) ==
      YieldsOf(s, m) + (if m in a.done || ReadsAt(a, m) == |items| then [] else [Good(items[ReadsAt(a, m)].id)])
  {
    if m !in a.done { PollStands(items, s.closure, StreamOf(s, m), ReadsAt(a, m)); }
  }

  /** The system when one stream and the iterator have moved. */
  lemma MovedStands(items: seq<Item>, s: System, a: Standing, m: nat, s': System)
    requires Stands(items, s, a) && m !in a.done && m in s'.streams && m in s'.given
    requires s'.streams == s.streams[m := s'.streams[m]] && s'.given == s.given[m := s'.given[m]]
    requires s'.calls.Keys == s.calls.Keys + {m}
    requires IterStands(items, s'.closure.iter, Move(a, m, |items|).pos)
    requires StreamStands(s'.streams[m], m in Move(a, m, |items|).done)
    requires |s'.given[m]| == Move(a, m, |items|).given[m]
    ensures Stands(items, s', Move(a, m, |items|))
  {
  }

  lemma PullStands(items: seq<Item>, s: System, a: Standing, m: nat)
    requires AllBatches(items) && Stands(items, s, a)
    ensures Stands(items, PullOf(Repeating(items), s, m), Move(a, m, |items|))
  {
    if m !in a.done {
      PollStands(items, s.closure, StreamOf(s, m), ReadsAt(a, m));
      PullYields(items, s, a, m);
      MovedStands(items, s, a, m, PullOf(Repeating(items), s, m));
    }
  }

  /** One poll over such a source, by a new stream or with the iterator at a position. */
  lemma PollStands(items: seq<Item>, c: Closure, st: Stream, pos: nat)
    requires AllBatches(items) && (st == FRESH || UnderWay(st)) && pos <= |items|
    requires if st.isFirstPull || c.iter.None? then pos == 0 else c.iter.value == Cursor(items, pos)
    ensures
      var (c', st', y) := Poll(Repeating(items), c, st);
      if pos == |items| then c'.iter.None? && st'.ended && y.None?
      else c'.iter == Some(Cursor(items, pos + 1)) && UnderWay(st') && y == Some(Good(items[pos].id))
  {
  }

  lemma {:induction false} RunStands(items: seq<Item>, schedule: seq<nat>)
    requires AllBatches(items)
    ensures Stands(items, After(Repeating(items), schedule), StandingAfter(schedule, |items|))
    decreases |schedule|
  {
    if schedule != [] {
      var front, m := schedule[..|schedule| - 1], schedule[|schedule| - 1];
      RunStands(items, front);
      PullStands(items, After(Repeating(items), front), StandingAfter(front, |items|), m);
    }
  }

  /** A stream has the first batches of the source, all of them if it has ended. */
  ghost predicate HasFirst(items: seq<Item>, s: System, k: nat) {
    FirstOf(items, YieldsOf(s, k)) && (StreamOf(s, k).ended ==> |YieldsOf(s, k)| == |items|)
  }

  ghost predicate FirstOf(items: seq<Item>, ys: seq<Yield>) {
    |ys| <= |items| && forall n | 0 <= n < |ys| :: items[n].Batch? && ys[n] == Good(items[n].id)
  }

  lemma PullGivesNext(items: seq<Item>, s: System, a: Standing, k: nat, m: nat)
    requires AllBatches(items) && Stands(items, s, a) && (m == k ==> InPlaceAt(a, k))
    requires HasFirst(items, s, k)
    ensures HasFirst(items, PullOf(Repeating(items), s, m), k)
  {
    if m != k {
      OtherPull(Repeating(items), s, k, m);
    } else if k !in a.done {
      PullYields(items, s, a, k);
      PollStands(items, s.closure, StreamOf(s, k), ReadsAt(a, k));
      var s' := PullOf(Repeating(items), s, k);
      assert |YieldsOf(s, k)| == ReadsAt(a, k);
      assert FirstOf(items, YieldsOf(s', k));
    }
  }

  lemma {:induction false} InPlaceHasFirst(items: seq<Item>, schedule: seq<nat>, k: nat)
    requires AllBatches(items) && InPlace(schedule, k, |items|)
    ensures HasFirst(items, After(Repeating(items), schedule), k)
    decreases |schedule|
  {
    if schedule != [] {
      var front, m := schedule[..|schedule| - 1], schedule[|schedule| - 1];
      InPlaceBefore(schedule, k, |items|);
      InPlaceHasFirst(items, front, k);
      RunStands(items, front);
      PullGivesNext(items, After(Repeating(items), front), StandingAfter(front, |items|), k, m);
    }
  }

  lemma InPlaceBefore(schedule: seq<nat>, k: nat, length: nat)
    requires schedule != [] && InPlace(schedule, k, length)
    ensures
      var front := schedule[..|schedule| - 1];
      && InPlace(front, k, length)
      && (schedule[|schedule| - 1] == k ==> InPlaceAt(StandingAfter(front, length), k))
  {
    var front := schedule[..|schedule| - 1];
    forall t | 0 <= t < |front| && front[t] == k ensures InPlaceAt(StandingAfter(front[..t], length), k) {
      assert schedule[..t] == front[..t] && schedule[t] == k;
    }
  }

  lemma InPlaceIsRight(items: seq<Item>, schedule: seq<nat>, k: nat)
    requires AllBatches(items) && InPlace(schedule, k, |items|)
    ensures Right(Repeating(items), schedule, k)
  {
    var s := After(Repeating(items), schedule);
    InPlaceHasFirst(items, schedule, k);
    YieldedSoFar(items, YieldsOf(s, k), |YieldsOf(s, k)|);
    ExpectedAll(items);
  }

  /** The source with batches 0, 1, 2 and so on. */
  function Counting(length: nat): (items: seq<Item>)
    ensures |items| == length && forall i | 0 <= i < length :: items[i] == Batch(i)
  {
    seq(length, i requires 0 <= i < length => Batch(i))
  }

  /** A pull of a stream that is out of place goes wrong: another batch, one too many, or a false end. */
  lemma OutOfPlacePull(length: nat, s: System, a: Standing, k: nat)
    requires Stands(Counting(length), s, a) && !InPlaceAt(a, k)
    ensures k in PullOf(Repeating(Counting(length)), s, k).calls
    ensures !RightIn(Repeating(Counting(length)), PullOf(Repeating(Counting(length)), s, k), k)
  {
    var items := Counting(length);
    var s' := PullOf(Repeating(items), s, k);
    PullYields(items, s, a, k);
    PullStands(items, s, a, k);
    ExpectedAll(items);
    if a.pos < length && a.given[k] < length {
      ExpectedAt(items, a.given[k]);
      assert YieldsOf(s', k)[a.given[k]] == Good(a.pos);
    }
  }

  lemma OutOfPlaceIsWrong(length: nat, schedule: seq<nat>, k: nat)
    requires !InPlace(schedule, k, length)
    ensures !Right(Repeating(Counting(length)), schedule, k)
  {
    var t :| 0 <= t < |schedule| && schedule[t] == k && !InPlaceAt(StandingAfter(schedule[..t], length), k);
    var factory := Repeating(Counting(length));
    RunStands(Counting(length), schedule[..t]);
    OutOfPlacePull(length, After(factory, schedule[..t]), StandingAfter(schedule[..t], length), k);
    AfterOneMore(factory, schedule, t);
    StaysWrong(factory, schedule, t + 1, k);
  }

  /**
   * Over the sources that repeat the same number of batches in every call, a schedule is safe for a
   * stream if and only if, at each of its pulls, the iterator stands where the stream is.
   */
  lemma SafeExactlyInPlace(schedule: seq<nat>, k: nat, length: nat)
    ensures
      (forall items | |items| == length && AllBatches(items) :: Right(Repeating(items), schedule, k)) <==>
      InPlace(schedule, k, length)
  {
    if InPlace(schedule, k, length) {
      forall items | |items| == length && AllBatches(items) ensures Right(Repeating(items), schedule, k) {
        InPlaceIsRight(items, schedule, k);
      }
    } else {
      OutOfPlaceIsWrong(length, schedule, k);
      assert AllBatches(Counting(length));
    }
  }

  /** A pull of another stream can leave the iterator in place: a stream that is not alone loses nothing. */
  lemma InPlaceButNotAlone(length: nat)
    ensures InPlace([0, 1, 0], 0, length) && !Alone([0, 1, 0], 0)
  {
    var schedule: seq<nat> := [0, 1, 0];
    assert schedule[0] == 0 && schedule[1] == 1 && schedule[2] == 0;
    assert schedule[..0] == [] && schedule[..1] == [0] && schedule[..2] == [0, 1];
    assert [0, 1][..1] == [0] && [0][..0] == [];
    assert StandingAfter([0], length) == Move(StandingAfter([], length), 0, length);
    assert StandingAfter([0, 1], length) == Move(StandingAfter([0], length), 1, length);
  }

  /** Two streams in turn over a source that always gives batches 0, 1 and 2: the second misses batch 1. */
  lemma StolenBatch()
    ensures
      var factory := (call: nat) => Some([Batch(0), Batch(1), Batch(2)]);
      YieldsOf(After(factory, [0, 1, 0, 1]), 1) == [Good(0), Good(2)]
  {
    var factory := (call: nat) => Some([Batch(0), Batch(1), Batch(2)]);
    assert [0, 1, 0, 1][..3] == [0, 1, 0] && [0, 1, 0][..2] == [0, 1] && [0, 1][..1] == [0] && [0][..0] == [];
    var s1 := PullOf(factory, START, 0);
    var s2 := PullOf(factory, s1, 1);
    var s3 := PullOf(factory, s2, 0);
    assert After(factory, [0]) == s1;
    assert After(factory, [0, 1]) == s2;
    assert After(factory, [0, 1, 0]) == s3;
    assert s2.given[1] == [Good(0)] && s2.closure.iter == Some(Cursor([Batch(0), Batch(1), Batch(2)], 1));
    assert s3.given[1] == [Good(0)] && s3.closure.iter == Some(Cursor([Batch(0), Batch(1), Batch(2)], 2));
  }
}
