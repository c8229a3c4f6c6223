/**
 * A scan split between two sides: a JavaScript closure that keeps an iterator, and a Rust stream
 * that pulls batches through it. Scans follow one another and may end early, fail or drain; one
 * stream is pulled at a time.
 */
module ScanProtocol {
  import opened Values

  /** What an iterator gives: a batch, a batch the Rust side cannot decode, or an exception. */
  datatype Item = Batch(id: nat) | Undecodable(id: nat) | Throws

  /** The outcome of each call of the factory; `None` if it throws or returns nothing iterable. */
  type Factory = nat -> Option<seq<Item>>

  /** An iterator: what it gives and how far it is. */
  datatype Cursor = Cursor(items: seq<Item>, pos: nat)

  /** The closure of `fromFactory`: the cached iterator and how often the factory was called. */
  datatype Closure = Closure(iter: Option<Cursor>, calls: nat)

  datatype Pulled = Message(item: Item) | Eof | Rejected

  /** `getNextBatch(isStart)`. */
  function GetNextBatch(factory: Factory, c: Closure, isStart: bool): (Closure, Pulled) {
    var iter := if isStart then None else c.iter;
    if iter.None? && factory(c.calls).None? then
      (Closure(None, c.calls + 1), Rejected)
    else
      var calls := if iter.None? then c.calls + 1 else c.calls;
      var cursor := if iter.None? then Cursor(factory(c.calls).value, 0) else iter.value;
      if cursor.pos >= |cursor.items| then (Closure(None, calls), Eof)
      else
        var item := cursor.items[cursor.pos];
        var next := Closure(Some(Cursor(cursor.items, cursor.pos + 1)), calls);
        (next, if item.Throws? then Rejected else Message(item))
  }

  /** What a stream hands to its consumer. */
  datatype Yield = Good(id: nat) | Error

  /** The unfold state of a stream. A refused stream belongs to a source already consumed. */
  datatype Stream = Stream(refused: bool, isFirstPull: bool, errored: bool, batchIndex: nat, ended: bool)

  const FRESH := Stream(false, true, false, 0, false)
  const REFUSED := Stream(true, true, false, 0, false)

  /** One poll of a stream that has not ended; `None` ends it. */
  function Poll(factory: Factory, c: Closure, st: Stream): (Closure, Stream, Option<Yield>)
    requires !st.ended
  {
    if st.refused then
      if st.isFirstPull then (c, st.(isFirstPull := false), Some(Error)) else (c, st.(ended := true), None)
    else if st.errored then (c, st.(ended := true), None)
    else
      var (c', pulled) := GetNextBatch(factory, c, st.isFirstPull);
      var st' := st.(isFirstPull := false);
      match pulled
      case Eof => (c', st'.(ended := true), None)
      case Rejected => (c', st'.(errored := true), Some(Error))
      case Message(Batch(id)) => (c', st'.(batchIndex := st.batchIndex + 1), Some(Good(id)))
      case Message(_) => (c', st'.(errored := true), Some(Error))
  }

  // ---------------------------------------------------------------- the whole system

  /**
   * `yielded` is what the current stream has handed out; `call` is the factory call it reads
   * from; `starts` counts the pulls with `isStart` set.
   */
  datatype State = State(
    rescannable: bool, scanned: bool, closure: Closure, stream: Option<Stream>,
    yielded: seq<Yield>, call: nat, starts: nat)

  datatype Step = Scan | Pull

  predicate Init(s: State) {
    !s.scanned && s.closure == Closure(None, 0) && s.stream.None? && s.starts == 0
  }

  /** A scan may begin at any time, dropping the stream before it; a pull needs a stream that has not ended. */
  predicate Enabled(s: State, step: Step) {
    step.Pull? ==> s.stream.Some? && !s.stream.value.ended
  }

  function Next(factory: Factory, s: State, step: Step): State
    requires Enabled(s, step)
  {
    match step
    case Scan =>
      if s.scanned && !s.rescannable then s.(stream := Some(REFUSED), yielded := [], call := s.closure.calls)
      else s.(scanned := true, stream := Some(FRESH), yielded := [], call := s.closure.calls)
    case Pull =>
      var (c, st, y) := Poll(factory, s.closure, s.stream.value);
      var start := s.stream.value.isFirstPull && !s.stream.value.refused;
      s.(closure := c, stream := Some(st),
         yielded := if y.Some? then s.yielded + [y.value] else s.yielded,
         starts := if start then s.starts + 1 else s.starts)
  }

  ghost predicate Run(factory: Factory, states: seq<State>, steps: seq<Step>) {
    && |states| == |steps| + 1 && Init(states[0])
    && forall i | 0 <= i < |steps| ::
         Enabled(states[i], steps[i]) && states[i + 1] == Next(factory, states[i], steps[i])
  }

  // ---------------------------------------------------------------- what a scan should give

  /** The batches from batch 0, up to the first that fails. */
  function Expected(items: seq<Item>): (ys: seq<Yield>)
    ensures |ys| <= |items|
  {
    if items == [] then []
    else if items[0].Batch? then [Good(items[0].id)] + Expected(items[1..])
    else [Error]
  }

  function ExpectedOf(outcome: Option<seq<Item>>): seq<Yield> {
    if outcome.None? then [Error] else Expected(outcome.value)
  }

  /** A run of batches followed by at most one error. */
  predicate WellShaped(ys: seq<Yield>) {
    forall i | 0 <= i < |ys| - 1 :: ys[i].Good?
  }

  lemma {:induction false} ExpectedAt(items: seq<Item>, k: nat)
    requires k < |items| && forall i | 0 <= i < k :: items[i].Batch?
    ensures k < |Expected(items)|
    ensures items[k].Batch? ==> Expected(items)[k] == Good(items[k].id)
    ensures !items[k].Batch? ==> Expected(items)[k] == Error && |Expected(items)| == k + 1
    decreases k
  {
    if k > 0 { ExpectedAt(items[1..], k - 1); }
  }

  lemma {:induction false} ExpectedAll(items: seq<Item>)
    requires forall i | 0 <= i < |items| :: items[i].Batch?
    ensures |Expected(items)| == |items|
    decreases |items|
  {
    if items != [] { ExpectedAll(items[1..]); }
  }

  lemma ExpectedShape(outcome: Option<seq<Item>>)
    ensures WellShaped(ExpectedOf(outcome))
  {
    if outcome.Some? { ExpectedItemsShape(outcome.value); }
  }

  lemma {:induction false} ExpectedItemsShape(items: seq<Item>)
    ensures WellShaped(Expected(items))
    decreases |items|
  {
    if items != [] && items[0].Batch? {
      ExpectedItemsShape(items[1..]);
      var rest := Expected(items[1..]);
      forall i | 0 <= i < |rest| ensures ([Good(items[0].id)] + rest)[i + 1] == rest[i] {}
    }
  }

  // ---------------------------------------------------------------- the invariant

  /** How the two sides stand to each other while a stream is under way. */
  ghost predicate StreamInv(factory: Factory, s: State, st: Stream) {
    if st.refused then
      s.yielded == (if st.isFirstPull then [] else [Error]) && (st.ended ==> !st.isFirstPull)
    else
      && (st.isFirstPull ==>
        s.yielded == [] && !st.errored && !st.ended && s.call == s.closure.calls && st.batchIndex == 0)
      && (!st.isFirstPull ==> s.call + 1 == s.closure.calls)
      && (st.errored || st.ended ==> !st.isFirstPull && s.yielded == ExpectedOf(factory(s.call)))
      && (!st.isFirstPull && !st.errored && !st.ended ==>
            && factory(s.call).Some?
            && |s.yielded| <= |factory(s.call).value|
            && s.closure.iter == Some(Cursor(factory(s.call).value, |s.yielded|))
            && (forall k | 0 <= k < |s.yielded| ::
              factory(s.call).value[k].Batch? && s.yielded[k] == Good(factory(s.call).value[k].id))
            && st.batchIndex == |s.yielded|)
  }

  ghost predicate Inv(factory: Factory, s: State) {
    && (s.stream.Some? ==> s.scanned && StreamInv(factory, s, s.stream.value))
    && (!s.scanned ==> s.stream.None? && s.starts == 0)
    && (s.stream.Some? && !s.stream.value.refused && s.stream.value.isFirstPull && !s.rescannable ==> s.starts == 0)
    && (s.stream.Some? && s.stream.value.refused ==> !s.rescannable)
    && (!s.rescannable ==> s.starts <= 1)
    && s.closure.calls == s.starts
  }

  lemma PullKeepsInv(factory: Factory, s: State)
    requires Inv(factory, s) && Enabled(s, Pull)
    ensures Inv(factory, Next(factory, s, Pull))
  {
    var st := s.stream.value;
    if !st.refused && !st.errored {
      if factory(s.call).None? {
        assert st.isFirstPull;
      } else if |s.yielded| < |factory(s.call).value| {
        PullOfItem(factory, s);
      } else {
        PullOfNothing(factory, s);
      }
    }
  }

  /** A pull that finds an item; the first pull of a scan asks the factory again and finds item 0. */
  lemma PullOfItem(factory: Factory, s: State)
    requires Inv(factory, s) && Enabled(s, Pull) && !s.stream.value.refused && !s.stream.value.errored
    requires factory(s.call).Some? && |s.yielded| < |factory(s.call).value|
    ensures Inv(factory, Next(factory, s, Pull))
  {
    var items, k := factory(s.call).value, |s.yielded|;
    ExpectedAt(items, k);
    YieldedSoFar(items, s.yielded, k);
    var (c, pulled) := GetNextBatch(factory, s.closure, s.stream.value.isFirstPull);
    assert c == Closure(Some(Cursor(items, k + 1)), s.call + 1);
    assert pulled == if items[k].Throws? then Rejected else Message(items[k]);
  }

  /** A pull at the end of the iterator. */
  lemma PullOfNothing(factory: Factory, s: State)
    requires Inv(factory, s) && Enabled(s, Pull) && !s.stream.value.refused && !s.stream.value.errored
    requires factory(s.call).Some? && |s.yielded| >= |factory(s.call).value|
    ensures Inv(factory, Next(factory, s, Pull))
  {
    var items := factory(s.call).value;
    ExpectedAll(items);
    YieldedSoFar(items, s.yielded, |s.yielded|);
    assert GetNextBatch(factory, s.closure, s.stream.value.isFirstPull) == (Closure(None, s.call + 1), Eof);
  }

  /** Batches handed out so far are the first ones expected. */
  lemma {:induction false} YieldedSoFar(items: seq<Item>, yielded: seq<Yield>, k: nat)
    requires k == |yielded| <= |items|
    requires forall i | 0 <= i < k :: items[i].Batch? && yielded[i] == Good(items[i].id)
    ensures k <= |Expected(items)| && Expected(items)[..k] == yielded
    decreases k
  {
    if k > 0 {
      YieldedSoFar(items, yielded[..k - 1], k - 1);
      ExpectedAt(items, k - 1);
    }
  }

  lemma StepKeepsInv(factory: Factory, s: State, step: Step)
    requires Inv(factory, s) && Enabled(s, step)
    ensures Inv(factory, Next(factory, s, step))
  {
    if step.Pull? { PullKeepsInv(factory, s); }
  }

  lemma {:induction false} RunKeepsInv(factory: Factory, states: seq<State>, steps: seq<Step>, i: nat)
    requires Run(factory, states, steps) && i < |states|
    ensures Inv(factory, states[i])
    decreases i
  {
    if i > 0 {
      RunKeepsInv(factory, states, steps, i - 1);
      StepKeepsInv(factory, states[i - 1], steps[i - 1]);
    }
  }

  // ---------------------------------------------------------------- what every scan gives

  /** What the stream under way should give in all. */
  ghost function Due(factory: Factory, s: State): seq<Yield>
    requires s.stream.Some?
  {
    if s.stream.value.refused then [Error] else ExpectedOf(factory(s.call))
  }

  /**
   * However earlier scans ended, the current one hands out the batches of its own factory call
   * from batch 0 in order, all of them once it has ended, and then at most one error.
   */
  lemma EveryScanStartsAtZero(factory: Factory, states: seq<State>, steps: seq<Step>, i: nat)
    requires Run(factory, states, steps) && i < |states| && states[i].stream.Some?
    ensures states[i].yielded <= Due(factory, states[i])
    ensures states[i].stream.value.ended ==> states[i].yielded == Due(factory, states[i])
    ensures WellShaped(states[i].yielded)
  {
    RunKeepsInv(factory, states, steps, i);
    var s := states[i];
    var st := s.stream.value;
    if !st.refused {
      ExpectedShape(factory(s.call));
      if !st.isFirstPull && !st.errored && !st.ended { YieldedSoFar(factory(s.call).value, s.yielded, |s.yielded|); }
    }
  }

  /** With a repeatable factory every scan of a rescannable source gives the same batches. */
  lemma RescansRepeat(factory: Factory, states: seq<State>, steps: seq<Step>, i: nat, j: nat)
    requires Run(factory, states, steps) && i < |states| && j < |states|
    requires forall n: nat :: factory(n) == factory(0)
    requires states[0].rescannable
    requires states[i].stream.Some? && states[i].stream.value.ended
    requires states[j].stream.Some? && states[j].stream.value.ended
    ensures states[i].yielded == states[j].yielded == ExpectedOf(factory(0))
  {
    EveryScanStartsAtZero(factory, states, steps, i);
    EveryScanStartsAtZero(factory, states, steps, j);
    RunKeepsInv(factory, states, steps, i);
    RunKeepsInv(factory, states, steps, j);
    SameSource(factory, states, steps, i);
    SameSource(factory, states, steps, j);
    assert factory(states[i].call) == factory(0) && factory(states[j].call) == factory(0);
  }

  lemma {:induction false} SameSource(factory: Factory, states: seq<State>, steps: seq<Step>, i: nat)
    requires Run(factory, states, steps) && i < |states|
    ensures states[i].rescannable == states[0].rescannable
    decreases i
  {
    if i > 0 { SameSource(factory, states, steps, i - 1); }
  }

  /** A source that cannot be rescanned sees `isStart` at most once in its lifetime. */
  lemma OneShotStartsOnce(factory: Factory, states: seq<State>, steps: seq<Step>, i: nat)
    requires Run(factory, states, steps) && i < |states| && !states[0].rescannable
    ensures states[i].starts <= 1 && states[i].closure.calls <= 1
  {
    SameSource(factory, states, steps, i);
    RunKeepsInv(factory, states, steps, i);
  }

  /**
   * In every run, from a second scan of such a source on, every stream gives one error and ends, and
   * nothing calls into JavaScript any more.
   */
  lemma {:induction false} LaterScansAreRefused(factory: Factory, states: seq<State>, steps: seq<Step>, k: nat, j: nat)
    requires Run(factory, states, steps) && !states[0].rescannable
    requires k < j < |states| && steps[k] == Scan && states[k].scanned
    ensures states[j].closure == states[k].closure && states[j].starts == states[k].starts
    ensures states[j].stream.Some? && states[j].stream.value.refused
    ensures states[j].yielded == [] || states[j].yielded == [Error]
    ensures states[j].stream.value.ended ==> states[j].yielded == [Error]
    decreases j
  {
    var s, step := states[j - 1], steps[j - 1];
    assert Enabled(s, step) && states[j] == Next(factory, s, step);
    SameSource(factory, states, steps, j - 1);
    RunKeepsInv(factory, states, steps, j - 1);
    RunKeepsInv(factory, states, steps, j);
    if k < j - 1 { LaterScansAreRefused(factory, states, steps, k, j - 1); }
  }

  // ---------------------------------------------------------------- the two sides as they run

  /** The closure of `fromFactory`, over the variable it captures. */
  class JsSource {
    const factory: Factory
    var iter: Option<Cursor>
    var calls: nat

    function View(): Closure
      reads this
    {
      Closure(iter, calls)
    }

    constructor (factory: Factory)
      ensures this.factory == factory && View() == Closure(None, 0)
    {
      this.factory := factory;
      iter, calls := None, 0;
    }

    method Pull(isStart: bool) returns (r: Pulled)
      modifies this
      ensures (View(), r) == GetNextBatch(factory, old(View()), isStart)
    {
      if isStart {
        iter := None;
      }
      if iter.None? {
        var outcome := factory(calls);
        calls := calls + 1;
        if outcome.None? {
          return Rejected;
        }
        iter := Some(Cursor(outcome.value, 0));
      }
      var cursor := iter.value;
      if cursor.pos >= |cursor.items| {
        iter := None;
        return Eof;
      }
      iter := Some(Cursor(cursor.items, cursor.pos + 1));
      r := if cursor.items[cursor.pos].Throws? then Rejected else Message(cursor.items[cursor.pos]);
    }
  }

  /** The stream that `scan_as_stream` unfolds. */
  class RustStream {
    const source: JsSource
    const refused: bool
    var isFirstPull: bool
    var errored: bool
    var batchIndex: nat
    var ended: bool

    function View(): Stream
      reads this
    {
      Stream(refused, isFirstPull, errored, batchIndex, ended)
    }

    constructor (source: JsSource, refused: bool)
      ensures this.source == source && View() == if refused then REFUSED else FRESH
    {
      this.source, this.refused := source, refused;
      isFirstPull, errored, batchIndex, ended := true, false, 0, false;
    }

    method PollNext() returns (y: Option<Yield>)
      requires !ended
      modifies this, source
      ensures (source.View(), View(), y) == Poll(source.factory, old(source.View()), old(View()))
    {
      if refused && isFirstPull {
        isFirstPull := false;
        return Some(Error);
      }
      if refused || errored {
        ended := true;
        return None;
      }
      var isStart := isFirstPull;
      isFirstPull := false;
      var pulled := source.Pull(isStart);
      match pulled
      case Eof =>
        ended := true;
        return None;
      case Rejected =>
        errored := true;
        return Some(Error);
      case Message(item) =>
        if item.Batch? {
          batchIndex := batchIndex + 1;
          return Some(Good(item.id));
        }
        errored := true;
        return Some(Error);
    }
  }

  /** `NapiScannable`: remembers whether a scan has started. */
  class NapiScannable {
    const source: JsSource
    const rescannable: bool
    var scanned: bool

    constructor (source: JsSource, rescannable: bool)
      ensures this.source == source && this.rescannable == rescannable && !scanned
    {
      this.source, this.rescannable, scanned := source, rescannable, false;
    }

    /** `scan_as_stream`, tied to the `Scan` step of the system. */
    method ScanAsStream(ghost s: State, ghost factory: Factory) returns (stream: RustStream)
      requires s.rescannable == rescannable && s.scanned == scanned
      modifies this
      ensures fresh(stream) && stream.source == source
      ensures
        var s' := Next(factory, s, Scan);
        scanned == s'.scanned && Some(stream.View()) == s'.stream && source.View() == old(source.View())
    {
      if scanned && !rescannable {
        stream := new RustStream(source, true);
        return;
      }
      scanned := true;
      stream := new RustStream(source, false);
    }
  }
}
