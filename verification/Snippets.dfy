/** `parse_snippets`: start and end markers are matched with a stack. */
module Snippets {
  import opened Values

  /** A line as the two marker patterns see it. */
  datatype Line = Start(name: string) | End(name: string) | Plain(text: string)

  // ---------------------------------------------------------------- nesting

  /** `lines[lo..hi]` is properly nested, with equal names at both ends of every pair. */
  ghost predicate Nested(lines: seq<Line>, lo: nat, hi: nat)
    requires lo <= hi <= |lines|
    decreases hi - lo
  {
    lo == hi || NestedFrom(lines, lo, hi)
  }

  ghost predicate NestedFrom(lines: seq<Line>, lo: nat, hi: nat)
    requires lo < hi <= |lines|
    decreases hi - lo, 0
  {
    match lines[lo]
    case Plain(_) => Nested(lines, lo + 1, hi)
    case Start(name) => exists m | lo < m < hi ::
      lines[m] == End(name) && Nested(lines, lo + 1, m) && Nested(lines, m + 1, hi)
    case End(_) => false
  }

  /** The markers at `s` and `e` belong together. */
  ghost predicate Pair(lines: seq<Line>, s: nat, e: nat) {
    s < e < |lines| && lines[s].Start? && lines[e] == End(lines[s].name) && Nested(lines, s + 1, e)
  }

  lemma {:induction false} NestedConcat(lines: seq<Line>, lo: nat, mid: nat, hi: nat)
    requires lo <= mid <= hi <= |lines| && Nested(lines, lo, mid) && Nested(lines, mid, hi)
    ensures Nested(lines, lo, hi)
    decreases mid - lo
  {
    if lo < mid {
      match lines[lo]
      case Plain(_) => NestedConcat(lines, lo + 1, mid, hi);
      case Start(name) =>
        var m :| lo < m < mid && lines[m] == End(name) && Nested(lines, lo + 1, m) && Nested(lines, m + 1, mid);
        NestedConcat(lines, m + 1, mid, hi);
        assert lines[m] == End(name) && Nested(lines, lo + 1, m) && Nested(lines, m + 1, hi);
    }
  }

  // ---------------------------------------------------------------- the stack

  datatype Open = Open(name: string, index: nat)

  /** The stack after the first `i` lines; `None` after an end marker that does not match. */
  function Stack(lines: seq<Line>, i: nat): Option<seq<Open>>
    requires i <= |lines|
  {
    if i == 0 then Some([])
    else match Stack(lines, i - 1)
      case None => None
      case Some(stack) => Push(stack, lines[i - 1], i - 1)
  }

  function Push(stack: seq<Open>, line: Line, index: nat): Option<seq<Open>> {
    match line
    case Plain(_) => Some(stack)
    case Start(name) => Some(stack + [Open(name, index)])
    case End(name) =>
      if stack == [] || Top(stack).name != name then None else Some(stack[..|stack| - 1])
  }

  function Top(stack: seq<Open>): Open
    requires stack != []
  {
    stack[|stack| - 1]
  }

  lemma {:induction false} StackFails(lines: seq<Line>, i: nat, j: nat)
    requires i <= j <= |lines| && Stack(lines, i).None?
    ensures Stack(lines, j).None?
    decreases j
  {
    if i < j { StackFails(lines, i, j - 1); }
  }

  /** Nested lines leave the stack as it was. */
  lemma {:induction false} NestedKeepsStack(lines: seq<Line>, lo: nat, hi: nat)
    requires lo <= hi <= |lines| && Nested(lines, lo, hi) && Stack(lines, lo).Some?
    ensures Stack(lines, hi) == Stack(lines, lo)
    decreases hi - lo
  {
    if lo < hi {
      match lines[lo]
      case Plain(_) => NestedKeepsStack(lines, lo + 1, hi);
      case Start(name) =>
        var m :| lo < m < hi && lines[m] == End(name) && Nested(lines, lo + 1, m) && Nested(lines, m + 1, hi);
        var st := Stack(lines, lo).value;
        NestedKeepsStack(lines, lo + 1, m);
        assert (st + [Open(name, lo)])[..|st|] == st;
        NestedKeepsStack(lines, m + 1, hi);
    }
  }

  /** Where the `k`-th open snippet begins and the stretch after it ends. */
  function Left(stack: seq<Open>, k: nat): nat
    requires k <= |stack|
  {
    if k == 0 then 0 else stack[k - 1].index + 1
  }

  function Right(stack: seq<Open>, k: nat, i: nat): nat
    requires k <= |stack|
  {
    if k == |stack| then i else stack[k].index
  }

  /** The open markers are where the stack says, and everything between them is nested. */
  ghost predicate Gaps(lines: seq<Line>, stack: seq<Open>, i: nat)
    requires i <= |lines|
  {
    && (forall k | 0 <= k < |stack| :: stack[k].index < i && lines[stack[k].index] == Start(stack[k].name))
    && (forall k | 0 <= k <= |stack| ::
      Left(stack, k) <= Right(stack, k, i) && Nested(lines, Left(stack, k), Right(stack, k, i)))
  }

  lemma {:induction false} StackGaps(lines: seq<Line>, i: nat)
    requires i <= |lines| && Stack(lines, i).Some?
    ensures Gaps(lines, Stack(lines, i).value, i)
    decreases i
  {
    if i == 0 {
    } else {
      StackGaps(lines, i - 1);
      GapsStep(lines, Stack(lines, i - 1).value, i - 1);
    }
  }

  lemma NestedSnoc(lines: seq<Line>, lo: nat, hi: nat)
    requires lo <= hi < |lines| && Nested(lines, lo, hi) && lines[hi].Plain?
    ensures Nested(lines, lo, hi + 1)
  {
    assert Nested(lines, hi, hi + 1) by { assert Nested(lines, hi + 1, hi + 1); }
    NestedConcat(lines, lo, hi, hi + 1);
  }

  /** A closed pair with what is before it. */
  lemma NestedClose(lines: seq<Line>, lo: nat, s: nat, e: nat)
    requires lo <= s < e < |lines| && Nested(lines, lo, s) && Pair(lines, s, e)
    ensures Nested(lines, lo, e + 1)
  {
    assert Nested(lines, e + 1, e + 1);
    assert NestedFrom(lines, s, e + 1);
    NestedConcat(lines, lo, s, e + 1);
  }

  lemma GapsStep(lines: seq<Line>, stack: seq<Open>, i: nat)
    requires i < |lines| && Gaps(lines, stack, i) && Push(stack, lines[i], i).Some?
    ensures Gaps(lines, Push(stack, lines[i], i).value, i + 1)
  {
    var next := Push(stack, lines[i], i).value;
    var top := |stack|;
    assert Nested(lines, Left(stack, top), Right(stack, top, i));
    match lines[i]
    case Plain(_) =>
      NestedSnoc(lines, Left(stack, top), i);
      forall k | 0 <= k <= |next|
        ensures Left(next, k) <= Right(next, k, i + 1) && Nested(lines, Left(next, k), Right(next, k, i + 1))
      {
        if k < top { assert Nested(lines, Left(stack, k), Right(stack, k, i)); }
      }
    case Start(name) =>
      assert Nested(lines, i + 1, i + 1);
      forall k | 0 <= k <= |next|
        ensures Left(next, k) <= Right(next, k, i + 1) && Nested(lines, Left(next, k), Right(next, k, i + 1))
      {
        if k <= top {
          assert Nested(lines, Left(stack, k), Right(stack, k, i));
          assert Left(next, k) == Left(stack, k) && Right(next, k, i + 1) == Right(stack, k, i);
        }
      }
    case End(name) =>
      var s := stack[top - 1].index;
      assert Nested(lines, Left(stack, top - 1), Right(stack, top - 1, i));
      assert Pair(lines, s, i);
      NestedClose(lines, Left(stack, top - 1), s, i);
      forall k | 0 <= k <= |next|
        ensures Left(next, k) <= Right(next, k, i + 1) && Nested(lines, Left(next, k), Right(next, k, i + 1))
      {
        if k < top - 1 {
          assert Nested(lines, Left(stack, k), Right(stack, k, i));
        }
      }
  }

  /** Markers match exactly when the whole file is properly nested. */
  lemma MatchedIsNested(lines: seq<Line>)
    ensures Stack(lines, |lines|) == Some([]) <==> Nested(lines, 0, |lines|)
  {
    if Stack(lines, |lines|) == Some([]) {
      StackGaps(lines, |lines|);
      assert Nested(lines, Left([], 0), Right([], 0, |lines|));
    }
    if Nested(lines, 0, |lines|) { NestedKeepsStack(lines, 0, |lines|); }
  }

  // ---------------------------------------------------------------- the snippets

  /** Some line before `i` ends a snippet of that name. */
  ghost predicate Ended(lines: seq<Line>, i: nat, name: string)
    requires i <= |lines|
  {
    End(name) in lines[..i]
  }

  /** `s` and `e` are the last pair of that name closed before `i`. */
  ghost predicate LastPair(lines: seq<Line>, i: nat, name: string, s: nat, e: nat)
    requires i <= |lines|
  {
    e < i && Pair(lines, s, e) && lines[e] == End(name) && End(name) !in lines[e + 1..i]
  }

  /** The lines strictly between the last pair of a name. */
  ghost predicate LastBody(lines: seq<Line>, i: nat, name: string, body: seq<Line>)
    requires i <= |lines|
  {
    exists s: nat, e: nat :: LastPair(lines, i, name, s, e) && body == lines[s + 1..e]
  }

  /** What has been stored after `i` lines. */
  ghost predicate Stored(lines: seq<Line>, i: nat, snippets: map<string, seq<Line>>)
    requires i <= |lines|
  {
    && (forall name :: name in snippets <==> Ended(lines, i, name))
    && (forall name | name in snippets :: LastBody(lines, i, name, snippets[name]))
  }

  /** In a file without mismatches an end marker has one partner. */
  lemma PartnerIsUnique(lines: seq<Line>, s: nat, t: nat, e: nat)
    requires Pair(lines, s, e) && Pair(lines, t, e) && Stack(lines, e).Some?
    ensures s == t
  {
    PartnerIsTop(lines, s, e);
    PartnerIsTop(lines, t, e);
  }

  lemma PartnerIsTop(lines: seq<Line>, s: nat, e: nat)
    requires Pair(lines, s, e) && Stack(lines, e).Some?
    ensures Stack(lines, e).value != [] && Top(Stack(lines, e).value) == Open(lines[s].name, s)
  {
    if Stack(lines, s + 1).None? { StackFails(lines, s + 1, e); }
    NestedKeepsStack(lines, s + 1, e);
  }

  lemma StillEnded(lines: seq<Line>, i: nat, name: string)
    requires i < |lines|
    ensures Ended(lines, i + 1, name) <==> Ended(lines, i, name) || lines[i] == End(name)
  {
    assert lines[..i + 1] == lines[..i] + [lines[i]];
  }

  lemma StillLast(lines: seq<Line>, i: nat, name: string, body: seq<Line>)
    requires i < |lines| && LastBody(lines, i, name, body) && lines[i] != End(name)
    ensures LastBody(lines, i + 1, name, body)
  {
    var s: nat, e: nat :| LastPair(lines, i, name, s, e) && body == lines[s + 1..e];
    assert lines[e + 1..i + 1] == lines[e + 1..i] + [lines[i]];
    assert LastPair(lines, i + 1, name, s, e);
  }

  /** The top of the stack and a matching end marker are a pair. */
  lemma TopIsPartner(lines: seq<Line>, i: nat)
    requires i < |lines| && Stack(lines, i).Some? && lines[i].End? && Stack(lines, i + 1).Some?
    ensures Stack(lines, i).value != [] && Pair(lines, Top(Stack(lines, i).value).index, i)
  {
    var stack := Stack(lines, i).value;
    StackGaps(lines, i);
    assert Nested(lines, Left(stack, |stack|), Right(stack, |stack|, i));
  }

  lemma StoredAfterOther(lines: seq<Line>, i: nat, snippets: map<string, seq<Line>>)
    requires i < |lines| && Stored(lines, i, snippets) && !lines[i].End?
    ensures Stored(lines, i + 1, snippets)
  {
    forall name ensures name in snippets <==> Ended(lines, i + 1, name) { StillEnded(lines, i, name); }
    forall name | name in snippets ensures LastBody(lines, i + 1, name, snippets[name]) {
      StillLast(lines, i, name, snippets[name]);
    }
  }

  lemma StoredAfterEnd(lines: seq<Line>, i: nat, s: nat, snippets: map<string, seq<Line>>)
    requires i < |lines| && Stored(lines, i, snippets) && Pair(lines, s, i)
    ensures Stored(lines, i + 1, snippets[lines[i].name := lines[s + 1..i]])
  {
    var more := snippets[lines[i].name := lines[s + 1..i]];
    forall name ensures name in more <==> Ended(lines, i + 1, name) { StillEnded(lines, i, name); }
    forall name | name in more ensures LastBody(lines, i + 1, name, more[name]) {
      if name == lines[i].name {
        assert LastPair(lines, i + 1, name, s, i);
      } else {
        StillLast(lines, i, name, snippets[name]);
      }
    }
  }

  /** An end marker that does not match the top of the stack rules out every nesting. */
  lemma MismatchIsNotNested(lines: seq<Line>, i: nat)
    requires i < |lines| && Stack(lines, i + 1).None?
    ensures !Nested(lines, 0, |lines|)
  {
    StackFails(lines, i + 1, |lines|);
    MatchedIsNested(lines);
  }

  /** What one line does to the stack and the stored snippets. */
  lemma LineStep(lines: seq<Line>, i: nat, stack: seq<Open>, snippets: map<string, seq<Line>>)
    requires i < |lines| && Stack(lines, i) == Some(stack) && Stored(lines, i, snippets)
    ensures Stack(lines, i + 1) == Push(stack, lines[i], i)
    ensures !lines[i].End? ==> Stored(lines, i + 1, snippets)
    ensures lines[i].End? && Push(stack, lines[i], i).Some? ==>
              && Top(stack).index < i
              && Stored(lines, i + 1, snippets[lines[i].name := lines[Top(stack).index + 1..i]])
  {
    if !lines[i].End? {
      StoredAfterOther(lines, i, snippets);
    } else if Push(stack, lines[i], i).Some? {
      TopIsPartner(lines, i);
      StoredAfterEnd(lines, i, Top(stack).index, snippets);
    }
  }

  /**
   * `parse_snippets`. It succeeds exactly on properly nested files, and stores for each name the
   * lines between the last-closed pair of that name.
   */
  method ParseSnippets(lines: seq<Line>) returns (r: Result<map<string, seq<Line>>>)
    ensures r.Ok? <==> Nested(lines, 0, |lines|)
    ensures r.Ok? ==> Stored(lines, |lines|, r.value)
  {
    var snippets: map<string, seq<Line>> := map[];
    var stack: seq<Open> := [];
    var i := 0;
    while i < |lines|
      invariant 0 <= i <= |lines|
      invariant Stack(lines, i) == Some(stack) && Stored(lines, i, snippets)
    {
      LineStep(lines, i, stack, snippets);
      match lines[i] {
        case Start(name) =>
          stack := stack + [Open(name, i)];
        case End(name) =>
          if stack == [] || Top(stack).name != name {
            MismatchIsNotNested(lines, i);
            return Err;
          }
          snippets := snippets[name := lines[Top(stack).index + 1..i]];
          stack := stack[..|stack| - 1];
        case Plain(_) =>
      }
      i := i + 1;
    }
    MatchedIsNested(lines);
    return if stack != [] then Err else Ok(snippets);
  }
}
