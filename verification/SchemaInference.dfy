/**
 * Schema inference without a provided schema. The code folds `observe` over a mutable tree;
 * this module proves that the fold meets a specification that mentions only the set of
 * observations, so that its outcome cannot depend on their order.
 */
module SchemaInference {
  import opened Values
  import opened ArrowTypes
  import opened FieldTrees
  import opened TypeInference

  /** One call of `observe`; `id` is the dictionary counter at that moment. */
  datatype Obs = Obs(path: Path, value: Value, id: nat)

  predicate Proper(os: seq<Obs>) {
    forall o | o in os :: o.path != []
  }

  function TypeOf(opts: Options, o: Obs): Option<DataType>
    requires o.path != []
  {
    InferType(opts, o.value, o.path, o.id)
  }

  predicate Fits(opts: Options, o: Obs, t: DataType)
    requires o.path != []
  {
    Agrees(opts, o.value, o.path, o.id, t)
  }

  // ---------------------------------------------------------------- the code's fold

  /** `addField`: the first evidence at a path. */
  function AddField(opts: Options, n: Node, o: Obs): Result<Node>
    requires n.Branch? && o.path != []
  {
    var t := TypeOf(opts, o);
    if t.None? && !IsDeferred(o.value) then Err
    else
      var leaf := if t.Some? then Typed(t.value) else Deferred([o.value]);
      match Set(n, o.path, leaf, true)
      case None => Err
      case Some(m) => Ok(m)
  }

  /** `DeferredTypeEvidence.matches`. */
  predicate AllMatch(values: seq<Value>, t: DataType) {
    forall v | v in values :: DeferredMatches(v, t)
  }

  /** `resolveDeferredField`. It ignores the conflict that `set` could report. */
  function ResolveDeferred(opts: Options, n: Node, o: Obs, current: seq<Value>): Result<Node>
    requires n.Branch? && o.path != []
  {
    match TypeOf(opts, o)
    case Some(t) => if AllMatch(current, t) then Ok(SetOrKeep(n, o.path, Typed(t))) else Err
    case None => if IsDeferred(o.value) then Ok(SetOrKeep(n, o.path, Deferred(current + [o.value]))) else Err
  }

  function SetOrKeep(n: Node, path: Path, leaf: Leaf): Node
    requires n.Branch? && path != []
  {
    match Set(n, path, leaf, false)
    case None => n
    case Some(m) => m
  }

  /** `updateInferredField`. */
  function UpdateField(opts: Options, n: Node, o: Obs, current: Reading): Result<Node>
    requires n.Branch? && o.path != [] && !current.Absent?
  {
    match current
    case Inner => if IsNullish(o.value) then Ok(n) else Err
    case Evidence(Deferred(values)) => ResolveDeferred(opts, n, o, values)
    case Evidence(Typed(t)) => if Fits(opts, o, t) then Ok(n) else Err
  }

  /** `observe` without a schema. */
  function Observe(opts: Options, n: Node, o: Obs): Result<Node>
    requires n.Branch? && o.path != []
  {
    if !Supported(o.value) then Err
    else
      var current := Read(n, o.path);
      if current.Absent? then AddField(opts, n, o) else UpdateField(opts, n, o, current)
  }

  function ObserveAll(opts: Options, os: seq<Obs>): (r: Result<Node>)
    requires Proper(os)
    ensures r.Ok? ==> r.value.Branch? && WellFormed(r.value)
    decreases |os|
  {
    if os == [] then Ok(EMPTY)
    else
      assert forall o | o in os[..|os| - 1] :: o in os;
      match ObserveAll(opts, os[..|os| - 1])
      case Err => Err
      case Ok(n) =>
        ObserveKeepsWellFormed(opts, n, os[|os| - 1]);
        Observe(opts, n, os[|os| - 1])
  }

  /** An observation that changes the tree sets one leaf. */
  lemma ObserveSets(opts: Options, n: Node, o: Obs) returns (leaf: Leaf, replaceNulls: bool)
    requires n.Branch? && o.path != [] && Observe(opts, n, o).Ok? && Observe(opts, n, o).value != n
    ensures Set(n, o.path, leaf, replaceNulls) == Some(Observe(opts, n, o).value)
  {
    leaf, replaceNulls :| Set(n, o.path, leaf, replaceNulls) == Some(Observe(opts, n, o).value);
  }

  lemma ObserveKeepsWellFormed(opts: Options, n: Node, o: Obs)
    requires n.Branch? && WellFormed(n) && o.path != []
    ensures Observe(opts, n, o).Ok? ==> Observe(opts, n, o).value.Branch? && WellFormed(Observe(opts, n, o).value)
  {
    if Observe(opts, n, o).Ok? && Observe(opts, n, o).value != n {
      var leaf, replaceNulls := ObserveSets(opts, n, o);
      SetWellFormed(n, o.path, leaf, replaceNulls);
    }
  }

  /** Whatever is observed, every branch of the tree has evidence under it. */
  lemma {:induction false} NoBranchIsEmpty(opts: Options, os: seq<Obs>)
    requires Proper(os) && ObserveAll(opts, os).Ok?
    ensures NoEmptyBranch(ObserveAll(opts, os).value)
    decreases |os|
  {
    if os != [] {
      var front, o := os[..|os| - 1], os[|os| - 1];
      assert forall e | e in front :: e in os;
      NoBranchIsEmpty(opts, front);
      var n := ObserveAll(opts, front).value;
      if Observe(opts, n, o).value != n {
        var leaf, replaceNulls := ObserveSets(opts, n, o);
        SetLeavesNoEmptyBranch(n, o.path, leaf, replaceNulls);
      }
    }
  }

  /** The type of a node, `Err` while a leaf under it is undecided. */
  function TypeFromTree(n: Node): Result<DataType>
    requires WellFormed(n)
    decreases n, 1, 0
  {
    match n
    case LeafNode(Typed(t)) => Ok(t)
    case LeafNode(Deferred(_)) => Err
    case Branch(names, _) =>
      match FieldsFromTree(n, names)
      case Err => Err
      case Ok(fields) => Ok(Struct(fields))
  }

  /** `fieldsFromTree`: the children of a branch as nullable fields, in insertion order. */
  function FieldsFromTree(n: Node, names: seq<string>): Result<seq<Field>>
    requires n.Branch? && WellFormed(n) && forall name | name in names :: name in n.children
    decreases n, 0, |names|
  {
    if names == [] then Ok([])
    else
      match TypeFromTree(n.children[names[0]])
      case Err => Err
      case Ok(t) =>
        match FieldsFromTree(n, names[1..])
        case Err => Err
        case Ok(rest) => Ok([Field(names[0], t, true, map[])] + rest)
  }

  /** `infer` without a schema, over the observations in the order they are made. */
  function Infer(opts: Options, os: seq<Obs>): Result<seq<Field>>
    requires Proper(os)
  {
    match ObserveAll(opts, os)
    case Err => Err
    case Ok(n) => FieldsFromTree(n, n.names)
  }

  // ---------------------------------------------------------------- the specification

  /** An observation that can be part of some successful inference. */
  predicate Admissible(opts: Options, o: Obs)
    requires o.path != []
  {
    Supported(o.value) && (TypeOf(opts, o).Some? || IsDeferred(o.value))
  }

  /**
   * Whether `b` may stand beside `a`: above a longer path there are only nulls, and at one
   * path every value agrees with every type found there.
   */
  predicate Compatible(opts: Options, a: Obs, b: Obs)
    requires a.path != [] && b.path != []
  {
    && (a.path < b.path ==> IsNullish(a.value))
    && (a.path == b.path && TypeOf(opts, a).Some? ==> Fits(opts, b, TypeOf(opts, a).value))
  }

  ghost predicate Consistent(opts: Options, os: seq<Obs>)
    requires Proper(os)
  {
    && (forall o | o in os :: Admissible(opts, o))
    && (forall a, b | a in os && b in os :: Compatible(opts, a, b))
  }

  ghost predicate SeenBelow(os: seq<Obs>, p: Path) {
    exists o :: o in os && p < o.path
  }

  ghost predicate SeenAt(os: seq<Obs>, p: Path) {
    exists o :: o in os && o.path == p
  }

  /** Every path without longer ones below it has a value that decides its type. */
  ghost predicate Resolved(opts: Options, os: seq<Obs>)
    requires Proper(os)
  {
    forall o {:trigger TypeSeenAt(opts, os, o.path)} | o in os && !SeenBelow(os, o.path) ::
      TypeSeenAt(opts, os, o.path)
  }

  ghost predicate TypeSeenAt(opts: Options, os: seq<Obs>, p: Path)
    requires Proper(os)
  {
    exists d :: d in os && d.path == p && TypeOf(opts, d).Some?
  }

  // ---------------------------------------------------------------- the invariant

  /** No evidence is lost: a leaf stands for all observations at its path. */
  ghost predicate LeafStandsFor(opts: Options, os: seq<Obs>, p: Path, leaf: Leaf)
    requires Proper(os)
  {
    match leaf
    case Typed(t) =>
      && (exists o :: o in os && o.path == p && TypeOf(opts, o) == Some(t))
      && (forall o | o in os && o.path == p :: Fits(opts, o, t))
    case Deferred(values) =>
      && (forall o | o in os && o.path == p :: TypeOf(opts, o).None? && o.value in values)
      && (forall v | v in values :: exists o :: o in os && o.path == p && o.value == v)
  }

  ghost predicate ReadingStandsFor(opts: Options, os: seq<Obs>, p: Path, r: Reading)
    requires Proper(os)
  {
    if p == [] || SeenBelow(os, p) then r.Inner?
    else if SeenAt(os, p) then r.Evidence? && LeafStandsFor(opts, os, p, r.leaf)
    else r.Absent?
  }

  ghost predicate StandsFor(opts: Options, os: seq<Obs>, n: Node)
    requires Proper(os)
  {
    n.Branch? && WellFormed(n) && forall p :: ReadingStandsFor(opts, os, p, Read(n, p))
  }

  lemma SnocSeen(os: seq<Obs>, o: Obs, p: Path)
    ensures SeenBelow(os + [o], p) <==> SeenBelow(os, p) || p < o.path
    ensures SeenAt(os + [o], p) <==> SeenAt(os, p) || p == o.path
  {
    var os' := os + [o];
    assert o in os';
    if SeenBelow(os, p) {
      var x :| x in os && p < x.path;
      assert x in os';
    }
    if SeenAt(os, p) {
      var x :| x in os && x.path == p;
      assert x in os';
    }
  }

  /** A new leaf that stands for its path keeps the whole tree standing for all observations. */
  lemma SetStandsFor(opts: Options, os: seq<Obs>, n: Node, o: Obs, leaf: Leaf, replaceNulls: bool)
    requires Proper(os + [o]) && Proper(os) && o.path != []
    requires StandsFor(opts, os, n)
    requires !SeenBelow(os, o.path)
    requires LeafStandsFor(opts, os + [o], o.path, leaf)
    requires Set(n, o.path, leaf, replaceNulls).Some?
    ensures StandsFor(opts, os + [o], Set(n, o.path, leaf, replaceNulls).value)
  {
    var m := Set(n, o.path, leaf, replaceNulls).value;
    SetReads(n, o.path, leaf, replaceNulls);
    SetWellFormed(n, o.path, leaf, replaceNulls);
    forall q ensures ReadingStandsFor(opts, os + [o], q, Read(m, q)) {
      assert Read(m, q) == ReadAfter(n, o.path, leaf, q);
      SnocSeen(os, o, q);
      assert ReadingStandsFor(opts, os, q, Read(n, q));
      if o.path < q {
        assert !SeenBelow(os, q) && !SeenAt(os, q);
      } else if q != o.path && !(q < o.path) {
        LeafUnaffected(opts, os, o, q);
      }
    }
  }

  lemma LeafUnaffected(opts: Options, os: seq<Obs>, o: Obs, q: Path)
    requires Proper(os + [o]) && Proper(os) && q != o.path
    ensures forall leaf | LeafStandsFor(opts, os, q, leaf) :: LeafStandsFor(opts, os + [o], q, leaf)
  {
    forall leaf | LeafStandsFor(opts, os, q, leaf) ensures LeafStandsFor(opts, os + [o], q, leaf) {
      assert forall x :: x in os ==> x in os + [o];
      assert forall x :: x in os + [o] && x.path == q ==> x in os;
    }
  }

  lemma ConsistentSnoc(opts: Options, os: seq<Obs>, o: Obs)
    requires Proper(os + [o]) && Proper(os) && o.path != []
    requires Consistent(opts, os)
    ensures Consistent(opts, os + [o]) <==>
              && Admissible(opts, o)
              && forall a | a in os :: Compatible(opts, a, o) && Compatible(opts, o, a)
  {
    var os' := os + [o];
    assert forall x :: x in os' <==> x in os || x == o;
    assert Compatible(opts, o, o) by {
      if TypeOf(opts, o).Some? { TypesEqualReflexive(TypeOf(opts, o).value); }
    }
  }

  /** Agreement with one of two equal types is agreement with the other. */
  lemma FitsEqual(opts: Options, o: Obs, t: DataType, u: DataType)
    requires o.path != [] && TypesEqual(t, u)
    ensures Fits(opts, o, t) <==> Fits(opts, o, u)
  {
    TypesEqualSymmetric(t, u);
    if TypeOf(opts, o).Some? { TypesEqualReflexive(TypeOf(opts, o).value); }
    if Fits(opts, o, t) { AgreesUpTo(opts, o.value, o.path, o.id, o.id, t, u); }
    if Fits(opts, o, u) { AgreesUpTo(opts, o.value, o.path, o.id, o.id, u, t); }
  }

  /** Above a path that the tree already knows, everything observed is null. */
  lemma NullsAbove(opts: Options, os: seq<Obs>, p: Path, a: Obs)
    requires Proper(os) && Consistent(opts, os)
    requires SeenBelow(os, p) || SeenAt(os, p)
    requires a in os && a.path < p
    ensures IsNullish(a.value)
  {
    var x :| x in os && p <= x.path;
    assert Compatible(opts, a, x);
  }

  /** One step at a path that is already a branch. */
  lemma StepAtBranch(opts: Options, os: seq<Obs>, n: Node, o: Obs)
    requires Proper(os + [o]) && Proper(os) && o.path != []
    requires StandsFor(opts, os, n) && Consistent(opts, os)
    requires SeenBelow(os, o.path) && Supported(o.value)
    ensures IsNullish(o.value) <==> Consistent(opts, os + [o])
    ensures IsNullish(o.value) ==> StandsFor(opts, os + [o], n)
  {
    ConsistentSnoc(opts, os, o);
    var below :| below in os && o.path < below.path;
    if IsNullish(o.value) {
      forall a | a in os ensures Compatible(opts, a, o) && Compatible(opts, o, a) {
        if a.path < o.path { NullsAbove(opts, os, o.path, a); }
      }
      forall q ensures ReadingStandsFor(opts, os + [o], q, Read(n, q)) {
        SnocSeen(os, o, q);
        assert ReadingStandsFor(opts, os, q, Read(n, q));
        if q < o.path { assert q < below.path; }
        if q != o.path { LeafUnaffected(opts, os, o, q); }
      }
    } else {
      assert !Compatible(opts, o, below);
    }
  }

  /** One step at a path whose type is already decided. */
  lemma StepAtType(opts: Options, os: seq<Obs>, n: Node, o: Obs, t: DataType)
    requires Proper(os + [o]) && Proper(os) && o.path != []
    requires StandsFor(opts, os, n) && Consistent(opts, os)
    requires Read(n, o.path) == Evidence(Typed(t)) && Supported(o.value)
    ensures Fits(opts, o, t) <==> Consistent(opts, os + [o])
    ensures Fits(opts, o, t) ==> StandsFor(opts, os + [o], n)
  {
    assert ReadingStandsFor(opts, os, o.path, Read(n, o.path));
    ConsistentSnoc(opts, os, o);
    var d :| d in os && d.path == o.path && TypeOf(opts, d) == Some(t);
    if Fits(opts, o, t) {
      if TypeOf(opts, o).None? { MatchingIsDeferred(o.value, t); }
      forall a | a in os ensures Compatible(opts, a, o) && Compatible(opts, o, a) {
        if a.path < o.path { NullsAbove(opts, os, o.path, a); }
        if a.path == o.path {
          assert Fits(opts, a, t);
          if TypeOf(opts, a).Some? { FitsEqual(opts, o, t, TypeOf(opts, a).value); }
          if TypeOf(opts, o).Some? { FitsEqual(opts, a, t, TypeOf(opts, o).value); }
        }
      }
      TypeStillStands(opts, os, n, o, t, d);
    } else {
      assert !Compatible(opts, d, o);
    }
  }

  /** A value that fits leaves the tree standing for all observations. */
  lemma TypeStillStands(opts: Options, os: seq<Obs>, n: Node, o: Obs, t: DataType, d: Obs)
    requires Proper(os + [o]) && Proper(os) && o.path != [] && StandsFor(opts, os, n)
    requires Read(n, o.path) == Evidence(Typed(t)) && Fits(opts, o, t)
    requires d in os && d.path == o.path && TypeOf(opts, d) == Some(t)
    ensures StandsFor(opts, os + [o], n)
  {
    forall q ensures ReadingStandsFor(opts, os + [o], q, Read(n, q)) {
      SnocSeen(os, o, q);
      assert ReadingStandsFor(opts, os, q, Read(n, q));
      if q < o.path { assert q < d.path; }
      if q != o.path { LeafUnaffected(opts, os, o, q); }
      assert d in os + [o];
    }
  }

  /** A leaf that is already there can be replaced: nothing is in its way. */
  lemma NoConflictAtLeaf(opts: Options, os: seq<Obs>, n: Node, p: Path)
    requires Proper(os) && StandsFor(opts, os, n) && p != []
    requires Read(n, p).Evidence?
    ensures !Conflicts(n, p, false)
  {
    assert ReadingStandsFor(opts, os, p, Read(n, p));
    var x :| x in os && x.path == p;
    forall k | 0 < k < |p| ensures Read(n, p[..k]).Inner? {
      assert p[..k] < x.path;
      assert ReadingStandsFor(opts, os, p[..k], Read(n, p[..k]));
    }
  }

  /** The deferred values all match a type exactly when every observation there is compatible with it. */
  lemma AllMatchIsCompatible(opts: Options, os: seq<Obs>, o: Obs, values: seq<Value>, t: DataType)
    requires Proper(os) && o.path != [] && TypeOf(opts, o) == Some(t)
    requires LeafStandsFor(opts, os, o.path, Deferred(values))
    requires !SeenBelow(os, o.path)
    ensures AllMatch(values, t) <==> forall a | a in os :: Compatible(opts, o, a)
  {
    if !AllMatch(values, t) {
      var v :| v in values && !DeferredMatches(v, t);
      var a :| a in os && a.path == o.path && a.value == v;
      assert !Compatible(opts, o, a);
    }
  }

  /** One step at a path with only undecided values. */
  lemma StepAtDeferred(opts: Options, os: seq<Obs>, n: Node, o: Obs, values: seq<Value>)
    requires Proper(os + [o]) && Proper(os) && o.path != []
    requires StandsFor(opts, os, n) && Consistent(opts, os)
    requires Read(n, o.path) == Evidence(Deferred(values)) && Supported(o.value)
    ensures ResolveDeferred(opts, n, o, values).Ok? <==> Consistent(opts, os + [o])
    ensures ResolveDeferred(opts, n, o, values).Ok? ==>
              StandsFor(opts, os + [o], ResolveDeferred(opts, n, o, values).value)
  {
    var p := o.path;
    assert ReadingStandsFor(opts, os, p, Read(n, p));
    ConsistentSnoc(opts, os, o);
    NoConflictAtLeaf(opts, os, n, p);
    forall a | a in os ensures Compatible(opts, a, o) {
      if a.path < p { NullsAbove(opts, os, p, a); }
    }
    match TypeOf(opts, o)
    case Some(t) =>
      AllMatchIsCompatible(opts, os, o, values, t);
      if AllMatch(values, t) {
        SetReads(n, p, Typed(t), false);
        DeferredDecided(opts, os, o, values, t);
        SetStandsFor(opts, os, n, o, Typed(t), false);
      }
    case None =>
      if IsDeferred(o.value) {
        var leaf := Deferred(values + [o.value]);
        SetReads(n, p, leaf, false);
        DeferredGrows(opts, os, o, values);
        SetStandsFor(opts, os, n, o, leaf, false);
      }
  }

  lemma DeferredDecided(opts: Options, os: seq<Obs>, o: Obs, values: seq<Value>, t: DataType)
    requires Proper(os + [o]) && Proper(os) && o.path != []
    requires LeafStandsFor(opts, os, o.path, Deferred(values)) && TypeOf(opts, o) == Some(t) && AllMatch(values, t)
    ensures LeafStandsFor(opts, os + [o], o.path, Typed(t))
  {
    assert o in os + [o];
    TypesEqualReflexive(t);
  }

  lemma DeferredGrows(opts: Options, os: seq<Obs>, o: Obs, values: seq<Value>)
    requires Proper(os + [o]) && Proper(os) && o.path != []
    requires LeafStandsFor(opts, os, o.path, Deferred(values)) && TypeOf(opts, o).None?
    ensures LeafStandsFor(opts, os + [o], o.path, Deferred(values + [o.value]))
  {
    assert o in os + [o];
    forall v | v in values + [o.value] ensures exists x :: x in os + [o] && x.path == o.path && x.value == v {
      if v in values {
        var x :| x in os && x.path == o.path && x.value == v;
        assert x in os + [o];
      }
    }
  }

  /** A value that is not null blocks every longer path. */
  lemma NonNullBlocks(opts: Options, os: seq<Obs>, n: Node, p: Path, a: Obs)
    requires Proper(os) && StandsFor(opts, os, n) && Consistent(opts, os)
    requires a in os && a.path < p && !IsNullish(a.value)
    ensures Conflicts(n, p, true)
  {
    var k := |a.path|;
    assert a.path == p[..k];
    assert !SeenBelow(os, a.path) by {
      forall b | b in os ensures !(a.path < b.path) {
        assert Compatible(opts, a, b);
      }
    }
    assert SeenAt(os, a.path);
    assert ReadingStandsFor(opts, os, p[..k], Read(n, p[..k]));
    assert Blocks(Read(n, p[..k]), true);
  }

  /** What blocks a path is a value above it that is not null. */
  lemma BlockIsNonNull(opts: Options, os: seq<Obs>, n: Node, p: Path, k: nat)
    requires Proper(os) && StandsFor(opts, os, n)
    requires 0 < k < |p| && Blocks(Read(n, p[..k]), true)
    ensures exists a :: a in os && a.path < p && !IsNullish(a.value)
  {
    assert ReadingStandsFor(opts, os, p[..k], Read(n, p[..k]));
    match Read(n, p[..k]).leaf
    case Typed(t) =>
      var a :| a in os && a.path == p[..k] && TypeOf(opts, a) == Some(t);
      assert !IsNullish(a.value);
    case Deferred(values) =>
      var v :| v in values && !IsNullish(v);
      var a :| a in os && a.path == p[..k] && a.value == v;
  }

  /** The first observation at a path conflicts exactly when something above it is not null. */
  lemma ConflictsMeansNonNullAbove(opts: Options, os: seq<Obs>, n: Node, p: Path)
    requires Proper(os) && p != []
    requires StandsFor(opts, os, n) && Consistent(opts, os)
    requires Read(n, p).Absent?
    ensures Conflicts(n, p, true) <==> exists a :: a in os && a.path < p && !IsNullish(a.value)
  {
    if a :| a in os && a.path < p && !IsNullish(a.value) {
      NonNullBlocks(opts, os, n, p, a);
    } else if k :| 0 < k < |p| && Blocks(Read(n, p[..k]), true) {
      BlockIsNonNull(opts, os, n, p, k);
    }
  }

  /** One step at a path not seen before. */
  lemma StepAtNewPath(opts: Options, os: seq<Obs>, n: Node, o: Obs)
    requires Proper(os + [o]) && Proper(os) && o.path != []
    requires StandsFor(opts, os, n) && Consistent(opts, os)
    requires Read(n, o.path).Absent? && Supported(o.value)
    ensures AddField(opts, n, o).Ok? <==> Consistent(opts, os + [o])
    ensures AddField(opts, n, o).Ok? ==> StandsFor(opts, os + [o], AddField(opts, n, o).value)
  {
    var p := o.path;
    assert ReadingStandsFor(opts, os, p, Read(n, p));
    ConsistentSnoc(opts, os, o);
    ConflictsMeansNonNullAbove(opts, os, n, p);
    assert (forall a | a in os :: Compatible(opts, a, o) && Compatible(opts, o, a)) <==> !Conflicts(n, p, true) by {
      forall a | a in os
        ensures Compatible(opts, a, o) && Compatible(opts, o, a) <==> (a.path < p ==> IsNullish(a.value))
      {
        assert !(p < a.path) && p != a.path;
      }
    }
    if Admissible(opts, o) {
      var t := TypeOf(opts, o);
      var leaf := if t.Some? then Typed(t.value) else Deferred([o.value]);
      SetReads(n, p, leaf, true);
      if !Conflicts(n, p, true) {
        assert o in os + [o];
        if t.Some? { TypesEqualReflexive(t.value); }
        SetStandsFor(opts, os, n, o, leaf, true);
      }
    }
  }

  /** `observe` succeeds exactly when the new observation is consistent with the earlier ones. */
  lemma ObserveStep(opts: Options, os: seq<Obs>, n: Node, o: Obs)
    requires Proper(os + [o]) && Proper(os) && o.path != []
    requires StandsFor(opts, os, n) && Consistent(opts, os)
    ensures Observe(opts, n, o).Ok? <==> Consistent(opts, os + [o])
    ensures Observe(opts, n, o).Ok? ==> StandsFor(opts, os + [o], Observe(opts, n, o).value)
  {
    if !Supported(o.value) {
      assert o in os + [o];
    } else {
      assert ReadingStandsFor(opts, os, o.path, Read(n, o.path));
      match Read(n, o.path)
      case Absent => StepAtNewPath(opts, os, n, o);
      case Inner => StepAtBranch(opts, os, n, o);
      case Evidence(Typed(t)) => StepAtType(opts, os, n, o, t);
      case Evidence(Deferred(values)) => StepAtDeferred(opts, os, n, o, values);
    }
  }

  /** The fold over all rows refines the order-free specification. */
  lemma {:induction false} ObserveAllRefines(opts: Options, os: seq<Obs>)
    requires Proper(os)
    ensures ObserveAll(opts, os).Ok? <==> Consistent(opts, os)
    ensures ObserveAll(opts, os).Ok? ==> StandsFor(opts, os, ObserveAll(opts, os).value)
    decreases |os|
  {
    if os == [] {
      forall p ensures ReadingStandsFor(opts, os, p, Read(EMPTY, p)) {}
    } else {
      var before, o := os[..|os| - 1], os[|os| - 1];
      assert os == before + [o];
      assert forall x | x in before :: x in os;
      ObserveAllRefines(opts, before);
      if Consistent(opts, os) { assert Consistent(opts, before); }
      if Consistent(opts, before) { ObserveStep(opts, before, ObserveAll(opts, before).value, o); }
    }
  }

  // ---------------------------------------------------------------- the resulting fields

  /** No path below `n` reads undecided evidence. */
  ghost predicate Decided(n: Node) {
    forall p :: !(Read(n, p).Evidence? && Read(n, p).leaf.Deferred?)
  }

  /** No leaf has a struct type: inference never decides one. */
  ghost predicate NoStructLeaf(n: Node) {
    match n
    case LeafNode(leaf) => leaf.Typed? ==> !leaf.typ.Struct?
    case Branch(_, children) => forall name | name in children :: NoStructLeaf(children[name])
  }

  lemma ReadChild(n: Node, name: string, q: Path)
    requires n.Branch? && name in n.children
    ensures Read(n.children[name], q) == Read(n, [name] + q)
  {
    assert ([name] + q)[1..] == q;
  }

  /** `fieldsFromTree` throws exactly when some leaf is still undecided. */
  lemma {:induction false} TypeFromTreeSucceeds(n: Node)
    requires WellFormed(n)
    ensures TypeFromTree(n).Ok? <==> Decided(n)
    decreases n, 1, 0
  {
    match n
    case LeafNode(leaf) => assert Read(n, []) == Evidence(leaf);
    case Branch(names, children) =>
      FieldsFromTreeSucceeds(n, names);
      if !Decided(n) {
        var p :| Read(n, p).Evidence? && Read(n, p).leaf.Deferred?;
        ReadChild(n, p[0], p[1..]);
        assert p == [p[0]] + p[1..];
        assert !Decided(children[p[0]]);
      }
      forall name | name in children && !Decided(children[name]) ensures !Decided(n) {
        var q :| Read(children[name], q).Evidence? && Read(children[name], q).leaf.Deferred?;
        ReadChild(n, name, q);
        assert Read(n, [name] + q).Evidence?;
      }
  }

  lemma {:induction false} FieldsFromTreeSucceeds(n: Node, names: seq<string>)
    requires n.Branch? && WellFormed(n) && forall name | name in names :: name in n.children
    ensures FieldsFromTree(n, names).Ok? <==> forall name | name in names :: Decided(n.children[name])
    decreases n, 0, |names|
  {
    if names != [] {
      TypeFromTreeSucceeds(n.children[names[0]]);
      FieldsFromTreeSucceeds(n, names[1..]);
      assert forall name :: name in names <==> name == names[0] || name in names[1..];
    }
  }

  /** The fields of a branch keep its names in order and one field for each. */
  lemma {:induction false} FieldsFromTreeFind(n: Node, names: seq<string>, name: string)
    requires n.Branch? && WellFormed(n) && forall x | x in names :: x in n.children
    requires FieldsFromTree(n, names).Ok?
    ensures |FieldsFromTree(n, names).value| == |names|
    ensures forall i | 0 <= i < |names| :: FieldsFromTree(n, names).value[i].name == names[i]
    ensures name !in names ==> Find(FieldsFromTree(n, names).value, name).None?
    ensures name in names ==>
              && TypeFromTree(n.children[name]).Ok?
              && Find(FieldsFromTree(n, names).value, name) ==
                 Some(Field(name, TypeFromTree(n.children[name]).value, true, map[]))
    decreases |names|
  {
    if names != [] {
      FieldsFromTreeFind(n, names[1..], name);
      assert FieldsFromTree(n, names).value[1..] == FieldsFromTree(n, names[1..]).value;
    }
  }

  /** The field that a reading of the tree turns into. */
  ghost predicate FieldShows(f: Option<Field>, p: Path, r: Reading)
    requires p != []
  {
    match r
    case Absent => f.None?
    case Inner => f.Some? && f.value.typ.Struct? && f.value == Field(p[|p| - 1], f.value.typ, true, map[])
    case Evidence(Typed(t)) => f == Some(Field(p[|p| - 1], t, true, map[]))
    case Evidence(Deferred(_)) => false
  }

  lemma FindInTree(n: Node, name: string)
    requires n.Branch? && WellFormed(n) && FieldsFromTree(n, n.names).Ok?
    ensures name !in n.children ==> Find(FieldsFromTree(n, n.names).value, name).None?
    ensures name in n.children ==>
              && TypeFromTree(n.children[name]).Ok?
              && Find(FieldsFromTree(n, n.names).value, name) ==
                 Some(Field(name, TypeFromTree(n.children[name]).value, true, map[]))
  {
    FieldsFromTreeFind(n, n.names, name);
  }

  /** `fieldAtPath` on the inferred fields shows exactly what the tree holds. */
  lemma {:induction false} FieldsShowTree(n: Node, p: Path)
    requires n.Branch? && WellFormed(n) && NoStructLeaf(n) && p != []
    requires FieldsFromTree(n, n.names).Ok?
    ensures FieldShows(FieldAtPath(FieldsFromTree(n, n.names).value, p), p, Read(n, p))
    decreases |p|
  {
    FindInTree(n, p[0]);
    if p[0] in n.children {
      var child := n.children[p[0]];
      assert Read(n, p) == Read(child, p[1..]);
      if |p| == 1 {
        assert p[1..] == [];
      } else if child.Branch? {
        FieldsShowTree(child, p[1..]);
      }
    }
  }

  // ---------------------------------------------------------------- the main results

  lemma NeverStruct(opts: Options, o: Obs)
    requires o.path != []
    ensures TypeOf(opts, o).Some? ==> !TypeOf(opts, o).value.Struct?
  {
  }

  lemma {:induction false} StandsForHasNoStructLeaf(opts: Options, os: seq<Obs>, n: Node, prefix: Path, sub: Node)
    requires Proper(os) && StandsFor(opts, os, n)
    requires forall q :: Read(sub, q) == Read(n, prefix + q)
    ensures NoStructLeaf(sub)
    decreases sub
  {
    match sub
    case LeafNode(leaf) =>
      assert Read(sub, []) == Read(n, prefix + []);
      assert prefix + [] == prefix;
      assert ReadingStandsFor(opts, os, prefix, Read(n, prefix));
      if leaf.Typed? {
        var o :| o in os && o.path == prefix && TypeOf(opts, o) == Some(leaf.typ);
        NeverStruct(opts, o);
      }
    case Branch(_, children) =>
      forall name | name in children ensures NoStructLeaf(children[name]) {
        forall q ensures Read(children[name], q) == Read(n, prefix + [name] + q) {
          ReadChild(sub, name, q);
          assert prefix + ([name] + q) == prefix + [name] + q;
        }
        StandsForHasNoStructLeaf(opts, os, n, prefix + [name], children[name]);
      }
  }

  lemma DecidedIsResolved(opts: Options, os: seq<Obs>, n: Node)
    requires Proper(os) && StandsFor(opts, os, n)
    ensures Decided(n) <==> Resolved(opts, os)
  {
    if Decided(n) {
      forall o | o in os && !SeenBelow(os, o.path)
        ensures TypeSeenAt(opts, os, o.path)
      {
        assert ReadingStandsFor(opts, os, o.path, Read(n, o.path));
        assert !(Read(n, o.path).Evidence? && Read(n, o.path).leaf.Deferred?);
      }
    } else {
      var p :| Read(n, p).Evidence? && Read(n, p).leaf.Deferred?;
      assert ReadingStandsFor(opts, os, p, Read(n, p));
      var o :| o in os && o.path == p;
      assert !TypeSeenAt(opts, os, o.path);
    }
  }

  /** What inference promises about one path, in terms of the observations only. */
  ghost predicate PathPromise(opts: Options, os: seq<Obs>, p: Path, f: Option<Field>)
    requires Proper(os) && p != []
  {
    && (f.None? <==> !SeenBelow(os, p) && !SeenAt(os, p))
    && (f.Some? ==> f.value == Field(p[|p| - 1], f.value.typ, true, map[]))
    && (SeenBelow(os, p) ==> f.value.typ.Struct? && forall o | o in os && o.path == p :: IsNullish(o.value))
    && (SeenAt(os, p) && !SeenBelow(os, p) ==>
          && !f.value.typ.Struct?
          && (exists d :: d in os && d.path == p && TypeOf(opts, d) == Some(f.value.typ))
          && (forall o | o in os && o.path == p :: Fits(opts, o, f.value.typ)))
  }

  lemma TreeHasNoStructLeaf(opts: Options, os: seq<Obs>, n: Node)
    requires Proper(os) && StandsFor(opts, os, n)
    ensures NoStructLeaf(n)
  {
    forall q ensures Read(n, q) == Read(n, [] + q) { assert [] + q == q; }
    StandsForHasNoStructLeaf(opts, os, n, [], n);
  }

  lemma PromiseKept(opts: Options, os: seq<Obs>, n: Node, p: Path)
    requires Proper(os) && StandsFor(opts, os, n) && Consistent(opts, os) && p != []
    requires FieldsFromTree(n, n.names).Ok?
    ensures PathPromise(opts, os, p, FieldAtPath(FieldsFromTree(n, n.names).value, p))
  {
    TreeHasNoStructLeaf(opts, os, n);
    FieldsShowTree(n, p);
    assert ReadingStandsFor(opts, os, p, Read(n, p));
    if SeenBelow(os, p) {
      var b :| b in os && p < b.path;
      forall o | o in os && o.path == p ensures IsNullish(o.value) {
        assert Compatible(opts, o, b);
      }
    } else if SeenAt(os, p) {
      var d :| d in os && d.path == p && TypeOf(opts, d) == Some(Read(n, p).leaf.typ);
      NeverStruct(opts, d);
    }
  }

  /**
   * Inference without a schema meets its specification: it succeeds exactly on consistent and
   * resolved observations, and then every path has the field the observations at and below it
   * call for, every observed value being accepted by the type at its path.
   */
  lemma InferMeetsSpecification(opts: Options, os: seq<Obs>)
    requires Proper(os)
    ensures Infer(opts, os).Ok? <==> Consistent(opts, os) && Resolved(opts, os)
    ensures Infer(opts, os).Ok? ==>
              forall p | p != [] :: PathPromise(opts, os, p, FieldAtPath(Infer(opts, os).value, p))
  {
    ObserveAllRefines(opts, os);
    if ObserveAll(opts, os).Ok? {
      var n := ObserveAll(opts, os).value;
      TypeFromTreeSucceeds(n);
      DecidedIsResolved(opts, os, n);
      if Infer(opts, os).Ok? {
        forall p | p != [] ensures PathPromise(opts, os, p, FieldAtPath(Infer(opts, os).value, p)) {
          PromiseKept(opts, os, n, p);
        }
      }
    }
  }

  /** The same values at the same paths, whatever the order, number and dictionary ids. */
  ghost predicate SameEvidence(os1: seq<Obs>, os2: seq<Obs>) {
    && (forall o {:trigger HasTwin(o, os2)} | o in os1 :: HasTwin(o, os2))
    && (forall o {:trigger HasTwin(o, os1)} | o in os2 :: HasTwin(o, os1))
  }

  ghost predicate HasTwin(o: Obs, os: seq<Obs>) {
    exists x :: x in os && x.path == o.path && x.value == o.value
  }

  /** Equal up to the ids of dictionaries and the contents of structs, which have paths of their own. */
  ghost predicate SameField(f: Option<Field>, g: Option<Field>) {
    && (f.Some? <==> g.Some?)
    && (f.Some? ==>
          && f.value.name == g.value.name && f.value.nullable == g.value.nullable &&
            f.value.metadata == g.value.metadata
          && (f.value.typ.Struct? <==> g.value.typ.Struct?)
          && (!f.value.typ.Struct? ==> TypesEqual(f.value.typ, g.value.typ)))
  }

  lemma TwinTypes(opts: Options, a: Obs, b: Obs)
    requires a.path != [] && a.path == b.path && a.value == b.value
    ensures TypeOf(opts, a).Some? <==> TypeOf(opts, b).Some?
    ensures TypeOf(opts, a).Some? ==> TypesEqual(TypeOf(opts, a).value, TypeOf(opts, b).value)
    ensures forall t :: Fits(opts, a, t) ==> Fits(opts, b, t)
  {
    InferTypeUpToId(opts, a.value, a.path, a.id, b.id);
    forall t | Fits(opts, a, t) ensures Fits(opts, b, t) {
      TypesEqualReflexive(t);
      AgreesUpTo(opts, a.value, a.path, a.id, b.id, t, t);
    }
  }

  lemma ConsistencyIsOrderFree(opts: Options, os1: seq<Obs>, os2: seq<Obs>)
    requires Proper(os1) && Proper(os2) && SameEvidence(os1, os2)
    requires Consistent(opts, os1)
    ensures Consistent(opts, os2)
  {
    forall o | o in os2 ensures Admissible(opts, o) {
      assert HasTwin(o, os1);
      var x :| x in os1 && x.path == o.path && x.value == o.value;
      TwinTypes(opts, x, o);
    }
    forall a, b | a in os2 && b in os2 ensures Compatible(opts, a, b) {
      assert HasTwin(a, os1);
      var x :| x in os1 && x.path == a.path && x.value == a.value;
      assert HasTwin(b, os1);
      var y :| y in os1 && y.path == b.path && y.value == b.value;
      assert Compatible(opts, x, y);
      TwinTypes(opts, x, a);
      TwinTypes(opts, y, b);
      if a.path == b.path && TypeOf(opts, a).Some? {
        FitsEqual(opts, b, TypeOf(opts, x).value, TypeOf(opts, a).value);
      }
    }
  }

  lemma SeenIsOrderFree(os1: seq<Obs>, os2: seq<Obs>, p: Path)
    requires SameEvidence(os1, os2)
    ensures SeenBelow(os1, p) <==> SeenBelow(os2, p)
    ensures SeenAt(os1, p) <==> SeenAt(os2, p)
  {
    forall o | o in os1 && p <= o.path ensures HasTwin(o, os2) {}
    forall o | o in os2 && p <= o.path ensures HasTwin(o, os1) {}
  }

  lemma ResolutionIsOrderFree(opts: Options, os1: seq<Obs>, os2: seq<Obs>)
    requires Proper(os1) && Proper(os2) && SameEvidence(os1, os2)
    requires Resolved(opts, os1)
    ensures Resolved(opts, os2)
  {
    forall o | o in os2 && !SeenBelow(os2, o.path)
      ensures TypeSeenAt(opts, os2, o.path)
    {
      SeenIsOrderFree(os1, os2, o.path);
      assert HasTwin(o, os1);
      var x :| x in os1 && x.path == o.path && x.value == o.value;
      assert TypeSeenAt(opts, os1, x.path);
      var d :| d in os1 && d.path == x.path && TypeOf(opts, d).Some?;
      assert HasTwin(d, os2);
      var e :| e in os2 && e.path == d.path && e.value == d.value;
      TwinTypes(opts, d, e);
    }
  }

  /** Without a schema, success and the type at every path do not depend on the order of the rows. */
  lemma InferIsOrderFree(opts: Options, os1: seq<Obs>, os2: seq<Obs>)
    requires Proper(os1) && Proper(os2) && SameEvidence(os1, os2)
    ensures Infer(opts, os1).Ok? <==> Infer(opts, os2).Ok?
    ensures Infer(opts, os1).Ok? ==>
              forall p | p != [] ::
                SameField(FieldAtPath(Infer(opts, os1).value, p), FieldAtPath(Infer(opts, os2).value, p))
  {
    InferMeetsSpecification(opts, os1);
    InferMeetsSpecification(opts, os2);
    if Infer(opts, os1).Ok? {
      ConsistencyIsOrderFree(opts, os1, os2);
      ResolutionIsOrderFree(opts, os1, os2);
      forall p | p != []
        ensures SameField(FieldAtPath(Infer(opts, os1).value, p), FieldAtPath(Infer(opts, os2).value, p))
      {
        var f, g := FieldAtPath(Infer(opts, os1).value, p), FieldAtPath(Infer(opts, os2).value, p);
        assert PathPromise(opts, os1, p, f) && PathPromise(opts, os2, p, g);
        SeenIsOrderFree(os1, os2, p);
        if SeenAt(os1, p) && !SeenBelow(os1, p) {
          var d :| d in os2 && d.path == p && TypeOf(opts, d) == Some(g.value.typ);
          assert HasTwin(d, os1);
          var e :| e in os1 && e.path == d.path && e.value == d.value;
          assert Fits(opts, e, f.value.typ);
          TwinTypes(opts, e, d);
        }
      }
    }
    if Infer(opts, os2).Ok? {
      ConsistencyIsOrderFree(opts, os2, os1);
      ResolutionIsOrderFree(opts, os2, os1);
    }
  }

  /** In a fixed-size list column every value that is not null has exactly that many elements. */
  lemma FixedSizeColumnsAreUniform(opts: Options, os: seq<Obs>, p: Path)
    requires Proper(os) && p != [] && Infer(opts, os).Ok?
    requires FieldAtPath(Infer(opts, os).value, p).Some?
    requires FieldAtPath(Infer(opts, os).value, p).value.typ.FixedSizeList?
    ensures forall o | o in os && o.path == p ::
              IsNullish(o.value) || ElementCount(o.value) ==
                Some(FieldAtPath(Infer(opts, os).value, p).value.typ.listSize)
  {
    InferMeetsSpecification(opts, os);
    var t := FieldAtPath(Infer(opts, os).value, p).value.typ;
    assert PathPromise(opts, os, p, FieldAtPath(Infer(opts, os).value, p));
    forall o | o in os && o.path == p ensures IsNullish(o.value) || ElementCount(o.value) == Some(t.listSize) {
      assert Fits(opts, o, t);
      AgreesMeansFixedSize(opts, o.value, p, o.id, t);
    }
  }
}
